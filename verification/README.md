# Money expressions and the string calculator, in Dafny

This project models two small arithmetic components of the `tdd-playground` Swift playground and proves properties of them.

**Money expression evaluator** (module `Money`, file `money.dfy`). A `Money` value is an integer amount tagged with a `Currency` (USD or CHF). Expressions form a closed tree, `Expr = Leaf(Money) | Sum(augend, addend)`. It stands for Swift's `Expression` protocol, which `Money` and `Sum` both implement. `plus` builds a `Sum`. `times` scales every leaf and keeps the tree's shape. `Reduce` evaluates a tree to one `Money` in a target currency using a `Bank`. A `Bank` is a rate table `map<Pair, int>` keyed by the ordered pair (from, to). `Rate` returns 1 for identical currencies without a lookup. For distinct currencies it returns the registered rate. `AddRate` inserts a rate or overwrites the old one. A leaf's amount is divided by the rate with Swift's truncating division, `TruncDiv`. A Sum reduces its addend, then its augend, and adds the two amounts.

**String calculator** (module `StringCalculator`, file `calculator.dfy`). `Add` takes a calculator and a string.
- An empty string gives 0.
- A leading `//c` header adds the character at index 2 to the calculator's delimiter set, and only the text after the first newline is summed.
- The text is split on the delimiter set, which starts as `,` and newline. Empty pieces are dropped, as Swift's `split` does by default.
- Each piece goes through `MapNumber`, a model of Swift's `Int(String)` followed by a `> 0` guard. A piece that does not parse gives `InvalidInput`. A piece that parses to a value of zero or less gives `NegativeInput`.
- The pieces are checked left to right, and the first bad piece decides the error. Otherwise their values are added.

The calculator's only state is its delimiter set. `Add` returns the updated calculator with the result. The set grows even when the call then throws, because the header is handled before any parsing.

`wrappers.dfy` holds the `Option` and `Result` types used for Swift's optionals, thrown errors and traps.

Design choices:
- The Swift `Bank` is a mutable class. Here it is an immutable value, and `AddRate` returns the updated bank.
- Besides integer overflow (listed under "Left out"), Swift traps in `reduce` in two cases: the force-unwrap of a rate that was never registered (line 107), and division by a registered rate of zero (line 53). The model turns both into failure values, `MissingRate(pair)` and `ZeroRate(pair)`. `Reduce` therefore has no precondition.
- `ParseInt` accepts an optional `+` or `-` followed by one or more ASCII digits. A value outside the 64-bit `Int` range gives nil, as Swift's `Int(String)` does.

## Model

| member | source | states |
|---|---|---|
| Money.TruncDiv | tdd-playground.playground/Contents.swift:53 | Swift `Int` division rounds toward zero: the remainder is smaller than the divisor in magnitude and is zero or has the sign of the dividend |
| Money.TruncDivUnique | tdd-playground.playground/Contents.swift:53 | the quotient is the only one with that remainder property, so truncation is fully pinned down |
| Money.TruncDivNegativeDividend | tdd-playground.playground/Contents.swift:53 | -3 / 2 truncates to -1, unlike Euclidean division (-2) |
| Money.TruncDivNonNegative | tdd-playground.playground/Contents.swift:53 | for a non-negative amount and a positive rate, truncation agrees with ordinary division |
| Money.NewBank | tdd-playground.playground/Contents.swift:94-95 | Bank() starts with an empty rate table |
| Money.Rate | tdd-playground.playground/Contents.swift:101-108 | the rate of a currency to itself is 1 with no lookup; for distinct currencies the lookup succeeds exactly when the ordered pair is registered, and otherwise fails with MissingRate for that pair (Swift traps here) |
| Money.RateIdentity | tdd-playground.playground/Contents.swift:101-104 | rate(X, X) is 1 on every bank, a fresh one included |
| Money.FreshBankMissingRate | tdd-playground.playground/Contents.swift:106-107 | a fresh bank has no rate between distinct currencies: the lookup fails and there is no default value |
| Money.AddRate | tdd-playground.playground/Contents.swift:110-113 | addRate is an upsert: the pair is present with the new multiplier, and every other pair keeps its rate |
| Money.RateAfterAddRate | tdd-playground.playground/Contents.swift:110-113 | after addRate(from, to, m), rate(from, to) is m when from differs from to, and every other lookup returns what it returned before |
| Money.AddRateOverwrites | tdd-playground.playground/Contents.swift:110-113 | a second addRate on the same pair overwrites the first |
| Money.NoReverseRate | tdd-playground.playground/Contents.swift:118-127 | pairs are ordered: registering from->to makes rate(from, to) = m but does not derive rate(to, from) |
| Money.Plus | tdd-playground.playground/Contents.swift:22-26 | plus builds a Sum whose leaves are the receiver's leaves followed by the addend's |
| Money.PlusKeepsOperands | tdd-playground.playground/Contents.swift:22-26 | plus always returns Sum(self, addend), with both operands unchanged |
| Money.Dollar | tdd-playground.playground/Contents.swift:41-43 | dollar(n) is n in USD |
| Money.Franc | tdd-playground.playground/Contents.swift:45-47 | franc(n) is n in CHF |
| Money.FactoriesDistinct | tdd-playground.playground/Contents.swift:41-47 | the factories are injective, and a dollar amount never equals a franc amount |
| Money.MoneyTimes | tdd-playground.playground/Contents.swift:56-58 | times on one Money value multiplies the amount and keeps the currency |
| Money.MoneyTimesCompose | tdd-playground.playground/Contents.swift:56-58 | scaling one Money value by 1 is the identity, and scaling by j then k is scaling by j*k |
| Money.Times | tdd-playground.playground/Contents.swift:87-89 | times keeps the tree shape and scales every leaf: leaf i of the result is leaf i of the input with its amount multiplied and its currency kept |
| Money.TimesOne | tdd-playground.playground/Contents.swift:56-58 | scaling by 1 returns the same expression |
| Money.TimesTimes | tdd-playground.playground/Contents.swift:56-58 | scaling by j and then by k is the same as scaling by j*k |
| Money.TimesDistributesOverPlus | tdd-playground.playground/Contents.swift:87-89 | (a + b).times(k) equals a.times(k) + b.times(k) |
| Money.ReduceMoney | tdd-playground.playground/Contents.swift:51-54 | reducing one Money value gives a Money in the target currency whose amount is the truncated quotient by the rate; it is the identity when no conversion is needed; it fails exactly when the rate is missing or zero, with MissingRate for an unregistered pair and ZeroRate for a registered zero rate |
| Money.ReduceMoneyErrors | tdd-playground.playground/Contents.swift:51-54 | for distinct currencies, an unregistered pair fails with MissingRate for that pair and a registered rate of zero with ZeroRate |
| Money.Reduce | tdd-playground.playground/Contents.swift:82-85 | reducing any expression succeeds exactly when every leaf can be converted; the result is always in the target currency; its amount is the sum of the separately converted leaves (the reference semantics over the flattened leaf list); a failure is the error of a leaf that cannot be converted: MissingRate for its pair when that pair is unregistered, ZeroRate when its rate is zero |
| Money.ReducePlus | tdd-playground.playground/Contents.swift:82-85 | reducing a Sum gives the sum of both children's reduced amounts in the target currency, and succeeds exactly when both children do |
| Money.ReduceOfSum | tdd-playground.playground/Contents.swift:82-85 | a Sum of two expressions that reduce to x and y in one currency reduces to the addend's amount plus the augend's in that currency |
| Money.ReduceAssociative | tdd-playground.playground/Contents.swift:82-85 | (a + b) + c and a + (b + c) reduce to the same Money |
| Money.ReduceCommutative | tdd-playground.playground/Contents.swift:82-85 | a + b and b + a reduce to the same Money |
| Money.TimesKeepsConvertibility | tdd-playground.playground/Contents.swift:87-89 | scaling never changes whether a reduction succeeds |
| Money.ReduceTimesSameCurrency | tdd-playground.playground/Contents.swift:56-58 | when no conversion is needed, reducing e.times(k) gives k times the reduced amount of e |
| Money.MoneyEquality | tdd-playground.playground/Contents.swift:61-66 | two Money values are equal iff amount and currency both match |
| Money.ScenarioMoneyTimes | tdd-playground.playground/Contents.swift:137-142 | dollar(5).times(2) reduces to 10 USD and dollar(5).times(3) to 15 USD |
| Money.ScenarioEqualityAndCurrency | tdd-playground.playground/Contents.swift:144-153 | dollar(5) equals dollar(5) but not dollar(6) or franc(5); the factories tag USD and CHF |
| Money.ScenarioReduce | tdd-playground.playground/Contents.swift:155-175 | 4 USD + 3 USD gives 7 USD; 1 USD reduces to 1 USD on a fresh bank; 2 CHF at CHF->USD rate 2 gives 1 USD; the identity rate is 1; 2 CHF on a fresh bank fails with MissingRate(CHF, USD) |
| Money.ScenarioMixedAddition | tdd-playground.playground/Contents.swift:177-210 | with CHF->USD rate 2: 5 USD + 10 CHF gives 10 USD, (5 USD + 10 CHF) + 5 USD gives 15 USD, and (5 USD + 10 CHF).times(2) gives 20 USD |
| StringCalculator.SplitFrom | tdd-playground.playground/Pages/string-calculator.xcplaygroundpage/Contents.swift:36-37 | splitting from a pending piece yields only non-empty, delimiter-free pieces whose concatenation is the pending piece followed by the non-delimiter characters of the input |
| StringCalculator.Split | tdd-playground.playground/Pages/string-calculator.xcplaygroundpage/Contents.swift:36-38 | split yields non-empty, delimiter-free pieces, and together they hold exactly the input's non-delimiter characters in order |
| StringCalculator.SplitJoin | tdd-playground.playground/Pages/string-calculator.xcplaygroundpage/Contents.swift:36-38 | split inverts join: tokens joined by delimiter characters split back into the same tokens |
| StringCalculator.SplitJoinRuns | tdd-playground.playground/Pages/string-calculator.xcplaygroundpage/Contents.swift:36-38 | empty pieces are dropped: tokens separated by delimiter runs of any length, with any delimiters before the first and after the last, split back into exactly those tokens |
| StringCalculator.ParseInt | tdd-playground.playground/Pages/string-calculator.xcplaygroundpage/Contents.swift:44 | Int(String) succeeds only on an optional sign followed by at least one decimal digit, so a bare "+" or "-" is nil, and only for values in the 64-bit range; a negative result has a leading minus |
| StringCalculator.ParseDecimal | tdd-playground.playground/Pages/string-calculator.xcplaygroundpage/Contents.swift:44 | parsing inverts decimal printing for every 64-bit value, with or without a sign |
| StringCalculator.ParseSigned | tdd-playground.playground/Pages/string-calculator.xcplaygroundpage/Contents.swift:44 | a "+" or "-" followed by digits parses to the signed value of the digits when it is in the 64-bit range, and to nil otherwise |
| StringCalculator.ParseUnsigned | tdd-playground.playground/Pages/string-calculator.xcplaygroundpage/Contents.swift:44 | any unsigned digit string, leading zeros included, parses to its decimal value when that is at most Int.max, and to nil otherwise |
| StringCalculator.ParseLeadingZero | tdd-playground.playground/Pages/string-calculator.xcplaygroundpage/Contents.swift:44 | Int("07") is 7: a leading zero is accepted |
| StringCalculator.ParseOverflow | tdd-playground.playground/Pages/string-calculator.xcplaygroundpage/Contents.swift:44 | a decimal numeral beyond the 64-bit range does not parse |
| StringCalculator.MapNumber | tdd-playground.playground/Pages/string-calculator.xcplaygroundpage/Contents.swift:43-51 | mapNumber fails with invalidInput iff the token does not parse, and with negativeInput iff it parses to a value <= 0 (0 included); otherwise it returns the parsed, strictly positive value |
| StringCalculator.SumTokens | tdd-playground.playground/Pages/string-calculator.xcplaygroundpage/Contents.swift:35-41 | the tokens are summed iff every token maps successfully, and the sum is then the total of the mapped values (so at least the number of tokens); otherwise the error is the first offending token's, all earlier tokens being valid |
| StringCalculator.SumTokensAppend | tdd-playground.playground/Pages/string-calculator.xcplaygroundpage/Contents.swift:35-41 | summing a concatenation of token lists succeeds iff both parts do, and then gives the sum of the two sums |
| StringCalculator.ParseNumbers | tdd-playground.playground/Pages/string-calculator.xcplaygroundpage/Contents.swift:35-41 | a successful parseNumbers result is at least the number of pieces the input splits into, since every piece is worth at least 1 |
| StringCalculator.SumTokensDecimals | tdd-playground.playground/Pages/string-calculator.xcplaygroundpage/Contents.swift:35-41 | positive decimal tokens sum to the sum of their values |
| StringCalculator.NewCalculator | tdd-playground.playground/Pages/string-calculator.xcplaygroundpage/Contents.swift:12-13 | StringCalculator() starts with the delimiter set {",", "\n"} |
| StringCalculator.HasHeader | tdd-playground.playground/Pages/string-calculator.xcplaygroundpage/Contents.swift:22 | hasPrefix("//"): the first two characters of the input are "//" |
| StringCalculator.FirstNewline | tdd-playground.playground/Pages/string-calculator.xcplaygroundpage/Contents.swift:27 | index(of: "\n"): the index of a newline with no newline before it, i.e. the first one |
| StringCalculator.Body | tdd-playground.playground/Pages/string-calculator.xcplaygroundpage/Contents.swift:27-29 | the substring from one past the first newline to the end: a proper suffix of the input, preceded by a newline, with no newline before that one |
| StringCalculator.Add | tdd-playground.playground/Pages/string-calculator.xcplaygroundpage/Contents.swift:15-33 | empty input gives 0 and leaves the calculator unchanged; a header adds the character at index 2 to the delimiters, even when parsing then throws; without a header the whole input is summed, and with one only the text after the first newline; a successful result is never negative |
| StringCalculator.AddJoined | tdd-playground.playground/Pages/string-calculator.xcplaygroundpage/Contents.swift:15-33 | without a header, positive numbers joined by commas and newlines add up to their sum |
| StringCalculator.AddJoinedWithHeader | tdd-playground.playground/Pages/string-calculator.xcplaygroundpage/Contents.swift:22-30 | after a //c header (c not a digit), numbers joined by c, commas and newlines add up to their sum, and the delimiter set becomes {",", "\n", c} |
| StringCalculator.AddWithHeader | tdd-playground.playground/Pages/string-calculator.xcplaygroundpage/Contents.swift:22-32 | for any input "//c" newline rest, add grows the delimiters by c and sums the split of the rest under the grown set, as plain text: only this first header is stripped, so a rest that itself starts with "//" is not read as a second header |
| StringCalculator.AddSplits | tdd-playground.playground/Pages/string-calculator.xcplaygroundpage/Contents.swift:15-32 | without a header, add leaves the calculator unchanged and sums the pieces the whole input splits into |
| StringCalculator.Session | tdd-playground.playground/Pages/string-calculator.xcplaygroundpage/Contents.swift:13-25 | over any run of add calls on one calculator the delimiter set never shrinks, so the defaults "," and newline stay |
| StringCalculator.SessionKeepsDelimiters | tdd-playground.playground/Pages/string-calculator.xcplaygroundpage/Contents.swift:22-25 | across a run of calls every custom delimiter introduced by any call stays in effect at the end |
| StringCalculator.SessionStep | tdd-playground.playground/Pages/string-calculator.xcplaygroundpage/Contents.swift:22-25 | the first call of a run keeps every delimiter, adds its header's character, and the run continues from the calculator it leaves |
| StringCalculator.ScenarioSingle | tdd-playground.playground/Pages/string-calculator.xcplaygroundpage/Contents.swift:62-68 | "" gives 0, "1" gives 1 and "2" gives 2 |
| StringCalculator.ScenarioPairs | tdd-playground.playground/Pages/string-calculator.xcplaygroundpage/Contents.swift:69-70 | "1,2" gives 3 and "1,3" gives 4 |
| StringCalculator.ScenarioLong | tdd-playground.playground/Pages/string-calculator.xcplaygroundpage/Contents.swift:71 | "1,2,3,4,5" gives 15 |
| StringCalculator.ScenarioNewline | tdd-playground.playground/Pages/string-calculator.xcplaygroundpage/Contents.swift:74-76 | "1\n2" gives 3 |
| StringCalculator.ScenarioMixed | tdd-playground.playground/Pages/string-calculator.xcplaygroundpage/Contents.swift:78-80 | "1\n2,3" gives 6 |
| StringCalculator.ScenarioCustomDelimiter | tdd-playground.playground/Pages/string-calculator.xcplaygroundpage/Contents.swift:83 | "//;\n1;2" gives 3 |
| StringCalculator.ScenarioCustomAndDefaultDelimiters | tdd-playground.playground/Pages/string-calculator.xcplaygroundpage/Contents.swift:82-85 | on the calculator left by "//;\n1;2", as in the test method, "//;\n1;2,3\n4" gives 10 |
| StringCalculator.ScenarioUnknownDelimiter | tdd-playground.playground/Pages/string-calculator.xcplaygroundpage/Contents.swift:13 | on a fresh calculator ";" is no delimiter, so "1;2" is one unparsable token |
| StringCalculator.ScenarioDelimiterPersists | tdd-playground.playground/Pages/string-calculator.xcplaygroundpage/Contents.swift:25 | after a call with a "//;" header, the same calculator sums "1;2" to 3 |
| StringCalculator.ScenarioNegative | tdd-playground.playground/Pages/string-calculator.xcplaygroundpage/Contents.swift:87-91 | "-1" fails with negativeInput |
| StringCalculator.ScenarioZero | tdd-playground.playground/Pages/string-calculator.xcplaygroundpage/Contents.swift:47-49 | "0" parses but is not positive, so it fails with negativeInput |
| StringCalculator.ScenarioInvalid | tdd-playground.playground/Pages/string-calculator.xcplaygroundpage/Contents.swift:93-97 | "a" fails with invalidInput |
| StringCalculator.ScenarioFirstErrorInvalid | tdd-playground.playground/Pages/string-calculator.xcplaygroundpage/Contents.swift:36-39 | "a,-1" fails with invalidInput: the first offending token decides, though a later one is negative |
| StringCalculator.ScenarioFirstErrorNegative | tdd-playground.playground/Pages/string-calculator.xcplaygroundpage/Contents.swift:36-39 | "-1,a" fails with negativeInput: the first offending token decides, though a later one does not parse |
| StringCalculator.ScenarioEmptyPieces | tdd-playground.playground/Pages/string-calculator.xcplaygroundpage/Contents.swift:36-37 | "," gives 0 and "1,,2" gives 3, because split drops empty pieces |

## Left out

- Fixed-width overflow: Swift's `Int` traps when `times` (line 57 of the money file) or a `Sum` reduction (line 83) overflows. It also traps when the calculator's `reduce(0, +)` overflows, and on `Int.min / -1`. The model uses unbounded integers and has none of these traps. Parsing does model the 64-bit range.
- Division by a zero rate: Swift's `Money.reduce` (line 53) checks nothing and traps. The model reports it as a `ZeroRate` failure, so callers need not keep rates non-zero.
- Header crash paths: an input that starts with `//` but has no newline traps on the force-unwrap of `index(of: "\n")` (line 27). The input `"//"` alone traps earlier, on the subscript `numbers[delimeterIndex]` (line 24), because there is no character at index 2. `Add` requires a newline whenever the input starts with `//` (the predicate `Admissible`), which excludes both traps: such an input then has at least three characters.
- Swift strings are sequences of grapheme clusters, so `"\r\n"` is one `Character`. The model works on `seq<char>` and has no grapheme or `String.Index` semantics.
- `debugDescription` is string formatting with no contract.
- `Pair.hashValue` always returns 0. This affects only hashing performance. The rate table is a map keyed by the pair's structural equality.
- The XCTest classes, the `defaultTestSuite().run()` calls and the framework imports are left out. Their test inputs appear as the `Scenario` lemmas.
- `Bank.reduce` only delegates to the expression's `reduce` (lines 97-99). It is `Money.Reduce` itself.
- `Money.Reduce`: when several leaves cannot be converted, the contract gives the error of some unconvertible leaf but not which one. In the model it is the rightmost one, since the addend is reduced first. Swift traps there and reports no pair at all.
- `StringCalculator.ParseNumbers`: its contract states only that a successful result is at least the number of pieces, and so not negative. Its content is stated through `SumTokens`, `Split`, `SplitJoin` and `SplitJoinRuns`.

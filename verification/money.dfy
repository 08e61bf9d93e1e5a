/** The money expression evaluator: amounts of currency combined into
    expression trees by `plus` and `times`, and reduced to a single amount
    in a target currency through a bank of exchange rates. */
module Money {
  import opened Wrappers

  // ---------------------------------------------------------------------
  // Data model
  // ---------------------------------------------------------------------

  datatype Currency = USD | CHF

  /** An integer amount tagged with its currency. Dafny's structural
      equality is the Swift `==`: both fields must match. */
  datatype Money = Money(amount: int, currency: Currency)

  /** The Expression protocol as a closed tree: Money leaves and Sum nodes. */
  datatype Expr = Leaf(money: Money) | Sum(augend: Expr, addend: Expr)

  /** The ordered rate key; (USD, CHF) and (CHF, USD) are different keys. */
  datatype Pair = Pair(from: Currency, to: Currency)

  /** The rate table. A stored rate r means: divide a `from` amount by r to
      obtain the `to` amount. */
  datatype Bank = Bank(rates: map<Pair, int>)

  /** The two ways a reduction traps in Swift: the force-unwrap of a rate that
      was never registered, and the division by a registered rate of zero. */
  datatype BankError = MissingRate(pair: Pair) | ZeroRate(pair: Pair)

  /** Money.dollar: an amount in US dollars. */
  function Dollar(amount: int): (r: Money)
    ensures r.currency == USD && r.amount == amount
  {
    Money(amount, USD)
  }

  /** Money.franc: an amount in Swiss francs. */
  function Franc(amount: int): (r: Money)
    ensures r.currency == CHF && r.amount == amount
  {
    Money(amount, CHF)
  }

  /** The factories are injective and never agree with each other. */
  lemma FactoriesDistinct(a: int, b: int)
    ensures Dollar(a) != Franc(b)
    ensures Dollar(a) == Dollar(b) <==> a == b
    ensures Franc(a) == Franc(b) <==> a == b
  {
  }

  /** A freshly created bank: no registered rates. */
  function NewBank(): (b: Bank)
    ensures |b.rates| == 0
  {
    Bank(map[])
  }

  // ---------------------------------------------------------------------
  // Truncating integer division (Swift's `/` on Int)
  // ---------------------------------------------------------------------

  function Abs(x: int): nat {
    if x < 0 then -x else x
  }

  /** Division rounding toward zero: the remainder is smaller than the
      divisor in magnitude and never has the opposite sign of the dividend. */
  function TruncDiv(a: int, b: int): (q: int)
    requires b != 0
    ensures Abs(a - q * b) < Abs(b)
    ensures a - q * b == 0 || (a - q * b < 0 <==> a < 0)
  {
    if a >= 0 && b > 0 then
      DivFacts(a, b);
      a / b
    else if a >= 0 then
      DivFacts(a, -b);
      NegateFactor(a / -b, b);
      -(a / -b)
    else if b > 0 then
      DivFacts(-a, b);
      NegateFactor(-a / b, b);
      -(-a / b)
    else
      DivFacts(-a, -b);
      NegateBoth(-a / -b, b);
      -a / -b
  }

  lemma DivFacts(n: nat, d: nat)
    requires d > 0
    ensures 0 <= n - (n / d) * d < d
  {
  }

  lemma NegateFactor(x: int, y: int)
    ensures (-x) * y == -(x * y) == x * (-y)
  {
  }

  lemma NegateBoth(x: int, y: int)
    ensures x * y == (-x) * (-y)
  {
  }

  lemma Distribute(x: int, y: int, k: int)
    ensures (x + y) * k == x * k + y * k
    ensures (x - y) * k == x * k - y * k
  {
  }

  /** A non-zero multiple of `y` is at least `y` in magnitude. */
  lemma MultipleAtLeast(x: int, y: int)
    requires x != 0
    ensures Abs(x * y) >= Abs(y)
    decreases (if x < 0 then 1 else 0) + (if y < 0 then 1 else 0)
  {
    if x < 0 {
      NegateFactor(x, y);
      MultipleAtLeast(-x, y);
    } else if y < 0 {
      NegateFactor(x, -y);
      MultipleAtLeast(x, -y);
    } else {
      Distribute(x - 1, 1, y);
    }
  }

  /** The truncation is unique: any quotient meeting TruncDiv's contract is TruncDiv. */
  lemma TruncDivUnique(a: int, b: int, q: int)
    requires b != 0
    requires Abs(a - q * b) < Abs(b)
    requires a - q * b == 0 || (a - q * b < 0 <==> a < 0)
    ensures q == TruncDiv(a, b)
  {
    var p := TruncDiv(a, b);
    var r1 := a - q * b;
    var r2 := a - p * b;
    Distribute(q, p, b);
    assert r2 - r1 == (q - p) * b;
    if q != p {
      MultipleAtLeast(q - p, b);
      assert false;
    }
  }

  /** Swift truncation differs from Dafny's Euclidean `/` on a negative
      dividend: -3 / 2 is -1 in Swift and -2 in Dafny. */
  lemma TruncDivNegativeDividend()
    ensures TruncDiv(-3, 2) == -1
    ensures -3 / 2 == -2
  {
  }

  /** On a non-negative dividend and a positive divisor both divisions agree. */
  lemma TruncDivNonNegative(a: int, b: int)
    requires a >= 0 && b > 0
    ensures TruncDiv(a, b) == a / b
  {
    TruncDivUnique(a, b, a / b);
  }

  // ---------------------------------------------------------------------
  // Bank
  // ---------------------------------------------------------------------

  /** Bank.rate: 1 for identical currencies without a lookup, otherwise the
      registered rate of the ordered pair, or MissingRate where Swift traps. */
  function Rate(bank: Bank, from: Currency, to: Currency): (r: Result<int, BankError>)
    ensures from == to ==> r == Success(1)
    ensures from != to ==> (r.Success? <==> Pair(from, to) in bank.rates)
    ensures r.Failure? ==> r.error == MissingRate(Pair(from, to))
  {
    if from == to then
      Success(1)
    else if Pair(from, to) in bank.rates then
      Success(bank.rates[Pair(from, to)])
    else
      Failure(MissingRate(Pair(from, to)))
  }

  /** Bank.addRate: insert or overwrite the rate of one ordered pair. */
  function AddRate(bank: Bank, from: Currency, to: Currency, multiplier: int): (b: Bank)
    ensures b.rates.Keys == bank.rates.Keys + {Pair(from, to)}
    ensures b.rates[Pair(from, to)] == multiplier
    ensures forall p :: p in bank.rates && p != Pair(from, to) ==> b.rates[p] == bank.rates[p]
  {
    Bank(bank.rates[Pair(from, to) := multiplier])
  }

  /** The identity rate holds on every bank, including a fresh one. */
  lemma RateIdentity(bank: Bank, c: Currency)
    ensures Rate(bank, c, c) == Success(1)
    ensures Rate(NewBank(), c, c) == Success(1)
  {
  }

  /** A fresh bank knows no rate between distinct currencies. */
  lemma FreshBankMissingRate(from: Currency, to: Currency)
    requires from != to
    ensures Rate(NewBank(), from, to) == Failure(MissingRate(Pair(from, to)))
  {
  }

  /** After addRate the pair reads back the stored multiplier (unless the
      currencies coincide, where the identity shortcut wins) and every other
      pair reads as before. */
  lemma RateAfterAddRate(bank: Bank, from: Currency, to: Currency, m: int, x: Currency, y: Currency)
    ensures Rate(AddRate(bank, from, to, m), x, y) ==
      if x != y && Pair(x, y) == Pair(from, to) then Success(m) else Rate(bank, x, y)
  {
  }

  /** A later addRate on the same pair overwrites the earlier one. */
  lemma AddRateOverwrites(bank: Bank, from: Currency, to: Currency, m1: int, m2: int)
    ensures AddRate(AddRate(bank, from, to, m1), from, to, m2) == AddRate(bank, from, to, m2)
  {
    var b1 := AddRate(AddRate(bank, from, to, m1), from, to, m2);
    var b2 := AddRate(bank, from, to, m2);
    assert b1.rates == b2.rates;
  }

  /** Registering one direction does not derive the reverse direction. */
  lemma NoReverseRate(bank: Bank, from: Currency, to: Currency, m: int)
    requires from != to
    requires Pair(to, from) !in bank.rates
    ensures Rate(AddRate(bank, from, to, m), from, to) == Success(m)
    ensures Rate(AddRate(bank, from, to, m), to, from) == Failure(MissingRate(Pair(to, from)))
  {
  }

  // ---------------------------------------------------------------------
  // Reference semantics: an expression as the flat list of its leaves
  // ---------------------------------------------------------------------

  /** The leaves of an expression, left to right. */
  function Leaves(e: Expr): (ls: seq<Money>)
    ensures |ls| > 0
  {
    match e
    case Leaf(m) => [m]
    case Sum(a, b) => Leaves(a) + Leaves(b)
  }

  /** A leaf in currency `from` can be reduced to `to` without trapping. */
  predicate Convertible(bank: Bank, from: Currency, to: Currency) {
    from == to || (Pair(from, to) in bank.rates && bank.rates[Pair(from, to)] != 0)
  }

  /** Leaf `i` of `ms` exists and cannot be converted to `to`. */
  predicate FailingLeaf(bank: Bank, ms: seq<Money>, i: int, to: Currency) {
    0 <= i < |ms| && !Convertible(bank, ms[i].currency, to)
  }

  /** Why converting `from` to `to` fails: a registered rate can only be
      unusable because it is zero, an unregistered one is missing. */
  function LeafError(bank: Bank, from: Currency, to: Currency): BankError {
    if Pair(from, to) in bank.rates then ZeroRate(Pair(from, to)) else MissingRate(Pair(from, to))
  }

  /** The error is that of some leaf that cannot be converted. */
  predicate BlamesLeaf(bank: Bank, ms: seq<Money>, to: Currency, err: BankError) {
    exists i :: 0 <= i < |ms| && FailingLeaf(bank, ms, i, to) && err == LeafError(bank, ms[i].currency, to)
  }

  predicate AllConvertible(bank: Bank, ms: seq<Money>, to: Currency) {
    forall i :: 0 <= i < |ms| ==> Convertible(bank, ms[i].currency, to)
  }

  /** The value of one leaf in the target currency. */
  function Converted(bank: Bank, m: Money, to: Currency): int
    requires Convertible(bank, m.currency, to)
  {
    if m.currency == to then m.amount else TruncDiv(m.amount, bank.rates[Pair(m.currency, to)])
  }

  /** The sum of the converted leaves: each leaf is converted on its own,
      then the integers are added. */
  function ConvertedTotal(bank: Bank, ms: seq<Money>, to: Currency): int
    requires AllConvertible(bank, ms, to)
  {
    if |ms| == 0 then 0 else ConvertedTotal(bank, ms[..|ms| - 1], to) + Converted(bank, ms[|ms| - 1], to)
  }

  lemma {:induction false} ConvertedTotalAppend(bank: Bank, s: seq<Money>, t: seq<Money>, to: Currency)
    requires AllConvertible(bank, s, to) && AllConvertible(bank, t, to)
    ensures AllConvertible(bank, s + t, to)
    ensures ConvertedTotal(bank, s + t, to) == ConvertedTotal(bank, s, to) + ConvertedTotal(bank, t, to)
    decreases |t|
  {
    if |t| == 0 {
      assert s + t == s;
    } else {
      var t' := t[..|t| - 1];
      assert (s + t)[..|s + t| - 1] == s + t';
      assert (s + t)[|s + t| - 1] == t[|t| - 1];
      ConvertedTotalAppend(bank, s, t', to);
    }
  }

  // ---------------------------------------------------------------------
  // Expression operations
  // ---------------------------------------------------------------------

  /** The protocol's default `plus`: a new Sum of the receiver and the addend. */
  function Plus(e: Expr, addend: Expr): (r: Expr)
    ensures Leaves(r) == Leaves(e) + Leaves(addend)
  {
    Sum(e, addend)
  }

  /** Money.times: scale the amount, keep the currency. */
  function MoneyTimes(m: Money, multiplier: int): (r: Money)
    ensures r.currency == m.currency
    ensures r.amount == m.amount * multiplier
  {
    Money(m.amount * multiplier, m.currency)
  }

  /** Scaling one Money value by 1 changes nothing, and scaling twice is
      scaling once by the product. */
  lemma MoneyTimesCompose(m: Money, j: int, k: int)
    ensures MoneyTimes(m, 1) == m
    ensures MoneyTimes(MoneyTimes(m, j), k) == MoneyTimes(m, j * k)
  {
    assert (m.amount * j) * k == m.amount * (j * k);
  }

  predicate SameShape(x: Expr, y: Expr) {
    match (x, y)
    case (Leaf(_), Leaf(_)) => true
    case (Sum(a, b), Sum(c, d)) => SameShape(a, c) && SameShape(b, d)
    case _ => false
  }

  /** Expression.times: structural, every leaf is scaled and the tree shape kept. */
  function Times(e: Expr, multiplier: int): (r: Expr)
    ensures SameShape(r, e)
    ensures |Leaves(r)| == |Leaves(e)|
    ensures forall i :: 0 <= i < |Leaves(e)| ==> Leaves(r)[i] == MoneyTimes(Leaves(e)[i], multiplier)
  {
    match e
    case Leaf(m) => Leaf(MoneyTimes(m, multiplier))
    case Sum(a, b) =>
      var r := Sum(Times(a, multiplier), Times(b, multiplier));
      assert forall i :: 0 <= i < |Leaves(e)| ==> Leaves(r)[i] == MoneyTimes(Leaves(e)[i], multiplier) by {
        forall i | 0 <= i < |Leaves(e)|
          ensures Leaves(r)[i] == MoneyTimes(Leaves(e)[i], multiplier)
        {
          if i >= |Leaves(a)| {
            assert Leaves(r)[i] == Leaves(Times(b, multiplier))[i - |Leaves(a)|];
          }
        }
      }
      r
  }

  /** Money.reduce: divide by the bank's rate (truncating) and retag. */
  function ReduceMoney(bank: Bank, m: Money, to: Currency): (r: Result<Money, BankError>)
    ensures r.Success? <==> Convertible(bank, m.currency, to)
    ensures r.Success? ==> r.value == Money(Converted(bank, m, to), to)
    ensures m.currency == to ==> r == Success(m)
    ensures r.Failure? ==> r.error == LeafError(bank, m.currency, to)
  {
    var rate :- Rate(bank, m.currency, to);
    if rate == 0 then
      Failure(ZeroRate(Pair(m.currency, to)))
    else
      var amount := TruncDiv(m.amount, rate);
      assert m.currency == to ==> amount == m.amount by {
        if m.currency == to {
          TruncDivUnique(m.amount, 1, m.amount);
        }
      }
      Success(Money(amount, to))
  }

  /** An unregistered pair of distinct currencies fails with MissingRate,
      a registered rate of zero with ZeroRate. */
  lemma ReduceMoneyErrors(bank: Bank, m: Money, to: Currency)
    requires m.currency != to
    ensures Pair(m.currency, to) !in bank.rates ==>
      ReduceMoney(bank, m, to) == Failure(MissingRate(Pair(m.currency, to)))
    ensures Pair(m.currency, to) in bank.rates && bank.rates[Pair(m.currency, to)] == 0 ==>
      ReduceMoney(bank, m, to) == Failure(ZeroRate(Pair(m.currency, to)))
  {
  }

  /** Bank.reduce / Expression.reduce. A Sum reduces its addend, then its
      augend, and adds the two amounts; the first failure propagates. */
  function Reduce(bank: Bank, e: Expr, to: Currency): (r: Result<Money, BankError>)
    ensures r.Success? ==> r.value.currency == to
    ensures r.Success? <==> AllConvertible(bank, Leaves(e), to)
    ensures r.Success? ==> r.value.amount == ConvertedTotal(bank, Leaves(e), to)
    ensures r.Failure? ==> BlamesLeaf(bank, Leaves(e), to, r.error)
  {
    match e
    case Leaf(m) =>
      assert Leaves(e)[0] == m;
      ReduceMoney(bank, m, to)
    case Sum(a, b) =>
      var la, lb := Leaves(a), Leaves(b);
      assert Leaves(e) == la + lb;
      assert forall i :: 0 <= i < |la| ==> (la + lb)[i] == la[i];
      assert forall i :: 0 <= i < |lb| ==> (la + lb)[|la| + i] == lb[i];
      var right :- Reduce(bank, b, to);
      var left :- Reduce(bank, a, to);
      ConvertedTotalAppend(bank, la, lb, to);
      Success(Money(right.amount + left.amount, to))
  }

  // ---------------------------------------------------------------------
  // Properties of reduction and scaling
  // ---------------------------------------------------------------------

  /** Reducing a Sum built by plus adds the children's reduced amounts, and
      succeeds exactly when both children do. */
  lemma ReducePlus(bank: Bank, a: Expr, b: Expr, to: Currency)
    ensures Reduce(bank, Plus(a, b), to).Success? <==>
      Reduce(bank, a, to).Success? && Reduce(bank, b, to).Success?
    ensures Reduce(bank, Plus(a, b), to).Success? ==>
      Reduce(bank, Plus(a, b), to).value ==
        Money(Reduce(bank, a, to).value.amount + Reduce(bank, b, to).value.amount, to)
  {
  }

  /** Reduction does not depend on how a sum is bracketed. */
  lemma ReduceAssociative(bank: Bank, a: Expr, b: Expr, c: Expr, to: Currency)
    ensures Reduce(bank, Plus(Plus(a, b), c), to).Success? <==> Reduce(bank, Plus(a, Plus(b, c)), to).Success?
    ensures Reduce(bank, Plus(Plus(a, b), c), to).Success? ==>
      Reduce(bank, Plus(Plus(a, b), c), to) == Reduce(bank, Plus(a, Plus(b, c)), to)
  {
    assert Leaves(Plus(Plus(a, b), c)) == Leaves(Plus(a, Plus(b, c)));
  }

  /** Reduction does not depend on the order of the operands of a sum. */
  lemma ReduceCommutative(bank: Bank, a: Expr, b: Expr, to: Currency)
    ensures Reduce(bank, Plus(a, b), to).Success? <==> Reduce(bank, Plus(b, a), to).Success?
    ensures Reduce(bank, Plus(a, b), to).Success? ==>
      Reduce(bank, Plus(a, b), to) == Reduce(bank, Plus(b, a), to)
  {
  }

  /** times distributes over plus. */
  lemma TimesDistributesOverPlus(a: Expr, b: Expr, k: int)
    ensures Times(Plus(a, b), k) == Plus(Times(a, k), Times(b, k))
  {
  }

  /** Scaling by one gives back the same expression. */
  lemma {:induction false} TimesOne(e: Expr)
    ensures Times(e, 1) == e
  {
    match e
    case Leaf(m) =>
    case Sum(a, b) =>
      TimesOne(a);
      TimesOne(b);
  }

  /** Scaling twice is scaling by the product. */
  lemma {:induction false} TimesTimes(e: Expr, j: int, k: int)
    ensures Times(Times(e, j), k) == Times(e, j * k)
  {
    match e
    case Leaf(m) =>
      assert m.amount * j * k == m.amount * (j * k);
    case Sum(a, b) =>
      TimesTimes(a, j, k);
      TimesTimes(b, j, k);
  }

  /** Scaling never changes whether a reduction succeeds: it keeps every
      leaf's currency. */
  lemma TimesKeepsConvertibility(bank: Bank, e: Expr, k: int, to: Currency)
    ensures Reduce(bank, Times(e, k), to).Success? <==> Reduce(bank, e, to).Success?
  {
    var le, lt := Leaves(e), Leaves(Times(e, k));
    assert forall i :: 0 <= i < |le| ==> lt[i].currency == le[i].currency;
  }

  /** Every leaf of `e` is already in currency `c`. */
  predicate AllIn(e: Expr, c: Currency) {
    match e
    case Leaf(m) => m.currency == c
    case Sum(a, b) => AllIn(a, c) && AllIn(b, c)
  }

  /** Without conversion, scaling an expression scales its reduced amount. */
  lemma {:induction false} ReduceTimesSameCurrency(bank: Bank, e: Expr, k: int, c: Currency)
    requires AllIn(e, c)
    ensures Reduce(bank, e, c).Success?
    ensures Reduce(bank, Times(e, k), c) == Success(MoneyTimes(Reduce(bank, e, c).value, k))
  {
    match e
    case Leaf(m) =>
      ReduceLeafSameCurrency(bank, m, c);
      ReduceLeafSameCurrency(bank, MoneyTimes(m, k), c);
    case Sum(a, b) =>
      ReduceTimesSameCurrency(bank, a, k, c);
      ReduceTimesSameCurrency(bank, b, k, c);
      ReduceTimesOfSum(bank, a, b, k, Reduce(bank, a, c).value, Reduce(bank, b, c).value);
  }

  lemma ReduceTimesOfSum(bank: Bank, a: Expr, b: Expr, k: int, x: Money, y: Money)
    requires x.currency == y.currency
    requires Reduce(bank, a, x.currency) == Success(x)
    requires Reduce(bank, b, x.currency) == Success(y)
    requires Reduce(bank, Times(a, k), x.currency) == Success(MoneyTimes(x, k))
    requires Reduce(bank, Times(b, k), x.currency) == Success(MoneyTimes(y, k))
    ensures Reduce(bank, Sum(a, b), x.currency) == Success(Money(y.amount + x.amount, x.currency))
    ensures Reduce(bank, Times(Sum(a, b), k), x.currency) ==
      Success(MoneyTimes(Money(y.amount + x.amount, x.currency), k))
  {
    ReduceOfSum(bank, a, b, x, y);
    ReduceOfSum(bank, Times(a, k), Times(b, k), MoneyTimes(x, k), MoneyTimes(y, k));
    MoneyTimesSum(x, y, k);
  }

  /** Scaling a sum of two amounts in one currency scales each amount. */
  lemma MoneyTimesSum(x: Money, y: Money, k: int)
    requires x.currency == y.currency
    ensures MoneyTimes(Money(y.amount + x.amount, x.currency), k) ==
      Money(MoneyTimes(y, k).amount + MoneyTimes(x, k).amount, x.currency)
  {
    Distribute(y.amount, x.amount, k);
  }

  lemma ReduceLeafSameCurrency(bank: Bank, m: Money, c: Currency)
    requires m.currency == c
    ensures Reduce(bank, Leaf(m), c) == Success(m)
  {
  }

  lemma ReduceOfSum(bank: Bank, a: Expr, b: Expr, x: Money, y: Money)
    requires x.currency == y.currency
    requires Reduce(bank, a, x.currency) == Success(x)
    requires Reduce(bank, b, x.currency) == Success(y)
    ensures Reduce(bank, Sum(a, b), x.currency) == Success(Money(y.amount + x.amount, x.currency))
  {
  }

  /** Plus yields a Sum of exactly its two operands, untouched. */
  lemma PlusKeepsOperands(a: Expr, b: Expr)
    ensures Plus(a, b).Sum? && Plus(a, b).augend == a && Plus(a, b).addend == b
  {
  }

  /** Money equality holds iff amount and currency both match. */
  lemma MoneyEquality(x: Money, y: Money)
    ensures x == y <==> x.amount == y.amount && x.currency == y.currency
  {
  }

  // ---------------------------------------------------------------------
  // The scenarios of the Swift test class CurrencyTest, as lemma instances
  // ---------------------------------------------------------------------

  function ChfToUsdBank(): Bank {
    AddRate(NewBank(), CHF, USD, 2)
  }

  lemma ScenarioMoneyTimes()
    ensures Reduce(NewBank(), Times(Leaf(Dollar(5)), 2), USD) == Success(Dollar(10))
    ensures Reduce(NewBank(), Times(Leaf(Dollar(5)), 3), USD) == Success(Dollar(15))
  {
  }

  lemma ScenarioEqualityAndCurrency()
    ensures Dollar(5) == Dollar(5)
    ensures Dollar(5) != Dollar(6)
    ensures Dollar(5) != Franc(5)
    ensures Dollar(1).currency == USD && Franc(1).currency == CHF
  {
  }

  lemma ScenarioReduce()
    ensures Reduce(NewBank(), Sum(Leaf(Dollar(4)), Leaf(Dollar(3))), USD) == Success(Dollar(7))
    ensures Reduce(NewBank(), Leaf(Dollar(1)), USD) == Success(Dollar(1))
    ensures Reduce(ChfToUsdBank(), Leaf(Franc(2)), USD) == Success(Dollar(1))
    ensures Rate(NewBank(), USD, USD) == Success(1)
    ensures Reduce(NewBank(), Leaf(Franc(2)), USD) == Failure(MissingRate(Pair(CHF, USD)))
  {
    assert TruncDiv(2, 2) == 1;
  }

  lemma ScenarioMixedAddition()
    ensures Reduce(ChfToUsdBank(), Plus(Leaf(Dollar(5)), Leaf(Franc(10))), USD) == Success(Dollar(10))
    ensures Reduce(ChfToUsdBank(), Plus(Sum(Leaf(Dollar(5)), Leaf(Franc(10))), Leaf(Dollar(5))), USD)
      == Success(Dollar(15))
    ensures Reduce(ChfToUsdBank(), Times(Sum(Leaf(Dollar(5)), Leaf(Franc(10))), 2), USD) == Success(Dollar(20))
  {
    assert TruncDiv(10, 2) == 5;
    assert TruncDiv(20, 2) == 10;
  }
}

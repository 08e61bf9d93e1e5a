/** The string calculator: split a string on a set of delimiter characters,
    parse every piece as a strictly positive integer and add them up. A
    leading "//c\n" header adds the character c to the delimiters, which the
    calculator keeps for every later call. */
module StringCalculator {
  import opened Wrappers

  // ---------------------------------------------------------------------
  // Data model
  // ---------------------------------------------------------------------

  /** The two errors `add` throws. */
  datatype CalcError = NegativeInput | InvalidInput

  /** The calculator's only state: its delimiter set. */
  datatype Calculator = Calculator(delimiters: set<char>)

  /** What one `add` call leaves behind: the (possibly grown) calculator and
      the sum or the thrown error. The delimiter set grows even when the
      call throws, because the header is handled before any parsing. */
  datatype AddOutcome = AddOutcome(calculator: Calculator, result: Result<int, CalcError>)

  const DefaultDelimiters: set<char> := {',', '\n'}

  /** A freshly created calculator. */
  function NewCalculator(): (c: Calculator)
    ensures c.delimiters == {',', '\n'}
  {
    Calculator(DefaultDelimiters)
  }

  /** Bounds of Swift's 64-bit `Int`, outside which `Int(String)` yields nil. */
  const IntMin: int := -0x8000_0000_0000_0000
  const IntMax: int := 0x7FFF_FFFF_FFFF_FFFF

  // ---------------------------------------------------------------------
  // Splitting
  // ---------------------------------------------------------------------

  /** No character of `t` is a delimiter. */
  predicate Undelimited(t: string, d: set<char>) {
    forall i :: 0 <= i < |t| ==> t[i] !in d
  }

  /** A piece produced by splitting: non-empty and delimiter-free. */
  predicate IsToken(t: string, d: set<char>) {
    |t| > 0 && Undelimited(t, d)
  }

  /** The characters of `s` that are not delimiters, in order. */
  function Filter(s: string, d: set<char>): string {
    if |s| == 0 then []
    else if s[0] in d then Filter(s[1..], d)
    else [s[0]] + Filter(s[1..], d)
  }

  /** The concatenation of a list of strings. */
  function Flatten(ts: seq<string>): string {
    if |ts| == 0 then [] else ts[0] + Flatten(ts[1..])
  }

  /** The strings of `ts` with the separator `seps[i]` between `ts[i]` and `ts[i + 1]`. */
  function Join(ts: seq<string>, seps: string): string
    requires |ts| <= |seps| + 1
  {
    if |ts| == 0 then []
    else if |ts| == 1 then ts[0]
    else ts[0] + [seps[0]] + Join(ts[1..], seps[1..])
  }

  /** Every separator is one of the delimiters. */
  predicate Separators(seps: string, d: set<char>) {
    forall i :: 0 <= i < |seps| ==> seps[i] in d
  }

  lemma FlattenCons(t: string, ts: seq<string>)
    ensures Flatten([t] + ts) == t + Flatten(ts)
  {
    assert ([t] + ts)[1..] == ts;
  }

  predicate AllTokens(ts: seq<string>, d: set<char>) {
    forall i :: 0 <= i < |ts| ==> IsToken(ts[i], d)
  }

  lemma ConsTokens(t: string, ts: seq<string>, d: set<char>)
    requires IsToken(t, d) && AllTokens(ts, d)
    ensures AllTokens([t] + ts, d)
  {
    assert forall i :: 1 <= i <= |ts| ==> ([t] + ts)[i] == ts[i - 1];
  }

  /** Splitting `s` while `cur` holds the piece read so far. */
  function SplitFrom(s: string, d: set<char>, cur: string): (r: seq<string>)
    requires Undelimited(cur, d)
    ensures AllTokens(r, d)
    ensures Flatten(r) == cur + Filter(s, d)
    decreases |s|
  {
    if |s| == 0 then
      if |cur| == 0 then [] else
        FlattenCons(cur, []);
        ConsTokens(cur, [], d);
        [cur]
    else if s[0] in d then
      var rest := SplitFrom(s[1..], d, []);
      if |cur| == 0 then rest else
        FlattenCons(cur, rest);
        ConsTokens(cur, rest, d);
        [cur] + rest
    else
      var next := cur + [s[0]];
      assert Undelimited(next, d) by {
        assert forall i :: 0 <= i < |cur| ==> next[i] == cur[i];
      }
      var r := SplitFrom(s[1..], d, next);
      assert next + Filter(s[1..], d) == cur + Filter(s, d);
      r
  }

  /** Swift's `split` with its defaults: cut at every delimiter and drop
      the empty pieces, so "1,,2" gives two pieces and "," none. */
  function Split(s: string, d: set<char>): (r: seq<string>)
    ensures AllTokens(r, d)
    ensures Flatten(r) == Filter(s, d)
  {
    SplitFrom(s, d, [])
  }

  lemma {:induction false} SplitFromUndelimited(t: string, rest: string, d: set<char>, cur: string)
    requires Undelimited(t, d) && Undelimited(cur, d)
    ensures Undelimited(cur + t, d)
    ensures SplitFrom(t + rest, d, cur) == SplitFrom(rest, d, cur + t)
    decreases |t|
  {
    if |t| == 0 {
      assert t + rest == rest;
      assert cur + t == cur;
    } else {
      assert (t + rest)[0] == t[0];
      assert (t + rest)[1..] == t[1..] + rest;
      assert cur + t == (cur + [t[0]]) + t[1..];
      SplitFromUndelimited(t[1..], rest, d, cur + [t[0]]);
    }
  }

  lemma {:induction false} SplitFromJoin(ts: seq<string>, seps: string, d: set<char>, cur: string)
    requires 0 < |ts| <= |seps| + 1 && Separators(seps, d) && Undelimited(cur, d)
    requires AllTokens(ts, d)
    ensures SplitFrom(Join(ts, seps), d, cur) == [cur + ts[0]] + ts[1..]
    decreases |ts|
  {
    if |ts| == 1 {
      assert Join(ts, seps) == ts[0] + [];
      SplitFromUndelimited(ts[0], [], d, cur);
    } else {
      var tail := Join(ts[1..], seps[1..]);
      assert Join(ts, seps) == ts[0] + ([seps[0]] + tail);
      SplitFromUndelimited(ts[0], [seps[0]] + tail, d, cur);
      assert ([seps[0]] + tail)[1..] == tail;
      SplitFromJoin(ts[1..], seps[1..], d, []);
      assert [] + ts[1..][0] == ts[1];
      assert [ts[1]] + ts[1..][1..] == ts[1..];
    }
  }

  /** Splitting undoes joining: tokens joined by delimiters split back into
      the same tokens. */
  lemma SplitJoin(ts: seq<string>, seps: string, d: set<char>)
    requires |ts| <= |seps| + 1 && Separators(seps, d)
    requires AllTokens(ts, d)
    ensures Split(Join(ts, seps), d) == ts
  {
    if |ts| > 0 {
      SplitFromJoin(ts, seps, d, []);
      assert [] + ts[0] == ts[0];
      assert [ts[0]] + ts[1..] == ts;
    }
  }

  /** Every string of `runs` is a non-empty run of delimiters. */
  predicate DelimiterRuns(runs: seq<string>, d: set<char>) {
    forall i :: 0 <= i < |runs| ==> |runs[i]| > 0 && Separators(runs[i], d)
  }

  /** The strings of `ts` with the delimiter run `runs[i]` between `ts[i]`
      and `ts[i + 1]`; `Join` is the case of one-character runs. */
  function JoinRuns(ts: seq<string>, runs: seq<string>): string
    requires |ts| <= |runs| + 1
  {
    if |ts| == 0 then []
    else if |ts| == 1 then ts[0]
    else ts[0] + runs[0] + JoinRuns(ts[1..], runs[1..])
  }

  /** Leading delimiters yield no piece. */
  lemma {:induction false} SplitFromDelimiters(pre: string, rest: string, d: set<char>)
    requires Separators(pre, d)
    ensures SplitFrom(pre + rest, d, []) == SplitFrom(rest, d, [])
    decreases |pre|
  {
    if |pre| == 0 {
      assert pre + rest == rest;
    } else {
      assert (pre + rest)[0] == pre[0];
      assert (pre + rest)[1..] == pre[1..] + rest;
      SplitFromDelimiters(pre[1..], rest, d);
    }
  }

  /** A delimiter run closes the pending piece, however long the run. */
  lemma SplitFromRun(cur: string, run: string, rest: string, d: set<char>)
    requires |cur| > 0 && Undelimited(cur, d)
    requires |run| > 0 && Separators(run, d)
    ensures SplitFrom(run + rest, d, cur) == [cur] + SplitFrom(rest, d, [])
  {
    assert (run + rest)[0] == run[0];
    assert (run + rest)[1..] == run[1..] + rest;
    SplitFromDelimiters(run[1..], rest, d);
  }

  /** Trailing delimiters only close the pending piece. */
  lemma SplitFromTrailing(cur: string, post: string, d: set<char>)
    requires |cur| > 0 && Undelimited(cur, d) && Separators(post, d)
    ensures SplitFrom(post, d, cur) == [cur]
  {
    if |post| > 0 {
      SplitFromRun(cur, post, [], d);
      assert post + [] == post;
    }
  }

  lemma {:induction false} SplitFromJoinRuns(ts: seq<string>, runs: seq<string>, post: string, d: set<char>, cur: string)
    requires 0 < |ts| <= |runs| + 1 && DelimiterRuns(runs, d) && Separators(post, d)
    requires AllTokens(ts, d) && Undelimited(cur, d)
    ensures SplitFrom(JoinRuns(ts, runs) + post, d, cur) == [cur + ts[0]] + ts[1..]
    decreases |ts|
  {
    if |ts| == 1 {
      assert JoinRuns(ts, runs) + post == ts[0] + post;
      SplitFromUndelimited(ts[0], post, d, cur);
      SplitFromTrailing(cur + ts[0], post, d);
    } else {
      var tail := JoinRuns(ts[1..], runs[1..]) + post;
      assert JoinRuns(ts, runs) + post == ts[0] + (runs[0] + tail);
      SplitFromUndelimited(ts[0], runs[0] + tail, d, cur);
      SplitFromRun(cur + ts[0], runs[0], tail, d);
      SplitFromJoinRuns(ts[1..], runs[1..], post, d, []);
      assert [] + ts[1..][0] == ts[1];
      assert [ts[1]] + ts[1..][1..] == ts[1..];
    }
  }

  /** Splitting drops every empty piece: tokens separated by delimiter runs
      of any length, with any delimiters before the first token and after
      the last, split back into exactly those tokens. */
  lemma SplitJoinRuns(pre: string, ts: seq<string>, runs: seq<string>, post: string, d: set<char>)
    requires |ts| <= |runs| + 1 && DelimiterRuns(runs, d)
    requires Separators(pre, d) && Separators(post, d)
    requires AllTokens(ts, d)
    ensures Split(pre + (JoinRuns(ts, runs) + post), d) == ts
  {
    SplitFromDelimiters(pre, JoinRuns(ts, runs) + post, d);
    SplitBodyRuns(ts, runs, post, d);
  }

  lemma SplitBodyRuns(ts: seq<string>, runs: seq<string>, post: string, d: set<char>)
    requires |ts| <= |runs| + 1 && DelimiterRuns(runs, d) && Separators(post, d)
    requires AllTokens(ts, d)
    ensures SplitFrom(JoinRuns(ts, runs) + post, d, []) == ts
  {
    if |ts| == 0 {
      assert JoinRuns(ts, runs) + post == post + [];
      SplitFromDelimiters(post, [], d);
    } else {
      SplitFromJoinRuns(ts, runs, post, d, []);
      assert [] + ts[0] == ts[0];
      assert [ts[0]] + ts[1..] == ts;
    }
  }

  // ---------------------------------------------------------------------
  // Int(String)
  // ---------------------------------------------------------------------

  predicate IsDigit(c: char) {
    '0' <= c <= '9'
  }

  predicate AllDigits(s: string) {
    forall i :: 0 <= i < |s| ==> IsDigit(s[i])
  }

  function DigitValue(c: char): nat
    requires IsDigit(c)
  {
    (c as int) - ('0' as int)
  }

  function DigitChar(n: nat): (c: char)
    requires n < 10
    ensures IsDigit(c) && DigitValue(c) == n
  {
    ('0' as int + n) as char
  }

  /** The value of a string of decimal digits, most significant first. */
  function DigitsValue(s: string): nat
    requires AllDigits(s)
  {
    if |s| == 0 then 0 else DigitsValue(s[..|s| - 1]) * 10 + DigitValue(s[|s| - 1])
  }

  /** Swift's `Int(String)`: an optional '+' or '-' followed by one or more
      ASCII digits, nil for anything else or for a value that does not fit
      in a 64-bit Int. */
  function ParseInt(t: string): (r: Option<int>)
    ensures r.Some? ==> IntMin <= r.value <= IntMax
    ensures r.Some? ==> |t| > 0 && AllDigits(t[1..]) && (IsDigit(t[0]) || (|t| > 1 && (t[0] == '+' || t[0] == '-')))
    ensures r.Some? && r.value < 0 ==> t[0] == '-'
  {
    var signed := |t| > 0 && (t[0] == '+' || t[0] == '-');
    var digits := if signed then t[1..] else t;
    if |digits| == 0 || !AllDigits(digits) then
      None
    else
      var magnitude: int := DigitsValue(digits);
      var v := if signed && t[0] == '-' then -magnitude else magnitude;
      if IntMin <= v <= IntMax then Some(v) else None
  }

  /** The decimal digits of a natural number, without leading zeros. */
  function Decimal(n: nat): (s: string)
    ensures |s| > 0 && AllDigits(s)
  {
    if n < 10 then [DigitChar(n)] else Decimal(n / 10) + [DigitChar(n % 10)]
  }

  lemma {:induction false} DecimalValue(n: nat)
    ensures DigitsValue(Decimal(n)) == n
  {
    if n >= 10 {
      var s := Decimal(n);
      assert s[..|s| - 1] == Decimal(n / 10);
      DecimalValue(n / 10);
    }
  }

  /** Parsing undoes printing, for every value a 64-bit Int holds. */
  lemma ParseDecimal(n: nat)
    ensures n <= IntMax ==> ParseInt(Decimal(n)) == Some(n)
    ensures n <= -IntMin ==> ParseInt(['-'] + Decimal(n)) == Some(-(n as int))
    ensures n <= IntMax ==> ParseInt(['+'] + Decimal(n)) == Some(n)
  {
    DecimalValue(n);
    ParseSigned('-', Decimal(n));
    ParseSigned('+', Decimal(n));
  }

  /** Unsigned digits, leading zeros included, parse to their value when
      it fits in 64 bits. */
  lemma ParseUnsigned(s: string)
    requires |s| > 0 && AllDigits(s)
    ensures ParseInt(s) == if DigitsValue(s) <= IntMax then Some(DigitsValue(s)) else None
  {
    assert IsDigit(s[0]);
  }

  /** "07" is 7: a leading zero is accepted. */
  lemma ParseLeadingZero()
    ensures ParseInt("07") == Some(7)
  {
    ParseUnsigned("07");
    assert "07"[..1] == "0" && "0"[..0] == [];
    assert DigitsValue("07") == 7;
  }

  /** A sign followed by digits parses to the signed value of the digits
      when that fits in 64 bits. */
  lemma ParseSigned(c: char, s: string)
    requires c == '+' || c == '-'
    requires |s| > 0 && AllDigits(s)
    ensures var m: int := DigitsValue(s);
      var v := if c == '-' then -m else m;
      ParseInt([c] + s) == if IntMin <= v <= IntMax then Some(v) else None
  {
    assert ([c] + s)[1..] == s;
  }

  /** A 64-bit overflow is not a number to Swift. */
  lemma ParseOverflow(n: nat)
    requires n > IntMax
    ensures ParseInt(Decimal(n)) == None
  {
    DecimalValue(n);
  }

  // ---------------------------------------------------------------------
  // The calculator
  // ---------------------------------------------------------------------

  /** mapNumber: a token must parse as an Int and be strictly positive. */
  function MapNumber(t: string): (r: Result<int, CalcError>)
    ensures r.Success? ==> r.value > 0 && ParseInt(t) == Some(r.value)
    ensures r == Failure(InvalidInput) <==> ParseInt(t).None?
    ensures r == Failure(NegativeInput) <==> ParseInt(t).Some? && ParseInt(t).value <= 0
  {
    match ParseInt(t)
    case None => Failure(InvalidInput)
    case Some(v) => if v > 0 then Success(v) else Failure(NegativeInput)
  }

  function Total(ns: seq<int>): int {
    if |ns| == 0 then 0 else ns[0] + Total(ns[1..])
  }

  /** The error of token `i` is the first error among `ts`. */
  predicate FirstError(ts: seq<string>, i: int, e: CalcError) {
    && 0 <= i < |ts|
    && MapNumber(ts[i]) == Failure(e)
    && forall j :: 0 <= j < i ==> MapNumber(ts[j]).Success?
  }

  /** `.map(mapNumber)` over tokens that all map successfully. */
  function Values(ts: seq<string>): (vs: seq<int>)
    requires forall i :: 0 <= i < |ts| ==> MapNumber(ts[i]).Success?
    ensures |vs| == |ts|
    ensures forall i :: 0 <= i < |ts| ==> vs[i] == MapNumber(ts[i]).value
  {
    seq(|ts|, i requires 0 <= i < |ts| => MapNumber(ts[i]).value)
  }

  lemma ValuesCons(ts: seq<string>)
    requires |ts| > 0 && forall i :: 0 <= i < |ts| ==> MapNumber(ts[i]).Success?
    ensures forall i :: 0 <= i < |ts[1..]| ==> MapNumber(ts[1..][i]).Success?
    ensures Total(Values(ts)) == MapNumber(ts[0]).value + Total(Values(ts[1..]))
  {
    assert Values(ts)[1..] == Values(ts[1..]);
  }

  /** `.map(mapNumber).reduce(0, +)`: tokens are checked left to right,
      the first bad one decides the error, otherwise their values are added. */
  function SumTokens(ts: seq<string>): (r: Result<int, CalcError>)
    ensures r.Success? <==> forall i :: 0 <= i < |ts| ==> MapNumber(ts[i]).Success?
    ensures r.Success? ==> r.value == Total(Values(ts))
    ensures r.Success? ==> r.value >= |ts|
    ensures r.Failure? ==> exists i :: FirstError(ts, i, r.error)
  {
    if |ts| == 0 then
      Success(0)
    else if MapNumber(ts[0]).Failure? then
      assert FirstError(ts, 0, MapNumber(ts[0]).error);
      Failure(MapNumber(ts[0]).error)
    else
      var head := MapNumber(ts[0]).value;
      var rest := SumTokens(ts[1..]);
      assert forall i :: 1 <= i < |ts| ==> ts[i] == ts[1..][i - 1];
      if rest.Failure? then
        var i :| FirstError(ts[1..], i, rest.error);
        assert FirstError(ts, i + 1, rest.error);
        Failure(rest.error)
      else
        ValuesCons(ts);
        Success(head + rest.value)
  }

  /** Summing a concatenation: it succeeds iff both parts do, and then
      adds their sums. */
  lemma {:induction false} SumTokensAppend(a: seq<string>, b: seq<string>)
    ensures SumTokens(a + b).Success? <==> SumTokens(a).Success? && SumTokens(b).Success?
    ensures SumTokens(a + b).Success? ==> SumTokens(a + b).value == SumTokens(a).value + SumTokens(b).value
    decreases |a|
  {
    if |a| == 0 {
      assert a + b == b;
    } else {
      assert (a + b)[0] == a[0];
      assert (a + b)[1..] == a[1..] + b;
      SumTokensAppend(a[1..], b);
    }
  }

  /** parseNumbers: split on the delimiters and add the tokens. */
  function ParseNumbers(s: string, d: set<char>): (r: Result<int, CalcError>)
    ensures r.Success? ==> r.value >= |Split(s, d)| >= 0
  {
    SumTokens(Split(s, d))
  }

  /** hasPrefix("//"): the input opens with the custom-delimiter header. */
  predicate HasHeader(s: string)
    ensures HasHeader(s) <==> |s| >= 2 && s[..2] == "//"
  {
    |s| >= 2 && s[0] == '/' && s[1] == '/'
  }

  /** The index of the first '\n' of `s`. */
  function FirstNewline(s: string): (k: nat)
    requires '\n' in s
    ensures k < |s| && s[k] == '\n'
    ensures forall j :: 0 <= j < k ==> s[j] != '\n'
  {
    if s[0] == '\n' then 0 else FirstNewline(s[1..]) + 1
  }

  /** The body summed after a header: everything after the first '\n'. */
  function Body(s: string): (b: string)
    requires '\n' in s
    ensures |b| < |s| && s[|s| - |b| - 1] == '\n'
    ensures b == s[|s| - |b|..]
    ensures '\n' !in s[..|s| - |b| - 1]
  {
    s[FirstNewline(s) + 1..]
  }

  /** An input `add` accepts without trapping: a header needs its '\n'. */
  predicate Admissible(s: string) {
    HasHeader(s) ==> '\n' in s
  }

  /** `add`: an empty input is 0; a "//c" header adds c (the character at
      index 2) to the delimiters and only the text after the first '\n' is
      summed; otherwise the whole input is summed. A header without a '\n'
      traps in Swift and is excluded. */
  function Add(calculator: Calculator, s: string): (out: AddOutcome)
    requires Admissible(s)
    ensures |s| == 0 ==> out == AddOutcome(calculator, Success(0))
    ensures out.calculator.delimiters == if |s| > 0 && HasHeader(s) then calculator.delimiters + {s[2]} else calculator.delimiters
    ensures out.result.Success? ==> out.result.value >= 0
    ensures |s| > 0 && !HasHeader(s) ==> out.result == SumTokens(Split(s, calculator.delimiters))
    ensures |s| > 0 && HasHeader(s) ==> out.result == SumTokens(Split(Body(s), out.calculator.delimiters))
  {
    if |s| == 0 then
      AddOutcome(calculator, Success(0))
    else if HasHeader(s) then
      assert FirstNewline(s) >= 2;
      var grown := Calculator(calculator.delimiters + {s[2]});
      AddOutcome(grown, ParseNumbers(Body(s), grown.delimiters))
    else
      AddOutcome(calculator, ParseNumbers(s, calculator.delimiters))
  }

  // ---------------------------------------------------------------------
  // Properties
  // ---------------------------------------------------------------------

  function Decimals(ns: seq<nat>): (ts: seq<string>)
    ensures |ts| == |ns|
    ensures forall i :: 0 <= i < |ns| ==> ts[i] == Decimal(ns[i])
  {
    if |ns| == 0 then [] else [Decimal(ns[0])] + Decimals(ns[1..])
  }

  predicate InPositiveRange(ns: seq<nat>) {
    forall i :: 0 <= i < |ns| ==> 0 < ns[i] <= IntMax
  }

  /** Positive decimal tokens add up to the sum of their values. */
  lemma {:induction false} SumTokensDecimals(ns: seq<nat>)
    requires InPositiveRange(ns)
    ensures SumTokens(Decimals(ns)) == Success(Total(ns))
    decreases |ns|
  {
    if |ns| > 0 {
      ParseDecimal(ns[0]);
      assert Decimals(ns)[1..] == Decimals(ns[1..]);
      SumTokensDecimals(ns[1..]);
    }
  }

  lemma DecimalsAreTokens(ns: seq<nat>, d: set<char>)
    requires forall c :: c in d ==> !IsDigit(c)
    ensures AllTokens(Decimals(ns), d)
  {
  }

  /** Without a header, joining positive numbers with ',' and '\n' and
      adding the string gives their sum. */
  lemma AddJoined(ns: seq<nat>, seps: string)
    requires 0 < |ns| <= |seps| + 1 && InPositiveRange(ns)
    requires Separators(seps, DefaultDelimiters)
    ensures Add(NewCalculator(), Join(Decimals(ns), seps)) == AddOutcome(NewCalculator(), Success(Total(ns)))
  {
    var s := Join(Decimals(ns), seps);
    DecimalsAreTokens(ns, DefaultDelimiters);
    SplitJoin(Decimals(ns), seps, DefaultDelimiters);
    SumTokensDecimals(ns);
    assert s[0] == Decimals(ns)[0][0];
  }

  /** With a "//c\n" header, numbers joined by ',', '\n' and c add up to
      their sum, and c joins the calculator's delimiters. */
  lemma AddJoinedWithHeader(ns: seq<nat>, c: char, seps: string)
    requires 0 < |ns| <= |seps| + 1 && InPositiveRange(ns)
    requires !IsDigit(c) && Separators(seps, DefaultDelimiters + {c})
    ensures
      var s := "//" + [c] + "\n" + Join(Decimals(ns), seps);
      Add(NewCalculator(), s) == AddOutcome(Calculator(DefaultDelimiters + {c}), Success(Total(ns)))
  {
    var d := DefaultDelimiters + {c};
    var body := Join(Decimals(ns), seps);
    DecimalsAreTokens(ns, d);
    SplitJoin(Decimals(ns), seps, d);
    SumTokensDecimals(ns);
    var s := "//" + [c] + "\n" + body;
    HeaderParts(c, body);
    AddWithHeader(NewCalculator(), s);
  }

  /** The pieces of a "//c\n" header in front of a body. */
  lemma HeaderParts(c: char, body: string)
    ensures var s := "//" + [c] + "\n" + body;
      |s| >= 4 && HasHeader(s) && s[2] == c && s[3] == '\n' && s[4..] == body
  {
    var s := "//" + [c] + "\n" + body;
    assert s[..2] == "//";
    assert s[4..] == body;
  }

  /** A "//c\n" header grows the delimiters by c, and the rest of the input
      is split as plain text under the grown set: only this first header is
      stripped, even when the rest itself starts with "//". */
  lemma AddWithHeader(calculator: Calculator, s: string)
    requires |s| >= 4 && HasHeader(s) && s[3] == '\n'
    ensures
      var d := calculator.delimiters + {s[2]};
      Add(calculator, s) == AddOutcome(Calculator(d), SumTokens(Split(s[4..], d)))
  {
    var d := calculator.delimiters + {s[2]};
    if s[2] == '\n' {
      assert FirstNewline(s) == 2;
      assert Split(Body(s), d) == Split(s[4..], d) by {
        assert Body(s) == s[3..];
        assert s[3..][1..] == s[4..];
      }
    } else {
      assert FirstNewline(s) == 3;
    }
  }

  /** A run of `add` calls on one calculator instance. */
  function Session(calculator: Calculator, inputs: seq<string>): (final: Calculator)
    requires forall i :: 0 <= i < |inputs| ==> Admissible(inputs[i])
    ensures calculator.delimiters <= final.delimiters
    decreases |inputs|
  {
    if |inputs| == 0 then calculator else Session(Add(calculator, inputs[0]).calculator, inputs[1..])
  }

  /** The delimiter set only grows: the defaults stay and every custom
      delimiter introduced by an earlier call remains in effect. */
  lemma {:induction false} SessionKeepsDelimiters(calculator: Calculator, inputs: seq<string>)
    requires forall i :: 0 <= i < |inputs| ==> Admissible(inputs[i])
    ensures forall i :: 0 <= i < |inputs| && HasHeader(inputs[i]) ==> |inputs[i]| > 2 && inputs[i][2] in Session(calculator, inputs).delimiters
    decreases |inputs|
  {
    if |inputs| > 0 {
      var rest := inputs[1..];
      var next := SessionStep(calculator, inputs);
      SessionKeepsDelimiters(next, rest);
      forall i | 0 <= i < |inputs| && HasHeader(inputs[i])
        ensures |inputs[i]| > 2 && inputs[i][2] in Session(next, rest).delimiters
      {
        if i > 0 {
          assert inputs[i] == rest[i - 1];
        }
      }
    }
  }

  /** The first call of a session keeps every delimiter and adds the
      header's, and the session goes on from the calculator it leaves. */
  lemma SessionStep(calculator: Calculator, inputs: seq<string>) returns (next: Calculator)
    requires |inputs| > 0 && forall i :: 0 <= i < |inputs| ==> Admissible(inputs[i])
    ensures forall i :: 0 <= i < |inputs[1..]| ==> Admissible(inputs[1..][i])
    ensures Session(calculator, inputs) == Session(next, inputs[1..])
    ensures calculator.delimiters <= next.delimiters
    ensures HasHeader(inputs[0]) ==> |inputs[0]| > 2 && inputs[0][2] in next.delimiters
  {
    next := Add(calculator, inputs[0]).calculator;
  }

  // ---------------------------------------------------------------------
  // The scenarios of the Swift test class StringClaculatorTest, as lemma instances
  // ---------------------------------------------------------------------

  /** A lone token splits into itself. */
  lemma SplitToken(t: string, d: set<char>)
    requires IsToken(t, d)
    ensures Split(t, d) == [t]
  {
    SplitFromUndelimited(t, [], d, []);
    assert t + [] == t;
    assert [] + t == t;
  }

  /** Without a header, `add` sums the pieces the input splits into. */
  lemma AddSplits(calculator: Calculator, s: string, ts: seq<string>)
    requires |s| > 0 && !HasHeader(s)
    requires Split(s, calculator.delimiters) == ts
    ensures Add(calculator, s) == AddOutcome(calculator, SumTokens(ts))
  {
  }

  /** A non-zero digit on its own is a valid token worth its value. */
  lemma MapDigit(c: char)
    requires '1' <= c <= '9'
    ensures MapNumber([c]) == Success(DigitValue(c))
  {
    assert [c][..0] == [];
    assert DigitsValue([c]) == DigitValue(c);
    assert ParseInt([c]) == Some(DigitValue(c));
  }

  lemma SumTokensCons(t: string, ts: seq<string>, v: int, w: int)
    requires MapNumber(t) == Success(v) && SumTokens(ts) == Success(w)
    ensures SumTokens([t] + ts) == Success(v + w)
  {
    assert ([t] + ts)[1..] == ts;
  }

  lemma SumOneTwo()
    ensures SumTokens(["1", "2"]) == Success(3)
  {
    MapDigit('1');
    MapDigit('2');
    SumTokensCons("2", [], 2, 0);
    SumTokensCons("1", ["2"], 1, 2);
  }

  lemma SplitTwo(a: char, sep: char, b: char, d: set<char>)
    requires a !in d && b !in d && sep in d
    ensures Split([a, sep, b], d) == [[a], [b]]
  {
    SplitJoin([[a], [b]], [sep], d);
    assert Join([[a], [b]], [sep]) == [a, sep, b];
  }

  lemma ScenarioSingle()
    ensures Add(NewCalculator(), "").result == Success(0)
    ensures Add(NewCalculator(), "1").result == Success(1)
    ensures Add(NewCalculator(), "2").result == Success(2)
  {
    AddDigit('1');
    AddDigit('2');
  }

  /** A lone non-zero digit adds up to its own value. */
  lemma AddDigit(c: char)
    requires '1' <= c <= '9'
    ensures Add(NewCalculator(), [c]).result == Success(DigitValue(c))
  {
    MapDigit(c);
    SumTokensCons([c], [], DigitValue(c), 0);
    assert [[c]] + [] == [[c]];
    AddSingleToken([c], Success(DigitValue(c)));
  }

  lemma ScenarioPairs()
    ensures Add(NewCalculator(), "1,2").result == Success(3)
    ensures Add(NewCalculator(), "1,3").result == Success(4)
  {
    AddOneTwo();
    AddOneThree();
  }

  lemma AddOneTwo()
    ensures Add(NewCalculator(), "1,2").result == Success(3)
  {
    SplitTwo('1', ',', '2', DefaultDelimiters);
    AddSplits(NewCalculator(), "1,2", ["1", "2"]);
    SumOneTwo();
  }

  lemma AddOneThree()
    ensures Add(NewCalculator(), "1,3").result == Success(4)
  {
    SplitTwo('1', ',', '3', DefaultDelimiters);
    AddSplits(NewCalculator(), "1,3", ["1", "3"]);
    MapDigit('1');
    MapDigit('3');
    SumTokensCons("3", [], 3, 0);
    SumTokensCons("1", ["3"], 1, 3);
  }

  lemma ScenarioNewline()
    ensures Add(NewCalculator(), "1\n2").result == Success(3)
  {
    SplitTwo('1', '\n', '2', DefaultDelimiters);
    AddSplits(NewCalculator(), "1\n2", ["1", "2"]);
    SumOneTwo();
  }

  lemma ScenarioMixed()
    ensures Add(NewCalculator(), "1\n2,3").result == Success(6)
  {
    SplitThree('1', '\n', '2', ',', '3', DefaultDelimiters);
    AddSplits(NewCalculator(), "1\n2,3", ["1", "2", "3"]);
    SumThree();
  }

  lemma SplitThree(a: char, s1: char, b: char, s2: char, c: char, d: set<char>)
    requires a !in d && b !in d && c !in d && s1 in d && s2 in d
    ensures Split([a, s1, b, s2, c], d) == [[a], [b], [c]]
  {
    SplitJoin([[a], [b], [c]], [s1, s2], d);
    assert Join([[b], [c]], [s2]) == [b, s2, c];
    assert Join([[a], [b], [c]], [s1, s2]) == [a, s1, b, s2, c];
  }

  lemma SumThree()
    ensures SumTokens(["1", "2", "3"]) == Success(6)
  {
    MapDigit('1');
    MapDigit('2');
    MapDigit('3');
    SumTokensCons("3", [], 3, 0);
    SumTokensCons("2", ["3"], 2, 3);
    SumTokensCons("1", ["2", "3"], 1, 5);
  }

  lemma ScenarioLong()
    ensures Add(NewCalculator(), "1,2,3,4,5").result == Success(15)
  {
    var ts := ["1", "2", "3", "4", "5"];
    SplitJoin(ts, ",,,,", DefaultDelimiters);
    JoinFive();
    AddSplits(NewCalculator(), "1,2,3,4,5", ts);
    SumFive();
  }

  lemma JoinFive()
    ensures Join(["1", "2", "3", "4", "5"], ",,,,") == "1,2,3,4,5"
  {
    assert Join(["4", "5"], ",") == "4,5";
    assert Join(["3", "4", "5"], ",,") == "3,4,5";
    assert Join(["2", "3", "4", "5"], ",,,") == "2,3,4,5";
  }

  lemma SumFive()
    ensures SumTokens(["1", "2", "3", "4", "5"]) == Success(15)
  {
    MapDigit('1');
    MapDigit('2');
    MapDigit('3');
    MapDigit('4');
    MapDigit('5');
    SumTokensCons("5", [], 5, 0);
    SumTokensCons("4", ["5"], 4, 5);
    SumTokensCons("3", ["4", "5"], 3, 9);
    SumTokensCons("2", ["3", "4", "5"], 2, 12);
    SumTokensCons("1", ["2", "3", "4", "5"], 1, 14);
  }

  /** With a "//c\n" header, `add` sums the pieces the rest splits into. */
  lemma AddHeaderSplits(calculator: Calculator, s: string, ts: seq<string>, n: int)
    requires |s| >= 4 && HasHeader(s) && s[3] == '\n'
    requires Split(s[4..], calculator.delimiters + {s[2]}) == ts
    requires SumTokens(ts) == Success(n)
    ensures Add(calculator, s).result == Success(n)
  {
    AddWithHeader(calculator, s);
  }

  lemma ScenarioCustomDelimiter()
    ensures Add(NewCalculator(), "//;\n1;2").result == Success(3)
  {
    var s := "//;\n1;2";
    assert s[4..] == [s[4], s[5], s[6]];
    SplitTwo(s[4], s[5], s[6], DefaultDelimiters + {s[2]});
    SumOneTwo();
    AddHeaderSplits(NewCalculator(), s, ["1", "2"], 3);
  }

  /** The second input of the custom-delimiter test, on the calculator the
      first one left behind. */
  lemma ScenarioCustomAndDefaultDelimiters()
    ensures Add(Add(NewCalculator(), "//;\n1;2").calculator, "//;\n1;2,3\n4").result == Success(10)
  {
    GrowSemicolon("//;\n1;2");
    AddMixedOnGrown();
  }

  lemma AddMixedOnGrown()
    ensures Add(Calculator(DefaultDelimiters + {';'}), "//;\n1;2,3\n4").result == Success(10)
  {
    var grown := Calculator(DefaultDelimiters + {';'});
    var s := "//;\n1;2,3\n4";
    assert s[4..] == [s[4], s[5], s[6], s[7], s[8], s[9], s[10]];
    SplitFour(s[4], s[5], s[6], s[7], s[8], s[9], s[10], grown.delimiters + {s[2]});
    SumFour();
    AddHeaderSplits(grown, s, ["1", "2", "3", "4"], 10);
  }

  lemma SplitFour(a: char, s1: char, b: char, s2: char, c: char, s3: char, e: char, d: set<char>)
    requires a !in d && b !in d && c !in d && e !in d && s1 in d && s2 in d && s3 in d
    ensures Split([a, s1, b, s2, c, s3, e], d) == [[a], [b], [c], [e]]
  {
    SplitJoin([[a], [b], [c], [e]], [s1, s2, s3], d);
    assert Join([[c], [e]], [s3]) == [c, s3, e];
    assert Join([[b], [c], [e]], [s2, s3]) == [b, s2, c, s3, e];
    assert Join([[a], [b], [c], [e]], [s1, s2, s3]) == [a, s1, b, s2, c, s3, e];
  }

  lemma SumFour()
    ensures SumTokens(["1", "2", "3", "4"]) == Success(10)
  {
    MapDigit('1');
    MapDigit('2');
    MapDigit('3');
    MapDigit('4');
    SumTokensCons("4", [], 4, 0);
    SumTokensCons("3", ["4"], 3, 4);
    SumTokensCons("2", ["3", "4"], 2, 7);
    SumTokensCons("1", ["2", "3", "4"], 1, 9);
  }

  /** "1;2" is not a number to a fresh calculator. */
  lemma ScenarioUnknownDelimiter()
    ensures Add(NewCalculator(), "1;2").result == Failure(InvalidInput)
  {
    SplitToken("1;2", DefaultDelimiters);
  }

  /** A custom delimiter stays in effect for later calls on the same
      calculator: after a "//;" call, "1;2" adds up to 3. */
  lemma ScenarioDelimiterPersists()
    ensures Add(Add(NewCalculator(), "//;\n1").calculator, "1;2").result == Success(3)
  {
    GrowSemicolon("//;\n1");
    AddPairGrown();
  }

  lemma AddPairGrown()
    ensures Add(Calculator(DefaultDelimiters + {';'}), "1;2").result == Success(3)
  {
    var grown := Calculator(DefaultDelimiters + {';'});
    SplitTwo('1', ';', '2', grown.delimiters);
    SumOneTwo();
    AddSplits(grown, "1;2", ["1", "2"]);
  }

  lemma GrowSemicolon(s: string)
    requires |s| >= 4 && s[0] == '/' && s[1] == '/' && s[2] == ';' && s[3] == '\n'
    ensures Add(NewCalculator(), s).calculator == Calculator(DefaultDelimiters + {';'})
  {
    AddWithHeader(NewCalculator(), s);
  }

  /** A failing first token decides the sum, whatever follows it. */
  lemma SumTokensHeadFails(t: string, ts: seq<string>, e: CalcError)
    requires MapNumber(t) == Failure(e)
    ensures SumTokens([t] + ts) == Failure(e)
  {
    assert ([t] + ts)[0] == t;
  }

  lemma MapLetter()
    ensures MapNumber("a") == Failure(InvalidInput)
  {
    assert !IsDigit("a"[0]);
  }

  lemma MapZero()
    ensures MapNumber("0") == Failure(NegativeInput)
  {
    assert "0"[..0] == [];
    assert DigitsValue("0") == 0;
  }

  lemma MapMinusOne()
    ensures MapNumber("-1") == Failure(NegativeInput)
  {
    assert "-1"[1..] == "1";
    assert "1"[..0] == [];
    assert DigitsValue("1") == 1;
  }

  /** Two tokens around one delimiter split back into the two tokens. */
  lemma SplitPair(s: string, a: string, sep: char, b: string, d: set<char>)
    requires IsToken(a, d) && IsToken(b, d) && sep in d
    requires s == a + [sep] + b
    ensures Split(s, d) == [a, b]
  {
    SplitJoin([a, b], [sep], d);
    assert Join([a, b], [sep]) == a + [sep] + b;
  }

  /** A lone token without a header is summed on its own. */
  lemma AddSingleToken(t: string, r: Result<int, CalcError>)
    requires IsToken(t, DefaultDelimiters) && !HasHeader(t)
    requires SumTokens([t]) == r
    ensures Add(NewCalculator(), t).result == r
  {
    SplitToken(t, DefaultDelimiters);
    AddSplits(NewCalculator(), t, [t]);
  }

  lemma ScenarioNegative()
    ensures Add(NewCalculator(), "-1").result == Failure(NegativeInput)
  {
    MapMinusOne();
    SumTokensHeadFails("-1", [], NegativeInput);
    assert ["-1"] + [] == ["-1"];
    AddSingleToken("-1", Failure(NegativeInput));
  }

  lemma ScenarioZero()
    ensures Add(NewCalculator(), "0").result == Failure(NegativeInput)
  {
    MapZero();
    SumTokensHeadFails("0", [], NegativeInput);
    assert ["0"] + [] == ["0"];
    AddSingleToken("0", Failure(NegativeInput));
  }

  lemma ScenarioInvalid()
    ensures Add(NewCalculator(), "a").result == Failure(InvalidInput)
  {
    MapLetter();
    SumTokensHeadFails("a", [], InvalidInput);
    assert ["a"] + [] == ["a"];
    AddSingleToken("a", Failure(InvalidInput));
  }

  /** The first offending token decides the error: an unparsable one. */
  lemma ScenarioFirstErrorInvalid()
    ensures Add(NewCalculator(), "a,-1").result == Failure(InvalidInput)
  {
    SplitPair("a,-1", "a", ',', "-1", DefaultDelimiters);
    MapLetter();
    SumTokensHeadFails("a", ["-1"], InvalidInput);
    assert ["a"] + ["-1"] == ["a", "-1"];
    AddSplits(NewCalculator(), "a,-1", ["a", "-1"]);
  }

  /** The first offending token decides the error: a negative one. */
  lemma ScenarioFirstErrorNegative()
    ensures Add(NewCalculator(), "-1,a").result == Failure(NegativeInput)
  {
    SplitPair("-1,a", "-1", ',', "a", DefaultDelimiters);
    MapMinusOne();
    SumTokensHeadFails("-1", ["a"], NegativeInput);
    assert ["-1"] + ["a"] == ["-1", "a"];
    AddSplits(NewCalculator(), "-1,a", ["-1", "a"]);
  }

  /** Empty pieces are dropped, so repeated delimiters are harmless. */
  lemma ScenarioEmptyPieces()
    ensures Add(NewCalculator(), ",").result == Success(0)
    ensures Add(NewCalculator(), "1,,2").result == Success(3)
  {
    var d := DefaultDelimiters;
    assert Split(",", d) == [];
    SplitDoubleComma(d);
    AddSplits(NewCalculator(), "1,,2", ["1", "2"]);
    SumOneTwo();
  }

  lemma SplitDoubleComma(d: set<char>)
    requires d == DefaultDelimiters
    ensures Split("1,,2", d) == ["1", "2"]
  {
    SplitFromUndelimited("1", ",,2", d, []);
    assert "1,,2" == "1" + ",,2" && [] + "1" == "1";
    assert ",,2"[1..] == ",2" && ",2"[1..] == "2";
    assert SplitFrom(",,2", d, "1") == ["1"] + SplitFrom(",2", d, []);
    assert SplitFrom(",2", d, []) == SplitFrom("2", d, []);
    SplitToken("2", d);
  }
}

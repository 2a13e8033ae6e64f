/** Text as the policy code sees it.
    Folding, trimming, splitting, decimals and key order, as far as the two standard libraries are used.
    Go and JavaScript agree on all but two white-space characters; folding knows the two characters outside
    ASCII that fold to ASCII letters. */
module Text {
  // ---- folding, trimming ----

  /** Simple case folding. U+212A and U+017F are the only characters outside ASCII that fold to ASCII letters. */
  function FoldChar(c: char): char {
    if 'A' <= c <= 'Z' then c - 'A' + 'a'
    else if c == '\U{212A}' then 'k'
    else if c == '\U{017F}' then 's'
    else c
  }

  function Fold(s: string): (r: string)
    ensures |r| == |s| && forall i | 0 <= i < |s| :: r[i] == FoldChar(s[i])
  {
    seq(|s|, i requires 0 <= i < |s| => FoldChar(s[i]))
  }

  predicate EqualFold(a: string, b: string) { Fold(a) == Fold(b) }

  function LowerChar(c: char): char {
    if 'A' <= c <= 'Z' then c - 'A' + 'a' else c
  }

  function Lower(s: string): (r: string)
    ensures |r| == |s| && forall i | 0 <= i < |s| :: r[i] == LowerChar(s[i])
  {
    seq(|s|, i requires 0 <= i < |s| => LowerChar(s[i]))
  }

  /** White space shared by both trimming functions. */
  predicate IsBlank(c: char) {
    '\t' <= c <= '\r' || c == ' ' || c == '\U{00A0}' || c == '\U{1680}' || '\U{2000}' <= c <= '\U{200A}' ||
    c == '\U{2028}' || c == '\U{2029}' || c == '\U{202F}' || c == '\U{205F}' || c == '\U{3000}'
  }

  /** White space to strings.TrimSpace. */
  predicate GoSpace(c: char) { IsBlank(c) || c == '\U{0085}' }

  /** White space to String.prototype.trim. */
  predicate JsSpace(c: char) { IsBlank(c) || c == '\U{FEFF}' }

  function Trim(s: string, space: char -> bool): (r: string)
    ensures r == s || |r| < |s|
    ensures r != [] ==> !space(r[0]) && !space(r[|r| - 1])
    decreases |s|
  {
    if s == [] then []
    else if space(s[0]) then Trim(s[1..], space)
    else if space(s[|s| - 1]) then Trim(s[..|s| - 1], space)
    else s
  }

  function TrimEach(ss: seq<string>, space: char -> bool): (r: seq<string>)
    ensures |r| == |ss| && forall i | 0 <= i < |r| :: r[i] == Trim(ss[i], space)
  {
    seq(|ss|, i requires 0 <= i < |ss| => Trim(ss[i], space))
  }

  /** A string with no outer space is left alone. */
  lemma TrimStops(s: string, space: char -> bool)
    requires s == [] || (!space(s[0]) && !space(s[|s| - 1]))
    ensures Trim(s, space) == s
  {
  }

  // ---- splitting ----

  function Split(s: string, sep: char): (r: seq<string>)
    ensures |r| >= 1
  {
    if s == [] then [[]]
    else
      var r := Split(s[1..], sep);
      if s[0] == sep then [[]] + r else [[s[0]] + r[0]] + r[1..]
  }

  function Join(parts: seq<string>, sep: char): string {
    if parts == [] then []
    else if |parts| == 1 then parts[0]
    else parts[0] + [sep] + Join(parts[1..], sep)
  }

  lemma {:induction false} SplitWhole(s: string, sep: char)
    requires sep !in s
    ensures Split(s, sep) == [s]
  {
    if s != [] {
      SplitWhole(s[1..], sep);
      assert [s[0]] + s[1..] == s;
    }
  }

  lemma {:induction false} SplitAtSeparator(a: string, sep: char, b: string)
    ensures Split(a + [sep] + b, sep) == Split(a, sep) + Split(b, sep)
  {
    hide Split, Prepend;
    if a == [] {
      assert a + [sep] + b == [sep] + b;
      SplitFirst(sep, b, sep);
      SplitNothing(sep);
    } else {
      assert a + [sep] + b == [a[0]] + (a[1..] + [sep] + b) && a == [a[0]] + a[1..];
      SplitFirst(a[0], a[1..] + [sep] + b, sep);
      SplitFirst(a[0], a[1..], sep);
      SplitAtSeparator(a[1..], sep, b);
      PrependKeeps(a[0], Split(a[1..], sep), Split(b, sep));
    }
  }

  function Prepend(c: char, parts: seq<string>): seq<string>
    requires parts != []
  {
    [[c] + parts[0]] + parts[1..]
  }

  lemma PrependKeeps(c: char, x: seq<string>, y: seq<string>)
    requires x != []
    ensures Prepend(c, x + y) == Prepend(c, x) + y
  {
    assert (x + y)[1..] == x[1..] + y;
  }

  lemma SplitFirst(c: char, s: string, sep: char)
    ensures Split([c] + s, sep) ==
            var r := Split(s, sep); if c == sep then [[]] + r else Prepend(c, r)
  {
    assert ([c] + s)[1..] == s;
  }

  lemma SplitNothing(sep: char)
    ensures Split([], sep) == [[]]
  {
  }

  lemma {:induction false} SplitUndoesJoin(parts: seq<string>, sep: char)
    requires parts != [] && forall p | p in parts :: sep !in p
    ensures Split(Join(parts, sep), sep) == parts
  {
    SplitWhole(parts[0], sep);
    if |parts| > 1 {
      SplitUndoesJoin(parts[1..], sep);
      SplitAtSeparator(parts[0], sep, Join(parts[1..], sep));
    }
  }

  /** The last position of c, or -1. */
  function LastIndex(s: string, c: char): (i: int)
    ensures -1 <= i < |s|
    ensures i >= 0 ==> s[i] == c && c !in s[i + 1..]
    ensures i < 0 ==> c !in s
  {
    if s == [] then -1
    else if s[|s| - 1] == c then |s| - 1
    else
      var i := LastIndex(s[..|s| - 1], c);
      assert i >= 0 ==> s[i + 1..] == s[..|s| - 1][i + 1..] + [s[|s| - 1]];
      i
  }

  lemma {:induction false} LastIndexOfTail(a: string, c: char, b: string)
    requires c !in b
    ensures LastIndex(a + [c] + b, c) == |a|
  {
    var s := a + [c] + b;
    assert s[|a|] == c && s[|a| + 1..] == b;
  }

  function ReplaceAll(s: string, from: string, to: string): string
    requires from != []
  {
    if |s| < |from| then s
    else if s[..|from|] == from then to + ReplaceAll(s[|from|..], from, to)
    else [s[0]] + ReplaceAll(s[1..], from, to)
  }

  // ---- decimals ----

  predicate IsDigit(c: char) { '0' <= c <= '9' }

  predicate AllDigits(s: string) { forall c | c in s :: IsDigit(c) }

  function Digit(d: nat): (c: char)
    requires d < 10
    ensures IsDigit(c) && DigitValue(c) == d
  {
    '0' + d as char
  }

  function Decimal(n: nat): (s: string)
    ensures s != [] && AllDigits(s)
    ensures |s| > 1 ==> s[0] != '0'
    ensures n > 0 ==> s[0] != '0'
  {
    if n < 10 then [Digit(n)] else Decimal(n / 10) + [Digit(n % 10)]
  }

  function DigitValue(c: char): nat
    requires IsDigit(c)
  {
    (c as int) - ('0' as int)
  }

  function Number(s: string): nat
    requires AllDigits(s)
  {
    if s == [] then 0 else Number(s[..|s| - 1]) * 10 + DigitValue(s[|s| - 1])
  }

  lemma {:induction false} NumberUndoesDecimal(n: nat)
    ensures Number(Decimal(n)) == n
  {
    if n >= 10 {
      NumberUndoesDecimal(n / 10);
      var s := Decimal(n);
      assert s[..|s| - 1] == Decimal(n / 10);
    } else {
      assert Decimal(n)[..0] == [];
    }
  }

  lemma {:induction false} LeadingDigit(s: string)
    requires AllDigits(s) && s != [] && s[0] != '0'
    ensures Number(s) > 0
  {
    if |s| > 1 { LeadingDigit(s[..|s| - 1]); } else { assert s[..0] == []; }
  }

  lemma LastDigit(n: nat, d: nat)
    requires d < 10
    ensures (n * 10 + d) / 10 == n && (n * 10 + d) % 10 == d
  {
  }

  lemma DecimalStep(n: nat, d: nat)
    requires n > 0 && d < 10
    ensures Decimal(n * 10 + d) == Decimal(n) + [Digit(d)]
  {
    LastDigit(n, d);
  }

  /** A numeral without a leading zero is the decimal of its value. */
  lemma {:induction false} DecimalUndoesNumber(s: string)
    requires AllDigits(s) && s != [] && (|s| == 1 || s[0] != '0')
    ensures Decimal(Number(s)) == s
  {
    hide Decimal, Number, Digit;
    NumberStep(s);
    var init, last := s[..|s| - 1], s[|s| - 1];
    assert s == init + [last];
    DigitOfValue(last);
    if init == [] {
      NumberOfNothing();
      OneDigit(DigitValue(last));
    } else {
      DecimalUndoesNumber(init);
      LeadingDigit(init);
      DecimalStep(Number(init), DigitValue(last));
    }
  }

  lemma NumberStep(s: string)
    requires AllDigits(s) && s != []
    ensures Number(s) == Number(s[..|s| - 1]) * 10 + DigitValue(s[|s| - 1])
  {
  }

  lemma NumberOfNothing()
    ensures Number("") == 0
  {
  }

  lemma DigitOfValue(c: char)
    requires IsDigit(c)
    ensures DigitValue(c) < 10 && Digit(DigitValue(c)) == c
  {
  }

  lemma OneDigit(d: nat)
    requires d < 10
    ensures Decimal(d) == [Digit(d)]
  {
  }

  // ---- key order ----

  /** Byte order of two strings. */
  predicate Leq(a: string, b: string) {
    a == [] || (b != [] && (a[0] < b[0] || (a[0] == b[0] && Leq(a[1..], b[1..]))))
  }

  lemma {:induction false} LeqTotal(a: string, b: string)
    ensures Leq(a, b) || Leq(b, a)
  {
    if a != [] && b != [] { LeqTotal(a[1..], b[1..]); }
  }

  lemma {:induction false} LeqAntisymmetric(a: string, b: string)
    requires Leq(a, b) && Leq(b, a)
    ensures a == b
  {
    if a != [] {
      LeqAntisymmetric(a[1..], b[1..]);
      assert a == [a[0]] + a[1..] && b == [b[0]] + b[1..];
    }
  }

  lemma {:induction false} LeqTransitive(a: string, b: string, c: string)
    requires Leq(a, b) && Leq(b, c)
    ensures Leq(a, c)
  {
    if a != [] && a[0] == b[0] == c[0] { LeqTransitive(a[1..], b[1..], c[1..]); }
  }

  lemma {:induction false} FindLeast(s: set<string>) returns (k: string)
    requires s != {}
    ensures k in s && forall x | x in s :: Leq(k, x)
    decreases |s|
  {
    hide Leq;
    var a :| a in s;
    var rest := s - {a};
    LeqTotal(a, a);
    assert s == rest + {a};
    if rest == {} {
      k := a;
    } else {
      var b := FindLeast(rest);
      LeqTotal(a, b);
      k := if Leq(a, b) then a else b;
      forall x | x in rest && Leq(a, b) ensures Leq(a, x) { LeqTransitive(a, b, x); }
    }
  }

  lemma LeastExists(s: set<string>)
    requires s != {}
    ensures exists k :: k in s && forall x | x in s :: Leq(k, x)
  {
    var k := FindLeast(s);
  }

  function Least(s: set<string>): (k: string)
    requires s != {}
    ensures k in s && forall x | x in s :: Leq(k, x)
  {
    LeastExists(s);
    assert forall k, l | k in s && l in s && (forall x | x in s :: Leq(k, x)) && (forall x | x in s :: Leq(l, x)) ::
           k == l by {
      forall k, l | k in s && l in s && (forall x | x in s :: Leq(k, x)) && (forall x | x in s :: Leq(l, x))
        ensures k == l
      {
        LeqAntisymmetric(k, l);
      }
    }
    var k :| k in s && forall x | x in s :: Leq(k, x);
    k
  }

  predicate Distinct<T(==)>(s: seq<T>) {
    forall i, j | 0 <= i < j < |s| :: s[i] != s[j]
  }

  /** The members of a set in ascending order. */
  function Sorted(s: set<string>): (r: seq<string>)
    ensures forall x :: x in r <==> x in s
    ensures Distinct(r)
    ensures forall i, j | 0 <= i < j < |r| :: Leq(r[i], r[j])
    decreases |s|
  {
    if s == {} then []
    else
      var k := Least(s);
      [k] + Sorted(s - {k})
  }
}

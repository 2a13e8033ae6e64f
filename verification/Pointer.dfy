/** JSON Pointers as strings (RFC 6901). */
module Pointer {
  import opened Base
  import opened Text

  function Escape(s: string): string {
    ReplaceAll(ReplaceAll(s, "~", "~0"), "/", "~1")
  }

  function Unescape(s: string): string {
    ReplaceAll(ReplaceAll(s, "~1", "/"), "~0", "~")
  }

  /** The escaped form, character by character. */
  function EscapedChars(s: string): string {
    if s == [] then []
    else (if s[0] == '~' then "~0" else if s[0] == '/' then "~1" else [s[0]]) + EscapedChars(s[1..])
  }

  /** Replacing a one-character pattern works character by character. */
  lemma ReplaceFirst(c: char, tail: string, from: string, to: string)
    requires |from| == 1
    ensures ReplaceAll([c] + tail, from, to) == (if from == [c] then to else [c]) + ReplaceAll(tail, from, to)
  {
    var s := [c] + tail;
    assert s[..1] == [c] && s[1..] == tail;
  }

  lemma {:induction false} EscapeByChar(s: string)
    ensures Escape(s) == EscapedChars(s)
  {
    if s != [] {
      EscapeByChar(s[1..]);
      var tail := ReplaceAll(s[1..], "~", "~0");
      assert s == [s[0]] + s[1..];
      ReplaceFirst(s[0], s[1..], "~", "~0");
      if s[0] == '~' {
        assert "~0" + tail == ['~'] + (['0'] + tail);
        ReplaceFirst('~', ['0'] + tail, "/", "~1");
        ReplaceFirst('0', tail, "/", "~1");
        assert ['~'] + (['0'] + ReplaceAll(tail, "/", "~1")) == "~0" + ReplaceAll(tail, "/", "~1");
      } else {
        ReplaceFirst(s[0], tail, "/", "~1");
      }
    }
  }

  /** No separator survives escaping. */
  lemma {:induction false} EscapedHasNoSlash(s: string)
    ensures '/' !in Escape(s)
  {
    EscapeByChar(s);
    if s != [] {
      EscapeByChar(s[1..]);
      EscapedHasNoSlash(s[1..]);
    }
  }

  lemma {:induction false} UnescapeSlashes(s: string)
    ensures ReplaceAll(EscapedChars(s), "~1", "/") == ReplaceAll(s, "~", "~0")
  {
    if s != [] {
      UnescapeSlashes(s[1..]);
      var tail := EscapedChars(s[1..]);
      var e := EscapedChars(s);
      assert s[..1] == [s[0]];
      if s[0] == '~' {
        assert e == "~0" + tail && e[..2] == "~0" && e[1..] == "0" + tail;
        var z := "0" + tail;
        assert z[1..] == tail && (|z| >= 2 ==> z[..2][0] == '0');
        assert ReplaceAll(z, "~1", "/") == "0" + ReplaceAll(tail, "~1", "/") by {
          if |z| < 2 { assert tail == []; }
        }
      } else if s[0] == '/' {
        assert e == "~1" + tail && e[..2] == "~1" && e[2..] == tail;
      } else {
        assert e == [s[0]] + tail && e[1..] == tail;
        assert |e| >= 2 ==> e[..2][0] == s[0];
        if |e| < 2 { assert tail == []; }
      }
    }
  }

  lemma {:induction false} UnescapeTildes(s: string)
    ensures ReplaceAll(ReplaceAll(s, "~", "~0"), "~0", "~") == s
  {
    if s != [] {
      UnescapeTildes(s[1..]);
      var tail := ReplaceAll(s[1..], "~", "~0");
      var e := ReplaceAll(s, "~", "~0");
      assert s[..1] == [s[0]];
      if s[0] == '~' {
        assert e == "~0" + tail && e[..2] == "~0" && e[2..] == tail;
      } else {
        assert e == [s[0]] + tail && e[1..] == tail;
        assert |e| >= 2 ==> e[..2][0] == s[0];
        if |e| < 2 { assert tail == []; }
      }
    }
  }

  /** Unescaping undoes escaping, for every string. */
  lemma UnescapeUndoesEscape(s: string)
    ensures Unescape(Escape(s)) == s
  {
    EscapeByChar(s);
    UnescapeSlashes(s);
    UnescapeTildes(s);
  }

  /** A pointer to one member below base. */
  function Child(base: string, token: string): string {
    base + "/" + Escape(token)
  }

  /** Parent pointer and last, unescaped token. */
  function SplitPointer(ptr: string): (string, string)
    requires '/' in ptr
  {
    var i := LastIndex(ptr, '/');
    (ptr[..i], Unescape(ptr[i + 1..]))
  }

  lemma SplitPointerOfChild(base: string, token: string)
    ensures '/' in Child(base, token)
    ensures SplitPointer(Child(base, token)) == (base, token)
  {
    var e := Escape(token);
    EscapedHasNoSlash(token);
    LastIndexOfTail(base, '/', e);
    UnescapeUndoesEscape(token);
    var p := Child(base, token);
    assert p == base + ['/'] + e && p[|base|] == '/';
    assert p[..|base|] == base && p[|base| + 1..] == e;
  }

  function UnescapeEach(tokens: seq<string>): (r: seq<string>)
    ensures |r| == |tokens| && forall i | 0 <= i < |r| :: r[i] == Unescape(tokens[i])
  {
    seq(|tokens|, i requires 0 <= i < |tokens| => Unescape(tokens[i]))
  }

  /** The reference tokens of a pointer (section 3 of RFC 6901); None when it is malformed. */
  function Tokens(ptr: string): Option<seq<string>> {
    if ptr == [] then Some([])
    else if ptr[0] != '/' then None
    else Some(UnescapeEach(Split(ptr[1..], '/')))
  }

  lemma UnescapeEachAppend(tokens: seq<string>, t: string)
    ensures UnescapeEach(tokens + [t]) == UnescapeEach(tokens) + [Unescape(t)]
  {
  }

  /** Appending one escaped token to a pointer appends that token to its path. */
  lemma TokensOfChild(base: string, token: string)
    requires Tokens(base).Some?
    ensures Tokens(Child(base, token)) == Some(Tokens(base).value + [token])
  {
    hide Escape, Unescape;
    var e := Escape(token);
    var p := Child(base, token);
    EscapedHasNoSlash(token);
    SplitWhole(e, '/');
    UnescapeUndoesEscape(token);
    if base == [] {
      assert p[1..] == e;
      UnescapeEachAppend([], e);
      assert [] + [e] == [e];
    } else {
      assert p[1..] == base[1..] + ['/'] + e;
      SplitAtSeparator(base[1..], '/', e);
      UnescapeEachAppend(Split(base[1..], '/'), e);
    }
  }

  lemma {:induction false} EscapeLeavesDigits(s: string)
    requires AllDigits(s)
    ensures Escape(s) == s
  {
    EscapeByChar(s);
    if s != [] {
      EscapeLeavesDigits(s[1..]);
      EscapeByChar(s[1..]);
      assert [s[0]] + s[1..] == s && IsDigit(s[0]);
    }
  }

  /** A pointer to one array element below base. */
  function Element(base: string, i: nat): string {
    base + "/" + Decimal(i)
  }

  lemma ElementIsChild(base: string, i: nat)
    ensures Element(base, i) == Child(base, Decimal(i))
  {
    EscapeLeavesDigits(Decimal(i));
  }

  /** An array index token (section 4 of RFC 6901): "0", or digits with no leading zero. */
  function ArrayIndex(token: string): Option<nat> {
    if token != [] && AllDigits(token) && (|token| == 1 || token[0] != '0') then Some(Number(token)) else None
  }

  lemma ArrayIndexOfDecimal(i: nat)
    ensures ArrayIndex(Decimal(i)) == Some(i)
  {
    NumberUndoesDecimal(i);
  }
}

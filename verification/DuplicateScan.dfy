/** The duplicate-name scanner, a stack over tokens, against a recursion (internal/hsclient/hstest/fake.go). */
module DuplicateScan {
  import opened Base
  import opened Text
  import opened Tree

  datatype Token = Delim(c: char) | Text(s: string) | Scalar

  /** The token stream of a value. */
  function Tokens(j: Json): seq<Token> {
    match j
    case JStr(s) => [Text(s)]
    case JArr(items) => [Delim('[')] + ItemTokens(items) + [Delim(']')]
    case JObj(ms) => [Delim('{')] + MemberTokens(ms) + [Delim('}')]
    case _ => [Scalar]
  }

  function ItemTokens(items: seq<Json>): seq<Token> {
    if items == [] then [] else Tokens(items[0]) + ItemTokens(items[1..])
  }

  function MemberTokens(ms: seq<(string, Json)>): seq<Token> {
    if ms == [] then []
    else
      assert ms[0].1 < ms[0] && ms[0] in ms;
      [Text(ms[0].0)] + Tokens(ms[0].1) + MemberTokens(ms[1..])
  }

  // ---- the definition ----

  predicate Seen(names: seq<string>, name: string) { exists i :: 0 <= i < |names| && EqualFold(names[i], name) }

  /** The first name, in reading order, that repeats one seen before in its object. */
  function FirstRepeat(j: Json): Option<string> {
    match j
    case JArr(items) => RepeatInItems(items)
    case JObj(ms) => RepeatInMembers(ms, [])
    case _ => None
  }

  function RepeatInItems(items: seq<Json>): Option<string> {
    if items == [] then None
    else if FirstRepeat(items[0]).Some? then FirstRepeat(items[0])
    else RepeatInItems(items[1..])
  }

  function RepeatInMembers(ms: seq<(string, Json)>, names: seq<string>): Option<string> {
    if ms == [] then None
    else if Seen(names, ms[0].0) then Some(Lower(ms[0].0))
    else
      assert ms[0].1 < ms[0] && ms[0] in ms;
      if FirstRepeat(ms[0].1).Some? then FirstRepeat(ms[0].1)
      else RepeatInMembers(ms[1..], names + [ms[0].0])
  }

  /** Some object, at some depth, has two member names equal under case folding. */
  predicate HasRepeat(j: Json) {
    match j
    case JArr(items) => exists i :: 0 <= i < |items| && HasRepeat(items[i])
    case JObj(ms) =>
      || (exists a, b :: 0 <= a < b < |ms| && EqualFold(ms[a].0, ms[b].0))
      || (exists i :: 0 <= i < |ms| && (var m := ms[i]; assert m in ms; HasRepeat(m.1)))
    case _ => false
  }

  // ---- the scanner ----

  datatype Frame = Frame(isObject: bool, expectKey: bool, names: seq<string>)

  datatype Verdict = Clean | Repeated(name: string)

  function AtKey(stack: seq<Frame>): bool {
    stack != [] && stack[|stack| - 1].isObject && stack[|stack| - 1].expectKey
  }

  function Top(stack: seq<Frame>, f: Frame): seq<Frame>
    requires stack != []
  {
    stack[|stack| - 1 := f]
  }

  /** After a value ends, the enclosing object expects a key. */
  function ValueDone(stack: seq<Frame>): seq<Frame> {
    if stack != [] && stack[|stack| - 1].isObject then Top(stack, stack[|stack| - 1].(expectKey := true)) else stack
  }

  /** The scan of the remaining tokens. */
  function Scan(stack: seq<Frame>, tokens: seq<Token>): Verdict
    decreases |tokens|
  {
    if tokens == [] then Clean
    else
      var tok, rest := tokens[0], tokens[1..];
      if AtKey(stack) && tok.Text? then
        var top := stack[|stack| - 1];
        if Seen(top.names, tok.s) then Repeated(Lower(tok.s))
        else Scan(Top(stack, top.(names := top.names + [tok.s], expectKey := false)), rest)
      else if tok == Delim('{') then Scan(stack + [Frame(true, true, [])], rest)
      else if tok == Delim('[') then Scan(stack + [Frame(false, false, [])], rest)
      else if tok.Delim? then (if stack == [] then Clean else Scan(ValueDone(stack[..|stack| - 1]), rest))
      else Scan(ValueDone(stack), rest)
  }

  /** `duplicateMember`: a loop over the tokens with a stack of open containers. */
  method DuplicateMember(tokens: seq<Token>) returns (v: Verdict)
    ensures v == Scan([], tokens)
  {
    hide Lower, EqualFold;
    var stack: seq<Frame> := [];
    var i := 0;
    while i < |tokens|
      invariant 0 <= i <= |tokens|
      invariant Scan(stack, tokens[i..]) == Scan([], tokens)
    {
      assert tokens[i..][0] == tokens[i] && tokens[i..][1..] == tokens[i + 1..];
      var tok := tokens[i];
      i := i + 1;
      if |stack| > 0 && stack[|stack| - 1].isObject && stack[|stack| - 1].expectKey && tok.Text? {
        var top := stack[|stack| - 1];
        var x := 0;
        while x < |top.names|
          invariant 0 <= x <= |top.names|
          invariant forall y | 0 <= y < x :: !EqualFold(top.names[y], tok.s)
        {
          if EqualFold(top.names[x], tok.s) { return Repeated(Lower(tok.s)); }
          x := x + 1;
        }
        stack := stack[|stack| - 1 := top.(names := top.names + [tok.s], expectKey := false)];
        continue;
      }
      if tok == Delim('{') {
        stack := stack + [Frame(true, true, [])];
        continue;
      }
      if tok == Delim('[') {
        stack := stack + [Frame(false, false, [])];
        continue;
      }
      if tok.Delim? {
        if |stack| == 0 { return Clean; }
        stack := stack[..|stack| - 1];
      }
      if |stack| > 0 && stack[|stack| - 1].isObject {
        stack := stack[|stack| - 1 := stack[|stack| - 1].(expectKey := true)];
      }
    }
    v := Clean;
  }

  // ---- they agree ----

  function Then(r: Option<string>, stack: seq<Frame>, rest: seq<Token>): Verdict {
    if r.Some? then Repeated(r.value) else Scan(stack, rest)
  }

  lemma ScanStep(stack: seq<Frame>, tok: Token, rest: seq<Token>)
    ensures ([tok] + rest)[0] == tok && ([tok] + rest)[1..] == rest
  {
  }

  /** Scanning one value where a value is expected either reports its first repeat or moves past it. */
  lemma {:induction false} ScanValue(j: Json, stack: seq<Frame>, rest: seq<Token>)
    requires !AtKey(stack)
    ensures Scan(stack, Tokens(j) + rest) == Then(FirstRepeat(j), ValueDone(stack), rest)
    decreases j, 2
  {
    hide Lower, Seen, ItemTokens, MemberTokens, RepeatInItems, RepeatInMembers, ValueDone;
    match j
    case JArr(items) => ScanArray(j, stack, rest);
    case JObj(ms) => ScanObject(j, stack, rest);
    case _ =>
      ScanStep(stack, Tokens(j)[0], rest);
      assert Tokens(j) == [Tokens(j)[0]];
  }

  lemma {:induction false} ScanArray(j: Json, stack: seq<Frame>, rest: seq<Token>)
    requires j.JArr? && !AtKey(stack)
    ensures Scan(stack, Tokens(j) + rest) == Then(FirstRepeat(j), ValueDone(stack), rest)
    decreases j, 1
  {
    hide Lower, Seen, ItemTokens, MemberTokens, RepeatInItems, RepeatInMembers, ValueDone;
    var inner := stack + [Frame(false, false, [])];
    var tail := [Delim(']')] + rest;
    assert Tokens(j) + rest == [Delim('[')] + (ItemTokens(j.items) + tail);
    ScanStep(stack, Delim('['), ItemTokens(j.items) + tail);
    ScanItems(j, j.items, inner, tail);
    ScanStep(inner, Delim(']'), rest);
    assert inner[..|inner| - 1] == stack;
  }

  lemma {:induction false} ScanObject(j: Json, stack: seq<Frame>, rest: seq<Token>)
    requires j.JObj? && !AtKey(stack)
    ensures Scan(stack, Tokens(j) + rest) == Then(FirstRepeat(j), ValueDone(stack), rest)
    decreases j, 1
  {
    hide Lower, Seen, ItemTokens, MemberTokens, RepeatInItems, RepeatInMembers, ValueDone;
    var tail := [Delim('}')] + rest;
    assert Tokens(j) + rest == [Delim('{')] + (MemberTokens(j.members) + tail);
    ScanStep(stack, Delim('{'), MemberTokens(j.members) + tail);
    ScanMembers(j, j.members, stack, [], tail);
    EndOfObject(j.members, stack, [], rest);
  }

  /** The names collected after all members were read. */
  function NamesOf(ms: seq<(string, Json)>, names: seq<string>): seq<string> {
    if ms == [] then names else NamesOf(ms[1..], names + [ms[0].0])
  }

  lemma EndOfObject(ms: seq<(string, Json)>, stack: seq<Frame>, names: seq<string>, rest: seq<Token>)
    ensures Scan(stack + [Frame(true, true, NamesOf(ms, names))], [Delim('}')] + rest) == Scan(ValueDone(stack), rest)
  {
    hide ValueDone, NamesOf;
    var inner := stack + [Frame(true, true, NamesOf(ms, names))];
    ScanStep(inner, Delim('}'), rest);
    assert inner[..|inner| - 1] == stack;
  }

  lemma {:induction false} ScanItems(j: Json, items: seq<Json>, inner: seq<Frame>, rest: seq<Token>)
    requires forall x | x in items :: x < j
    requires inner != [] && !inner[|inner| - 1].isObject
    ensures Scan(inner, ItemTokens(items) + rest) == Then(RepeatInItems(items), inner, rest)
    decreases j, 0, |items|
  {
    hide Scan, Tokens, FirstRepeat;
    if items == [] {
      assert [] + rest == rest;
    } else {
      assert items[0] in items;
      var more := ItemTokens(items[1..]) + rest;
      assert ItemTokens(items) + rest == Tokens(items[0]) + more;
      ScanValue(items[0], inner, more);
      forall x | x in items[1..] ensures x < j { assert x in items; }
      ScanItems(j, items[1..], inner, rest);
    }
  }

  lemma {:induction false} ScanMembers(j: Json, ms: seq<(string, Json)>, stack: seq<Frame>, names: seq<string>,
                                       rest: seq<Token>)
    requires forall m | m in ms :: m.1 < j
    ensures Scan(stack + [Frame(true, true, names)], MemberTokens(ms) + rest) ==
            Then(RepeatInMembers(ms, names), stack + [Frame(true, true, NamesOf(ms, names))], rest)
    decreases j, 0, |ms|
  {
    hide Lower, Seen, Tokens, FirstRepeat;
    if ms == [] {
      assert [] + rest == rest;
    } else {
      assert ms[0] in ms;
      var (name, v) := ms[0];
      var open := stack + [Frame(true, true, names)];
      var more := MemberTokens(ms[1..]) + rest;
      assert MemberTokens(ms) + rest == [Text(name)] + (Tokens(v) + more);
      ScanKey(stack, names, name, Tokens(v) + more);
      if !Seen(names, name) {
        var inner := stack + [Frame(true, false, names + [name])];
        ScanValue(v, inner, more);
        assert ValueDone(inner) == stack + [Frame(true, true, names + [name])];
        forall m | m in ms[1..] ensures m.1 < j { assert m in ms; }
        ScanMembers(j, ms[1..], stack, names + [name], rest);
      }
    }
  }

  lemma ScanKey(stack: seq<Frame>, names: seq<string>, name: string, rest: seq<Token>)
    ensures Scan(stack + [Frame(true, true, names)], [Text(name)] + rest) ==
            if Seen(names, name) then Repeated(Lower(name))
            else Scan(stack + [Frame(true, false, names + [name])], rest)
  {
    hide Lower, Seen;
    var open := stack + [Frame(true, true, names)];
    ScanStep(open, Text(name), rest);
    assert Top(open, Frame(true, false, names + [name])) == stack + [Frame(true, false, names + [name])];
  }

  lemma {:induction false} RepeatIsRepeat(j: Json)
    ensures FirstRepeat(j).Some? <==> HasRepeat(j)
    decreases j, 1
  {
    match j
    case JArr(items) =>
      RepeatInSomeItem(j, items);
    case JObj(ms) =>
      RepeatInSomeMember(j, ms, []);
    case _ =>
  }

  lemma {:induction false} RepeatInSomeItem(j: Json, items: seq<Json>)
    requires forall x | x in items :: x < j
    ensures RepeatInItems(items).Some? <==> exists i :: 0 <= i < |items| && HasRepeat(items[i])
    decreases j, 0, |items|
  {
    hide HasRepeat, FirstRepeat;
    if items != [] {
      assert items[0] in items;
      RepeatIsRepeat(items[0]);
      forall x | x in items[1..] ensures x < j { assert x in items; }
      RepeatInSomeItem(j, items[1..]);
      if exists i :: 0 <= i < |items| && HasRepeat(items[i]) {
        var i :| 0 <= i < |items| && HasRepeat(items[i]);
        if i > 0 { assert items[1..][i - 1] == items[i]; }
      }
    }
  }

  lemma {:induction false} RepeatInSomeMember(j: Json, ms: seq<(string, Json)>, names: seq<string>)
    requires forall m | m in ms :: m.1 < j
    ensures RepeatInMembers(ms, names).Some? <==>
            || (exists b :: 0 <= b < |ms| && Seen(names, ms[b].0))
            || (exists a, b :: 0 <= a < b < |ms| && EqualFold(ms[a].0, ms[b].0))
            || (exists i :: 0 <= i < |ms| && HasRepeat(ms[i].1))
    decreases j, 0, |ms|
  {
    hide HasRepeat, FirstRepeat, EqualFold, Lower;
    if ms != [] {
      assert ms[0] in ms;
      RepeatIsRepeat(ms[0].1);
      var tail := ms[1..];
      var more := names + [ms[0].0];
      forall m | m in tail ensures m.1 < j { assert m in ms; }
      RepeatInSomeMember(j, tail, more);
      forall b | 0 <= b < |tail|
        ensures Seen(more, tail[b].0) <==> Seen(names, tail[b].0) || EqualFold(ms[0].0, tail[b].0)
      {
        SeenAppend(names, ms[0].0, tail[b].0);
      }
      assert forall b | 0 <= b < |tail| :: tail[b] == ms[b + 1];
      assert forall b | 0 < b < |ms| :: ms[b] == tail[b - 1];
    }
  }

  lemma SeenAppend(names: seq<string>, last: string, name: string)
    ensures Seen(names + [last], name) <==> Seen(names, name) || EqualFold(last, name)
  {
    hide EqualFold;
    var all := names + [last];
    assert all[|names|] == last && forall i | 0 <= i < |names| :: all[i] == names[i];
  }

  /** The scan of a value's tokens reports a duplicate exactly when some object at some depth has two member
      names equal under case folding, and then names the first repeat in reading order. */
  lemma ScanFindsRepeats(j: Json)
    ensures HasRepeat(j) <==> FirstRepeat(j).Some?
    ensures Scan([], Tokens(j)) == if HasRepeat(j) then Repeated(FirstRepeat(j).value) else Clean
  {
    RepeatIsRepeat(j);
    ScanValue(j, [], []);
    assert Tokens(j) + [] == Tokens(j);
  }
}

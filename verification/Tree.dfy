/** Syntax trees and the RFC 6902 interpreter.
    A node is a literal, an object with its members in order, or an array, each with its layout extras. */
module Tree {
  import opened Base
  import opened Pointer

  // ---- trees with layout ----

  /** White space and comments. */
  type Extra = string

  /** A value with the extras around it. `after` is None unless a comma follows the value or it carries text. */
  datatype Node = Node(before: Extra, value: Value, after: Option<Extra>)

  datatype Value =
    | Null
    | Bool(b: bool)
    | Num(text: string)
    | Str(s: string)
    | Arr(elems: seq<Node>, close: Extra)
    | Obj(members: seq<Member>, close: Extra)

  datatype Member = Member(nameBefore: Extra, name: string, nameAfter: Extra, node: Node)

  // ---- values without layout ----

  /** Standard JSON: member order and duplicates as written. */
  datatype Json =
    | JNull
    | JBool(b: bool)
    | JNum(text: string)
    | JStr(s: string)
    | JArr(items: seq<Json>)
    | JObj(members: seq<(string, Json)>)

  /** The document without comments, layout and trailing commas. */
  function Std(n: Node): Json {
    match n.value
    case Null => JNull
    case Bool(b) => JBool(b)
    case Num(t) => JNum(t)
    case Str(s) => JStr(s)
    case Arr(elems, _) => JArr(seq(|elems|, i requires 0 <= i < |elems| => Std(elems[i])))
    case Obj(ms, _) => JObj(seq(|ms|, i requires 0 <= i < |ms| => (ms[i].name, Std(ms[i].node))))
  }

  function StdMembers(ms: seq<Member>): (r: seq<(string, Json)>)
    ensures |r| == |ms| && forall i | 0 <= i < |ms| :: r[i] == (ms[i].name, Std(ms[i].node))
  {
    seq(|ms|, i requires 0 <= i < |ms| => (ms[i].name, Std(ms[i].node)))
  }

  function StdElems(es: seq<Node>): (r: seq<Json>)
    ensures |r| == |es| && forall i | 0 <= i < |es| :: r[i] == Std(es[i])
  {
    seq(|es|, i requires 0 <= i < |es| => Std(es[i]))
  }

  lemma StdOfComposite(n: Node)
    ensures n.value.Obj? ==> Std(n) == JObj(StdMembers(n.value.members))
    ensures n.value.Arr? ==> Std(n) == JArr(StdElems(n.value.elems))
  {
  }

  // ---- members by name ----

  function Index(ms: seq<Member>, name: string): (r: Option<nat>)
    ensures r.Some? ==> r.value < |ms| && ms[r.value].name == name
    ensures r.Some? ==> forall i | 0 <= i < r.value :: ms[i].name != name
    ensures r.None? ==> forall i | 0 <= i < |ms| :: ms[i].name != name
  {
    if ms == [] then None
    else if ms[0].name == name then Some(0)
    else
      match Index(ms[1..], name)
      case None => None
      case Some(i) => Some(i + 1)
  }

  predicate UniqueNames(ms: seq<Member>) {
    forall i, j | 0 <= i < j < |ms| :: ms[i].name != ms[j].name
  }

  /** What decoding into a map keeps: the last value of each name. */
  function View<V>(ms: seq<(string, V)>): map<string, V> {
    if ms == [] then map[] else View(ms[..|ms| - 1])[ms[|ms| - 1].0 := ms[|ms| - 1].1]
  }

  lemma ViewStep<V>(ms: seq<(string, V)>, x: (string, V))
    ensures View(ms + [x]) == View(ms)[x.0 := x.1]
  {
    assert (ms + [x])[..|ms|] == ms;
  }

  lemma EmptyView<V>()
    ensures View<V>([]) == map[]
  {
  }

  lemma {:induction false} ViewKeys<V>(ms: seq<(string, V)>)
    ensures forall i | 0 <= i < |ms| :: ms[i].0 in View(ms)
    ensures forall k | k in View(ms) :: exists i :: 0 <= i < |ms| && ms[i].0 == k && ms[i].1 == View(ms)[k]
  {
    if ms != [] {
      var init := ms[..|ms| - 1];
      ViewKeys(init);
      var last := ms[|ms| - 1];
      assert View(ms) == View(init)[last.0 := last.1];
      forall k | k in View(ms)
        ensures exists i :: 0 <= i < |ms| && ms[i].0 == k && ms[i].1 == View(ms)[k]
      {
        if k != last.0 {
          assert k in View(init) && View(init)[k] == View(ms)[k];
          var i :| 0 <= i < |init| && init[i].0 == k && init[i].1 == View(init)[k];
          assert ms[i] == init[i];
        } else {
          assert ms[|ms| - 1].1 == View(ms)[k];
        }
      }
      forall i | 0 <= i < |ms| ensures ms[i].0 in View(ms) {
        if i < |init| { assert ms[i] == init[i]; }
      }
    }
  }

  lemma ViewAt(ms: seq<Member>, i: nat)
    requires UniqueNames(ms) && i < |ms|
    ensures ms[i].name in View(StdMembers(ms)) && View(StdMembers(ms))[ms[i].name] == Std(ms[i].node)
  {
    hide Std, View;
    var js := StdMembers(ms);
    ViewKeys(js);
    assert js[i].0 == ms[i].name;
    var j :| 0 <= j < |js| && js[j].0 == ms[i].name && js[j].1 == View(js)[ms[i].name];
    assert ms[j].name == ms[i].name;
  }

  lemma {:induction false} ViewOnlyMembers(ms: seq<Member>, k: string)
    requires k in View(StdMembers(ms))
    ensures Index(ms, k).Some?
  {
    hide Std, View, Index;
    var js := StdMembers(ms);
    ViewKeys(js);
    var j :| 0 <= j < |js| && js[j].0 == k && js[j].1 == View(js)[k];
    assert ms[j].name == k;
  }

  /** With unique names, the view holds exactly the members. */
  lemma {:induction false} ViewOfUnique(ms: seq<Member>)
    requires UniqueNames(ms)
    ensures forall k :: k in View(StdMembers(ms)) <==> Index(ms, k).Some?
    ensures forall k | k in View(StdMembers(ms)) :: View(StdMembers(ms))[k] == Std(ms[Index(ms, k).value].node)
  {
    hide Std, View, Index, StdMembers, UniqueNames;
    var v := View(StdMembers(ms));
    forall k
      ensures k in v <==> Index(ms, k).Some?
      ensures k in v ==> v[k] == Std(ms[Index(ms, k).value].node)
    {
      if Index(ms, k).Some? { ViewAt(ms, Index(ms, k).value); }
      if k in v { ViewOnlyMembers(ms, k); }
    }
  }

  /** The members whose names are outside a set, in document order. */
  function Others(ms: seq<Member>, touched: set<string>): seq<Member> {
    if ms == [] then []
    else (if ms[0].name in touched then [] else [ms[0]]) + Others(ms[1..], touched)
  }

  lemma {:induction false} OthersConcat(a: seq<Member>, b: seq<Member>, touched: set<string>)
    ensures Others(a + b, touched) == Others(a, touched) + Others(b, touched)
  {
    if a == [] {
      assert a + b == b;
    } else {
      assert (a + b)[1..] == a[1..] + b;
      OthersConcat(a[1..], b, touched);
    }
  }

  // ---- children ----

  /** The child a reference token selects (section 4 of RFC 6901). */
  function ChildIndex(v: Value, token: string): (r: Option<nat>)
    ensures r.Some? ==> r.value < Kids(v)
  {
    match v
    case Obj(ms, _) => Index(ms, token)
    case Arr(es, _) =>
      var i := ArrayIndex(token);
      if i.Some? && i.value < |es| then i else None
    case _ => None
  }

  function Kids(v: Value): nat {
    match v
    case Obj(ms, _) => |ms|
    case Arr(es, _) => |es|
    case _ => 0
  }

  function Kid(v: Value, i: nat): (n: Node)
    requires i < Kids(v)
    ensures n < v
  {
    match v
    case Obj(ms, _) => assert ms[i] < v; ms[i].node
    case Arr(es, _) => es[i]
  }

  function WithKid(v: Value, i: nat, n: Node): (w: Value)
    requires i < Kids(v)
    ensures Kids(w) == Kids(v) && Kid(w, i) == n
    ensures forall j | 0 <= j < Kids(v) && j != i :: Kid(w, j) == Kid(v, j)
    ensures w.Obj? == v.Obj?
  {
    match v
    case Obj(ms, close) => Obj(ms[i := ms[i].(node := n)], close)
    case Arr(es, close) => Arr(es[i := n], close)
  }

  lemma {:induction false} IndexIgnoresNodes(ms: seq<Member>, ms': seq<Member>, name: string)
    requires |ms| == |ms'| && forall i | 0 <= i < |ms| :: ms[i].name == ms'[i].name
    ensures Index(ms, name) == Index(ms', name)
  {
    if ms != [] { IndexIgnoresNodes(ms[1..], ms'[1..], name); }
  }

  lemma WithKidKeepsTokens(v: Value, i: nat, n: Node, token: string)
    requires i < Kids(v)
    ensures ChildIndex(WithKid(v, i, n), token) == ChildIndex(v, token)
  {
    if v.Obj? { IndexIgnoresNodes(v.members, WithKid(v, i, n).members, token); }
  }

  // ---- JSON Patch ----

  datatype Change = Add(node: Node) | Remove | Replace(node: Node)

  datatype Op = Op(change: Change, path: string)

  /** One operation on an object member (sections 4.1 to 4.3 of RFC 6902). */
  function EditObject(ms: seq<Member>, key: string, c: Change): Result<seq<Member>> {
    match (Index(ms, key), c)
    case (None, Add(n)) => Ok(ms + [Member("", key, "", n)])
    case (None, _) => Err("no such member")
    case (Some(i), Remove) => Ok(ms[..i] + ms[i + 1..])
    case (Some(i), _) => Ok(ms[i := ms[i].(node := c.node)])
  }

  /** One operation on an array element; "-" names the position after the last one. */
  function EditArray(es: seq<Node>, token: string, c: Change): Result<seq<Node>> {
    if token == "-" then (if c.Add? then Ok(es + [c.node]) else Err("no such element"))
    else
      match ArrayIndex(token)
      case None => Err("not an array index")
      case Some(i) =>
        match c
        case Add(n) => if i <= |es| then Ok(es[..i] + [n] + es[i..]) else Err("index out of range")
        case Remove => if i < |es| then Ok(es[..i] + es[i + 1..]) else Err("index out of range")
        case Replace(n) => if i < |es| then Ok(es[i := n]) else Err("index out of range")
  }

  function EditHere(n: Node, token: string, c: Change): Result<Node> {
    match n.value
    case Obj(ms, close) =>
      var ms' :- EditObject(ms, token, c);
      Ok(n.(value := Obj(ms', close)))
    case Arr(es, close) =>
      var es' :- EditArray(es, token, c);
      Ok(n.(value := Arr(es', close)))
    case _ => Err("not a container")
  }

  /** One operation at a path of reference tokens. */
  function ApplyAt(n: Node, path: seq<string>, c: Change): Result<Node>
    decreases |path|
  {
    if path == [] then (if c.Remove? then Err("cannot remove the root") else Ok(c.node))
    else if |path| == 1 then EditHere(n, path[0], c)
    else
      match ChildIndex(n.value, path[0])
      case None => Err("path not found")
      case Some(i) =>
        var kid :- ApplyAt(Kid(n.value, i), path[1..], c);
        Ok(n.(value := WithKid(n.value, i, kid)))
  }

  function ApplyOp(root: Node, op: Op): Result<Node> {
    match Tokens(op.path)
    case None => Err("malformed pointer")
    case Some(path) => ApplyAt(root, path, op.change)
  }

  /** The operations in order; the first failure aborts the patch (section 5 of RFC 6902). */
  function ApplyAll(root: Node, ops: seq<Op>): Result<Node>
    decreases |ops|
  {
    if ops == [] then Ok(root)
    else
      var next :- ApplyOp(root, ops[0]);
      ApplyAll(next, ops[1..])
  }

  lemma ApplyNothing(root: Node)
    ensures ApplyAll(root, []) == Ok(root)
  {
  }

  lemma {:induction false} ApplyConcat(root: Node, a: seq<Op>, b: seq<Op>)
    ensures ApplyAll(root, a + b) == match ApplyAll(root, a) case Err(e) => Err(e) case Ok(r) => ApplyAll(r, b)
    decreases |a|
  {
    if a == [] {
      assert a + b == b;
    } else {
      assert (a + b)[0] == a[0] && (a + b)[1..] == a[1..] + b;
      match ApplyOp(root, a[0])
      case Err(_) =>
      case Ok(next) => ApplyConcat(next, a[1..], b);
    }
  }

  // ---- working below a pointer ----

  /** The value at a path. */
  function Get(n: Node, path: seq<string>): Option<Node>
    decreases |path|
  {
    if path == [] then Some(n)
    else
      var i :- ChildIndex(n.value, path[0]);
      Get(Kid(n.value, i), path[1..])
  }

  /** The tree with the value at an existing path exchanged. */
  function Put(n: Node, path: seq<string>, x: Node): Node
    requires Get(n, path).Some?
    decreases |path|
  {
    if path == [] then x
    else
      var i := ChildIndex(n.value, path[0]).value;
      n.(value := WithKid(n.value, i, Put(Kid(n.value, i), path[1..], x)))
  }

  lemma {:induction false} GetPut(n: Node, path: seq<string>, x: Node, y: Node)
    requires Get(n, path).Some?
    ensures Get(Put(n, path, x), path) == Some(x)
    ensures Put(Put(n, path, x), path, y) == Put(n, path, y)
    decreases |path|
  {
    if path != [] {
      var i := ChildIndex(n.value, path[0]).value;
      var kid := Put(Kid(n.value, i), path[1..], x);
      WithKidKeepsTokens(n.value, i, kid, path[0]);
      GetPut(Kid(n.value, i), path[1..], x, y);
    }
  }

  lemma {:induction false} PutSame(n: Node, path: seq<string>, x: Node)
    requires Get(n, path) == Some(x)
    ensures Put(n, path, x) == n
    decreases |path|
  {
    if path != [] {
      var i := ChildIndex(n.value, path[0]).value;
      PutSame(Kid(n.value, i), path[1..], x);
    }
  }

  lemma {:induction false} PutSteps(n: Node, path: seq<string>, rest: seq<string>, x: Node)
    requires Get(n, path).Some? && Get(Get(n, path).value, rest).Some?
    ensures Get(n, path + rest) == Get(Get(n, path).value, rest)
    ensures Put(n, path + rest, x) == Put(n, path, Put(Get(n, path).value, rest, x))
    decreases |path|
  {
    if path == [] {
      assert path + rest == rest;
    } else {
      assert (path + rest)[0] == path[0] && (path + rest)[1..] == path[1..] + rest;
      PutSteps(Kid(n.value, ChildIndex(n.value, path[0]).value), path[1..], rest, x);
    }
  }

  lemma {:induction false} ApplyBelow(n: Node, path: seq<string>, key: string, c: Change)
    requires Get(n, path).Some?
    ensures ApplyAt(n, path + [key], c) ==
            match EditHere(Get(n, path).value, key, c) case Err(e) => Err(e) case Ok(x) => Ok(Put(n, path, x))
    decreases |path|
  {
    if path == [] {
      assert path + [key] == [key];
    } else {
      assert (path + [key])[0] == path[0] && (path + [key])[1..] == path[1..] + [key];
      ApplyBelow(Kid(n.value, ChildIndex(n.value, path[0]).value), path[1..], key, c);
    }
  }

  /** An operation on one child of the container a patch works in. */
  datatype ChildEdit = ChildEdit(token: string, change: Change)

  function At(base: string, edits: seq<ChildEdit>): (ops: seq<Op>)
    ensures |ops| == |edits| && forall i | 0 <= i < |ops| :: ops[i] == Op(edits[i].change, Child(base, edits[i].token))
  {
    seq(|edits|, i requires 0 <= i < |edits| => Op(edits[i].change, Child(base, edits[i].token)))
  }

  function RunHere(n: Node, edits: seq<ChildEdit>): Result<Node>
    decreases |edits|
  {
    if edits == [] then Ok(n)
    else
      var next :- EditHere(n, edits[0].token, edits[0].change);
      RunHere(next, edits[1..])
  }

  lemma {:induction false} RunHereConcat(n: Node, a: seq<ChildEdit>, b: seq<ChildEdit>)
    ensures RunHere(n, a + b) == match RunHere(n, a) case Err(e) => Err(e) case Ok(m) => RunHere(m, b)
    decreases |a|
  {
    if a == [] {
      assert a + b == b;
    } else {
      assert (a + b)[0] == a[0] && (a + b)[1..] == a[1..] + b;
      match EditHere(n, a[0].token, a[0].change)
      case Err(_) =>
      case Ok(next) => RunHereConcat(next, a[1..], b);
    }
  }

  /** Operations below one pointer act on the container at that pointer alone, and fail exactly when they fail
      there. */
  lemma {:induction false} RunBelow(root: Node, base: string, path: seq<string>, edits: seq<ChildEdit>)
    requires Tokens(base) == Some(path) && Get(root, path).Some?
    ensures ApplyAll(root, At(base, edits)) ==
            match RunHere(Get(root, path).value, edits) case Err(e) => Err(e) case Ok(x) => Ok(Put(root, path, x))
    decreases |edits|
  {
    var x := Get(root, path).value;
    if edits == [] {
      PutSame(root, path, x);
    } else {
      var e := edits[0];
      TokensOfChild(base, e.token);
      ApplyBelow(root, path, e.token, e.change);
      match EditHere(x, e.token, e.change)
      case Err(_) =>
      case Ok(y) =>
        var root1 := Put(root, path, y);
        assert ApplyOp(root, At(base, edits)[0]) == Ok(root1);
        GetPut(root, path, y, y);
        assert At(base, edits)[1..] == At(base, edits[1..]);
        RunBelow(root1, base, path, edits[1..]);
        match RunHere(y, edits[1..])
        case Err(_) =>
        case Ok(z) => GetPut(root, path, y, z);
    }
  }
}

/** The members of an object by name, repeated names included (internal/aclmodel/model.go, internal/aclmodel/patch.go).
    A patch addresses the first member of a name, decoding reads the last one. */
module Names {
  import opened Base
  import opened Tree

  // ---- the first ----

  /** The node of the first member with a name. */
  function MemberOf(ms: seq<Member>, name: string): Option<Node> {
    match Index(ms, name)
    case None => None
    case Some(i) => Some(ms[i].node)
  }

  lemma IndexAppend(ms: seq<Member>, m: Member, name: string)
    ensures Index(ms + [m], name) ==
            if Index(ms, name).Some? then Index(ms, name) else if m.name == name then Some(|ms|) else None
  {
    var all := ms + [m];
    assert all[|ms|] == m && forall i | 0 <= i < |ms| :: all[i] == ms[i];
    if Index(ms, name).Some? {
      assert all[Index(ms, name).value].name == name;
    }
  }

  // ---- all of them ----

  /** The nodes of all members with a name, in order. */
  function Named(ms: seq<Member>, name: string): seq<Node> {
    if ms == [] then []
    else
      var last := ms[|ms| - 1];
      Named(ms[..|ms| - 1], name) + if last.name == name then [last.node] else []
  }

  lemma {:induction false} NamedConcat(a: seq<Member>, b: seq<Member>, name: string)
    ensures Named(a + b, name) == Named(a, name) + Named(b, name)
  {
    if b == [] {
      assert a + b == a;
    } else {
      NamedConcat(a, b[..|b| - 1], name);
      assert (a + b)[..|a + b| - 1] == a + b[..|b| - 1];
    }
  }

  lemma {:induction false} NoneNamed(ms: seq<Member>, name: string)
    requires forall i | 0 <= i < |ms| :: ms[i].name != name
    ensures Named(ms, name) == []
  {
    if ms != [] { NoneNamed(ms[..|ms| - 1], name); }
  }

  lemma NamedOne(m: Member, name: string)
    ensures Named([m], name) == if m.name == name then [m.node] else []
  {
    assert [m][..0] == [];
  }

  /** The member an operation addresses is the first of its name. */
  lemma NamedSplits(ms: seq<Member>, i: nat, x: string)
    requires i < |ms|
    ensures Named(ms, x) == Named(ms[..i], x) + (if ms[i].name == x then [ms[i].node] else []) + Named(ms[i + 1..], x)
  {
    assert ms == ms[..i] + [ms[i]] + ms[i + 1..];
    NamedConcat(ms[..i] + [ms[i]], ms[i + 1..], x);
    NamedConcat(ms[..i], [ms[i]], x);
    NamedOne(ms[i], x);
  }

  /** The node that decoding reads. */
  function LastOf(ms: seq<Member>, name: string): Option<Node> {
    var ns := Named(ms, name);
    if ns == [] then None else Some(ns[|ns| - 1])
  }

  predicate Has(ms: seq<Member>, name: string) { Named(ms, name) != [] }

  lemma FirstNamed(ms: seq<Member>, name: string)
    ensures MemberOf(ms, name) == if Named(ms, name) == [] then None else Some(Named(ms, name)[0])
  {
    match Index(ms, name)
    case None => NoneNamed(ms, name);
    case Some(i) => FirstOfNamed(ms, i);
  }

  /** Decoding reads the last member of each name. */
  lemma {:induction false} ViewReadsLast(ms: seq<Member>, name: string)
    ensures name in View(StdMembers(ms)) <==> LastOf(ms, name).Some?
    ensures LastOf(ms, name).Some? ==> View(StdMembers(ms))[name] == Std(LastOf(ms, name).value)
  {
    hide Std, View;
    if ms == [] {
      EmptyView<Json>();
      assert StdMembers(ms) == [];
    } else {
      var init, last := ms[..|ms| - 1], ms[|ms| - 1];
      ViewReadsLast(init, name);
      ViewStep(StdMembers(init), (last.name, Std(last.node)));
      assert StdMembers(ms) == StdMembers(init) + [(last.name, Std(last.node))];
    }
  }

  /** Names are unique exactly when each has at most one member. */
  lemma {:induction false} UniqueByName(ms: seq<Member>)
    ensures UniqueNames(ms) <==> forall k :: |Named(ms, k)| <= 1
  {
    hide Named;
    if UniqueNames(ms) {
      forall k ensures |Named(ms, k)| <= 1 { UniqueIsOnce(ms, k); }
    } else {
      var i, j :| 0 <= i < j < |ms| && ms[i].name == ms[j].name;
      var k := ms[i].name;
      NamedSplits(ms, i, k);
      NamedSplits(ms[i + 1..], j - i - 1, k);
      assert |Named(ms, k)| >= 2;
    }
  }

  lemma UniqueIsOnce(ms: seq<Member>, k: string)
    requires UniqueNames(ms)
    ensures |Named(ms, k)| <= 1
  {
    hide Named;
    match Index(ms, k)
    case None => NoneNamed(ms, k);
    case Some(i) =>
      FirstOfNamed(ms, i);
      NoneNamed(ms[i + 1..], k);
  }

  function NewNode(c: Change): Option<Node> { if c.Remove? then None else Some(c.node) }

  /** What an operation on a name does to the members of that name: the first gives way to the new node, if any. */
  function EditFirst(ns: seq<Node>, put: Option<Node>): seq<Node> {
    (if put.None? then [] else [put.value]) + if ns == [] then [] else ns[1..]
  }

  lemma ReplaceNamed(ms: seq<Member>, i: nat, n: Node, x: string)
    requires i < |ms|
    ensures Named(ms[i := ms[i].(node := n)], x) ==
            Named(ms[..i], x) + (if ms[i].name == x then [n] else []) + Named(ms[i + 1..], x)
  {
    hide Named;
    var out := ms[i := ms[i].(node := n)];
    assert out[..i] == ms[..i] && out[i + 1..] == ms[i + 1..];
    NamedSplits(out, i, x);
  }

  lemma AddNamed(ms: seq<Member>, m: Member, x: string)
    requires Index(ms, m.name).None?
    ensures Named(ms + [m], x) == if x == m.name then [m.node] else Named(ms, x)
  {
    hide Named;
    NoneNamed(ms, m.name);
    NamedConcat(ms, [m], x);
    NamedOne(m, x);
    assert Named(ms, x) + [] == Named(ms, x);
  }

  lemma FirstOfNamed(ms: seq<Member>, i: nat)
    requires i < |ms| && Index(ms, ms[i].name) == Some(i)
    ensures Named(ms, ms[i].name) == [ms[i].node] + Named(ms[i + 1..], ms[i].name)
    ensures Named(ms[..i], ms[i].name) == []
  {
    hide Named, Index;
    NoneNamed(ms[..i], ms[i].name);
    NamedSplits(ms, i, ms[i].name);
  }

  lemma EditNamed(ms: seq<Member>, key: string, c: Change, x: string)
    requires EditObject(ms, key, c).Ok?
    ensures Named(EditObject(ms, key, c).value, x) ==
            if x == key then EditFirst(Named(ms, x), NewNode(c)) else Named(ms, x)
  {
    hide Named, Index;
    match Index(ms, key)
    case None =>
      AddNamed(ms, Member("", key, "", c.node), x);
      NoneNamed(ms, key);
    case Some(i) =>
      FirstOfNamed(ms, i);
      NamedSplits(ms, i, x);
      var front, back := Named(ms[..i], x), Named(ms[i + 1..], x);
      if c.Remove? { NamedConcat(ms[..i], ms[i + 1..], x); } else { ReplaceNamed(ms, i, c.node, x); }
      if x != key { assert front + [] == front; }
  }

  // ---- the others ----

  lemma OthersSet(ms: seq<Member>, i: nat, n: Node, touched: set<string>)
    requires i < |ms| && ms[i].name in touched
    ensures Others(ms[i := ms[i].(node := n)], touched) == Others(ms, touched)
  {
    var m := ms[i].(node := n);
    assert ms == ms[..i] + [ms[i]] + ms[i + 1..];
    assert ms[i := m] == ms[..i] + [m] + ms[i + 1..];
    OthersConcat(ms[..i] + [ms[i]], ms[i + 1..], touched);
    OthersConcat(ms[..i], [ms[i]], touched);
    OthersConcat(ms[..i] + [m], ms[i + 1..], touched);
    OthersConcat(ms[..i], [m], touched);
  }

  lemma OthersRemove(ms: seq<Member>, i: nat, touched: set<string>)
    requires i < |ms| && ms[i].name in touched
    ensures Others(ms[..i] + ms[i + 1..], touched) == Others(ms, touched)
  {
    assert ms == ms[..i] + [ms[i]] + ms[i + 1..];
    OthersConcat(ms[..i] + [ms[i]], ms[i + 1..], touched);
    OthersConcat(ms[..i], [ms[i]], touched);
    OthersConcat(ms[..i], ms[i + 1..], touched);
  }

  /** An operation on one member leaves all other members as they are, in their order. */
  lemma EditKeepsOthers(ms: seq<Member>, key: string, c: Change, touched: set<string>)
    requires key in touched && EditObject(ms, key, c).Ok?
    ensures Others(EditObject(ms, key, c).value, touched) == Others(ms, touched)
  {
    match Index(ms, key)
    case None => OthersConcat(ms, [Member("", key, "", c.node)], touched);
    case Some(i) => if c.Remove? { OthersRemove(ms, i, touched); } else { OthersSet(ms, i, c.node, touched); }
  }
}

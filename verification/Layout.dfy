/** What a layout pass may change in a tree (internal/aclmodel/patch.go, "layout tidying"). */
module Layout {
  import opened Base
  import opened Text
  import opened Pointer
  import opened Tree
  import opened Plan

  /** A planned patch: its operations, and per container pointer whether the last child had a trailing
      comma and whether the container was empty before patching. */
  datatype Patch = Patch(ops: seq<Op>, trailing: map<string, bool>, wasEmpty: map<string, bool>)

  function Flag(m: map<string, bool>, ptr: string): bool { ptr in m && m[ptr] }

  function ParentOf(op: Op): string
    requires '/' in op.path
  {
    SplitPointer(op.path).0
  }

  /** An add or replace operation addresses this path. */
  ghost predicate Addressed(p: Patch, path: seq<string>) {
    exists op | op in p.ops ::
      !op.change.Remove? && '/' in op.path && Tokens(ParentOf(op)).Some? &&
      Tokens(ParentOf(op)).value + [SplitPointer(op.path).1] == path
  }

  /** Some operation works directly in the container at this path, for whose pointer `flags` is set. */
  ghost predicate TouchedWith(p: Patch, flags: map<string, bool>, path: seq<string>) {
    path != [] && exists op | op in p.ops ::
      '/' in op.path && Flag(flags, ParentOf(op)) && Tokens(ParentOf(op)) == Some(path)
  }

  /** An extra may gain a line break and indentation, but only where it had none and `may` allows it. */
  predicate Indented(a: Extra, b: Extra, may: bool) {
    a == b || (may && IndentOf(a).None? && IndentOf(b).Some?)
  }

  predicate Gap(a: Extra, b: Extra, may: bool) { a == b || (may && a == "" && b == " ") }

  predicate Trailed(a: Option<Extra>, b: Option<Extra>, may: bool) { a == b || (may && a == None && b == Some("")) }

  // ---- indentation ----

  function FirstMemberIndent(ms: seq<Member>): (r: Option<string>)
    ensures r.Some? ==> IsIndent(r.value)
  {
    if ms == [] then None
    else if IndentOf(ms[0].nameBefore).Some? then IndentOf(ms[0].nameBefore)
    else FirstMemberIndent(ms[1..])
  }

  function FirstElemIndent(es: seq<Node>): (r: Option<string>)
    ensures r.Some? ==> IsIndent(r.value)
  {
    if es == [] then None
    else if IndentOf(es[0].before).Some? then IndentOf(es[0].before)
    else FirstElemIndent(es[1..])
  }

  /** The indentation of the first child on a line of its own. */
  function ChildIndent(v: Value): (r: Option<string>)
    ensures r.Some? ==> IsIndent(r.value)
  {
    match v
    case Obj(ms, _) => FirstMemberIndent(ms)
    case Arr(es, _) => FirstElemIndent(es)
    case _ => None
  }

  /** The extra in front of a child. */
  function Lead(v: Value, i: nat): Extra
    requires i < Kids(v)
  {
    match v
    case Obj(ms, _) => ms[i].nameBefore
    case Arr(es, _) => es[i].before
  }

  /** A child that gained a line break is indented like the first child on a line of its own, whose indentation
      stays. */
  predicate Aligned(v: Value, w: Value)
    requires Kids(w) == Kids(v)
  {
    && (ChildIndent(v).Some? ==> ChildIndent(w) == ChildIndent(v))
    && forall i | 0 <= i < Kids(v) ::
         Lead(w, i) == Lead(v, i) || (ChildIndent(w).Some? && IndentOf(Lead(w, i)) == ChildIndent(w))
  }

  lemma {:induction false} SameMemberLeads(ms: seq<Member>, ns: seq<Member>)
    requires |ms| == |ns| && forall i | 0 <= i < |ms| :: ms[i].nameBefore == ns[i].nameBefore
    ensures FirstMemberIndent(ms) == FirstMemberIndent(ns)
  {
    hide IndentOf;
    if ms != [] { SameMemberLeads(ms[1..], ns[1..]); }
  }

  lemma {:induction false} SameElemLeads(es: seq<Node>, fs: seq<Node>)
    requires |es| == |fs| && forall i | 0 <= i < |es| :: es[i].before == fs[i].before
    ensures FirstElemIndent(es) == FirstElemIndent(fs)
  {
    hide IndentOf;
    if es != [] { SameElemLeads(es[1..], fs[1..]); }
  }

  /** Children that keep their leads are aligned. */
  lemma SameLeads(v: Value, w: Value)
    requires (v.Obj? && w.Obj?) || (v.Arr? && w.Arr?)
    requires Kids(v) == Kids(w) && forall i | 0 <= i < Kids(v) :: Lead(v, i) == Lead(w, i)
    ensures Aligned(v, w)
  {
    hide IndentOf;
    if v.Obj? {
      forall i | 0 <= i < |v.members| ensures v.members[i].nameBefore == w.members[i].nameBefore {
        assert Lead(v, i) == Lead(w, i);
      }
      SameMemberLeads(v.members, w.members);
    } else {
      forall i | 0 <= i < |v.elems| ensures v.elems[i].before == w.elems[i].before { assert Lead(v, i) == Lead(w, i); }
      SameElemLeads(v.elems, w.elems);
    }
  }

  // ---- what may change ----

  /** b is a but for layout within it: every name, value and order is the same, and an extra differs only before a
      node that an add or replace operation addresses, where the new indentation is the siblings', in the
      trailing-comma marker of a touched container's last child, or before the closing bracket of a container that
      was empty. The extras around a and b themselves are their container's matter. */
  ghost predicate Tidied(a: Node, b: Node, path: seq<string>, p: Patch)
    decreases a
  {
    match (a.value, b.value)
    case (Obj(ms, ca), Obj(ns, cb)) =>
      && |ms| == |ns| && Aligned(a.value, b.value)
      && Indented(ca, cb, TouchedWith(p, p.wasEmpty, path))
      && (forall i {:trigger ms[i]} {:trigger ns[i]} | 0 <= i < |ms| ::
            TidiedMember(ms[i], ns[i], path, p, i == |ms| - 1 && TouchedWith(p, p.trailing, path)))
      && (forall i {:trigger ms[i]} {:trigger ns[i]} | 0 <= i < |ms| ::
          Tidied(ms[i].node, ns[i].node, path + [ms[i].name], p))
    case (Arr(es, ca), Arr(fs, cb)) =>
      && |es| == |fs| && Aligned(a.value, b.value)
      && Indented(ca, cb, TouchedWith(p, p.wasEmpty, path))
      && (forall i {:trigger es[i]} {:trigger fs[i]} | 0 <= i < |es| ::
            TidiedElem(es[i], fs[i], path, i, p, i == |es| - 1 && TouchedWith(p, p.trailing, path)))
      && (forall i {:trigger es[i]} {:trigger fs[i]} | 0 <= i < |es| :: Tidied(es[i], fs[i], path + [Decimal(i)], p))
    case _ => a.value == b.value && !a.value.Obj? && !a.value.Arr?
  }

  ghost predicate TidiedMember(m: Member, n: Member, path: seq<string>, p: Patch, last: bool) {
    && m.name == n.name && m.nameAfter == n.nameAfter
    && Indented(m.nameBefore, n.nameBefore, Addressed(p, path + [m.name]))
    && Gap(m.node.before, n.node.before, Addressed(p, path + [m.name]))
    && Trailed(m.node.after, n.node.after, last)
  }

  ghost predicate TidiedElem(e: Node, f: Node, path: seq<string>, i: nat, p: Patch, last: bool) {
    && Indented(e.before, f.before, Addressed(p, path + [Decimal(i)]))
    && Trailed(e.after, f.after, last)
  }

  lemma {:induction false} TidiedReflexive(a: Node, path: seq<string>, p: Patch)
    ensures Tidied(a, a, path, p)
    decreases a
  {
    match a.value
    case Obj(ms, _) =>
      forall i | 0 <= i < |ms| ensures Tidied(ms[i].node, ms[i].node, path + [ms[i].name], p) {
        TidiedReflexive(ms[i].node, path + [ms[i].name], p);
      }
    case Arr(es, _) =>
      forall i | 0 <= i < |es| ensures Tidied(es[i], es[i], path + [Decimal(i)], p) {
        TidiedReflexive(es[i], path + [Decimal(i)], p);
      }
    case _ =>
  }

  lemma AlignedTransitive(u: Value, v: Value, w: Value)
    requires Kids(u) == Kids(v) == Kids(w) && (u.Obj? || u.Arr? ==> Aligned(u, v) && Aligned(v, w))
    ensures u.Obj? || u.Arr? ==> Aligned(u, w)
  {
    hide IndentOf, ChildIndent;
  }

  lemma {:induction false} TidiedTransitive(a: Node, b: Node, c: Node, path: seq<string>, p: Patch)
    requires Tidied(a, b, path, p) && Tidied(b, c, path, p)
    ensures Tidied(a, c, path, p)
    decreases a, 1
  {
    hide IndentOf, Addressed, TouchedWith, Aligned;
    match a.value
    case Obj(_, _) => TidiedObjects(a, b, c, path, p);
    case Arr(_, _) => TidiedArrays(a, b, c, path, p);
    case _ =>
  }

  lemma {:induction false} TidiedObjects(a: Node, b: Node, c: Node, path: seq<string>, p: Patch)
    requires a.value.Obj? && Tidied(a, b, path, p) && Tidied(b, c, path, p)
    ensures Tidied(a, c, path, p)
    decreases a, 0
  {
    hide IndentOf, Addressed, TouchedWith, Aligned;
    AlignedTransitive(a.value, b.value, c.value);
    var ms, ns, os := a.value.members, b.value.members, c.value.members;
    forall i | 0 <= i < |ms|
      ensures TidiedMember(ms[i], os[i], path, p, i == |ms| - 1 && TouchedWith(p, p.trailing, path))
      ensures Tidied(ms[i].node, os[i].node, path + [ms[i].name], p)
    {
      assert TidiedMember(ms[i], ns[i], path, p, i == |ms| - 1 && TouchedWith(p, p.trailing, path));
      assert TidiedMember(ns[i], os[i], path, p, i == |ms| - 1 && TouchedWith(p, p.trailing, path));
      TidiedTransitive(ms[i].node, ns[i].node, os[i].node, path + [ms[i].name], p);
    }
  }

  lemma {:induction false} TidiedArrays(a: Node, b: Node, c: Node, path: seq<string>, p: Patch)
    requires a.value.Arr? && Tidied(a, b, path, p) && Tidied(b, c, path, p)
    ensures Tidied(a, c, path, p)
    decreases a, 0
  {
    hide IndentOf, Addressed, TouchedWith, Aligned;
    AlignedTransitive(a.value, b.value, c.value);
    var es, fs, gs := a.value.elems, b.value.elems, c.value.elems;
    forall i | 0 <= i < |es|
      ensures TidiedElem(es[i], gs[i], path, i, p, i == |es| - 1 && TouchedWith(p, p.trailing, path))
      ensures Tidied(es[i], gs[i], path + [Decimal(i)], p)
    {
      assert TidiedElem(es[i], fs[i], path, i, p, i == |es| - 1 && TouchedWith(p, p.trailing, path));
      assert TidiedElem(fs[i], gs[i], path, i, p, i == |es| - 1 && TouchedWith(p, p.trailing, path));
      TidiedTransitive(es[i], fs[i], gs[i], path + [Decimal(i)], p);
    }
  }

  /** Tidying changes no value. */
  lemma {:induction false} TidiedKeepsValues(a: Node, b: Node, path: seq<string>, p: Patch)
    requires Tidied(a, b, path, p)
    ensures Std(a) == Std(b)
    decreases a
  {
    hide IndentOf, Addressed, TouchedWith;
    StdOfComposite(a);
    StdOfComposite(b);
    match a.value
    case Obj(ms, _) =>
      var ns := b.value.members;
      forall i | 0 <= i < |ms| ensures StdMembers(ms)[i] == StdMembers(ns)[i] {
        assert TidiedMember(ms[i], ns[i], path, p, i == |ms| - 1 && TouchedWith(p, p.trailing, path));
        TidiedKeepsValues(ms[i].node, ns[i].node, path + [ms[i].name], p);
      }
      assert StdMembers(ms) == StdMembers(ns);
    case Arr(es, _) =>
      var fs := b.value.elems;
      forall i | 0 <= i < |es| ensures StdElems(es)[i] == StdElems(fs)[i] {
        TidiedKeepsValues(es[i], fs[i], path + [Decimal(i)], p);
      }
      assert StdElems(es) == StdElems(fs);
    case _ =>
  }

  /** The token of the child at a position. */
  function TokenOf(v: Value, i: nat): string
    requires i < Kids(v)
  {
    match v
    case Obj(ms, _) => ms[i].name
    case Arr(_, _) => Decimal(i)
  }

  lemma ChildToken(v: Value, token: string)
    requires ChildIndex(v, token).Some?
    ensures TokenOf(v, ChildIndex(v, token).value) == token
  {
    if v.Arr? { DecimalUndoesNumber(token); }
  }

  lemma TidiedKid(a: Node, b: Node, path: seq<string>, p: Patch, i: nat)
    requires Tidied(a, b, path, p) && i < Kids(a.value)
    ensures Kids(b.value) == Kids(a.value) && TokenOf(b.value, i) == TokenOf(a.value, i)
    ensures Tidied(Kid(a.value, i), Kid(b.value, i), path + [TokenOf(a.value, i)], p)
  {
    if a.value.Obj? {
      assert TidiedMember(a.value.members[i], b.value.members[i], path, p,
                          i == |a.value.members| - 1 && TouchedWith(p, p.trailing, path));
    }
  }

  lemma TidiedSameIndex(a: Node, b: Node, path: seq<string>, p: Patch, token: string)
    requires Tidied(a, b, path, p)
    ensures ChildIndex(b.value, token) == ChildIndex(a.value, token)
  {
    if a.value.Obj? {
      var ms, ns := a.value.members, b.value.members;
      forall i | 0 <= i < |ms| ensures ms[i].name == ns[i].name {
        assert TidiedMember(ms[i], ns[i], path, p, i == |ms| - 1 && TouchedWith(p, p.trailing, path));
      }
      IndexIgnoresNodes(ms, ns, token);
    }
  }

  /** Tidied trees have the same paths, with tidied nodes at them. */
  lemma {:induction false} TidiedGet(a: Node, b: Node, path: seq<string>, rest: seq<string>, p: Patch)
    requires Tidied(a, b, path, p)
    ensures Get(a, rest).Some? <==> Get(b, rest).Some?
    ensures Get(a, rest).Some? ==> Tidied(Get(a, rest).value, Get(b, rest).value, path + rest, p)
    decreases |rest|
  {
    if rest == [] {
      assert path + rest == path;
    } else {
      TidiedSameIndex(a, b, path, p, rest[0]);
      if ChildIndex(a.value, rest[0]).Some? {
        var i := ChildIndex(a.value, rest[0]).value;
        ChildToken(a.value, rest[0]);
        TidiedKid(a, b, path, p, i);
        TidiedGet(Kid(a.value, i), Kid(b.value, i), path + [rest[0]], rest[1..], p);
        assert path + [rest[0]] + rest[1..] == path + rest;
      }
    }
  }

  lemma PutKidTidied(a: Node, i: nat, x: Node, path: seq<string>, p: Patch)
    requires i < Kids(a.value) && Tidied(Kid(a.value, i), x, path + [TokenOf(a.value, i)], p)
    requires x.before == Kid(a.value, i).before && x.after == Kid(a.value, i).after
    ensures Tidied(a, a.(value := WithKid(a.value, i, x)), path, p)
  {
    hide IndentOf, Addressed, TouchedWith, Aligned;
    SameLeads(a.value, WithKid(a.value, i, x));
    if a.value.Obj? {
      var ms := a.value.members;
      forall j | 0 <= j < |ms| && j != i ensures Tidied(ms[j].node, ms[j].node, path + [ms[j].name], p) {
        TidiedReflexive(ms[j].node, path + [ms[j].name], p);
      }
    } else {
      var es := a.value.elems;
      forall j | 0 <= j < |es| && j != i ensures Tidied(es[j], es[j], path + [Decimal(j)], p) {
        TidiedReflexive(es[j], path + [Decimal(j)], p);
      }
    }
  }

  /** Exchanging one container for a tidied one tidies the tree. */
  lemma {:induction false} PutTidied(a: Node, path: seq<string>, rest: seq<string>, x: Node, p: Patch)
    requires Get(a, rest).Some? && Tidied(Get(a, rest).value, x, path + rest, p)
    requires x.before == Get(a, rest).value.before && x.after == Get(a, rest).value.after
    ensures Tidied(a, Put(a, rest, x), path, p)
    ensures Put(a, rest, x).before == a.before && Put(a, rest, x).after == a.after
    decreases |rest|
  {
    if rest == [] {
      assert path + rest == path;
    } else {
      var i := ChildIndex(a.value, rest[0]).value;
      ChildToken(a.value, rest[0]);
      assert path + [rest[0]] + rest[1..] == path + rest;
      PutTidied(Kid(a.value, i), path + [rest[0]], rest[1..], x, p);
      PutKidTidied(a, i, Put(Kid(a.value, i), rest[1..], x), path, p);
    }
  }
}

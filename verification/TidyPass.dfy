/** The layout pass itself (internal/aclmodel/patch.go).
    How one inserted node is put on a line of its own with its siblings' indentation, how one touched container
    gets back its trailing comma and its closing line, and why either step keeps every value and moves nothing
    but the extras it may. */
module TidyPass {
  import opened Base
  import opened Text
  import opened Pointer
  import opened Tree
  import opened Plan
  import opened Layout

  // ---- reading indentation ----

  /** The indentation of a container's children, or the fallback when none is on a line of its own. */
  function SiblingIndent(c: Node, fallback: string): (r: string)
    requires IsIndent(fallback)
    ensures IsIndent(r)
  {
    ChildIndent(c.value).GetOr(fallback)
  }

  /** The value at a pointer; "" is the root. */
  function Container(root: Node, ptr: string): Option<Node> {
    var path :- Tokens(ptr);
    Get(root, path)
  }

  function KeyIndent(ms: seq<Member>, key: string): (r: Option<string>)
    ensures r.Some? ==> IsIndent(r.value)
  {
    if ms == [] then None
    else if ms[0].name == key && IndentOf(ms[0].nameBefore).Some? then IndentOf(ms[0].nameBefore)
    else KeyIndent(ms[1..], key)
  }

  function IndentAt(c: Option<Node>, key: string): (r: Option<string>)
    ensures r.Some? ==> IsIndent(r.value)
  {
    if c.None? then None
    else
      match c.value.value
      case Obj(ms, _) => KeyIndent(ms, key)
      case Arr(es, _) =>
        var i := ArrayIndex(key);
        if i.Some? && i.value < |es| then IndentOf(es[i.value].before) else None
      case _ => None
  }

  /** The indentation of the line on which the value at a pointer starts. */
  function OwnIndent(root: Node, ptr: string, unit: string): (r: string)
    requires IsIndent(unit)
    ensures IsIndent(r)
    decreases |ptr|
  {
    if '/' !in ptr then ""
    else
      var (parent, key) := SplitPointer(ptr);
      match IndentAt(Container(root, parent), key)
      case Some(ind) => ind
      case None => OwnIndent(root, parent, unit) + unit
  }

  // ---- writing layout ----

  lemma FreshIndent(ind: string)
    requires IsIndent(ind)
    ensures IndentOf("\n" + ind) == Some(ind)
  {
    LastIndexOfTail("", '\n', ind);
    assert "" + ['\n'] + ind == "\n" + ind && ("\n" + ind)[1..] == ind;
  }

  function Broken(extra: Extra, ind: string): (r: Extra)
    requires IsIndent(ind)
    ensures Indented(extra, r, true) && IndentOf(r).Some?
  {
    FreshIndent(ind);
    if IndentOf(extra).Some? then extra else "\n" + ind
  }

  /** The new child of an object on its own line, one space before its value. */
  function FixMember(m: Member, key: string, ind: string): Member
    requires IsIndent(ind)
  {
    if m.name != key then m
    else m.(nameBefore := Broken(m.nameBefore, ind),
            node := m.node.(before := if m.node.before == "" then " " else m.node.before))
  }

  function FixMembers(ms: seq<Member>, key: string, ind: string): (r: seq<Member>)
    requires IsIndent(ind)
    ensures |r| == |ms| && forall i | 0 <= i < |ms| :: r[i] == FixMember(ms[i], key, ind)
  {
    seq(|ms|, i requires 0 <= i < |ms| => FixMember(ms[i], key, ind))
  }

  /** The container with its new child laid out like its siblings. */
  function FixChild(c: Node, key: string, ind: string): Node
    requires IsIndent(ind)
  {
    match c.value
    case Obj(ms, close) => c.(value := Obj(FixMembers(ms, key, ind), close))
    case Arr(es, close) =>
      var i := ArrayIndex(key);
      if i.Some? && i.value < |es|
      then c.(value := Arr(es[i.value := es[i.value].(before := Broken(es[i.value].before, ind))], close))
      else c
    case _ => c
  }

  /** The container with its trailing comma restored and its closing bracket on a line of its own. */
  function FixEnd(c: Node, trailing: bool, wasEmpty: bool, ind: string): Node
    requires IsIndent(ind)
  {
    match c.value
    case Obj(ms, close) =>
      if ms == [] then c
      else
        var last := ms[|ms| - 1];
        var fixed := if trailing && last.node.after == None then last.(node := last.node.(after := Some(""))) else last;
        c.(value := Obj(ms[|ms| - 1 := fixed], if wasEmpty then Broken(close, ind) else close))
    case Arr(es, close) =>
      if es == [] then c
      else
        var last := es[|es| - 1];
        var fixed := if trailing && last.after == None then last.(after := Some("")) else last;
        c.(value := Arr(es[|es| - 1 := fixed], if wasEmpty then Broken(close, ind) else close))
    case _ => c
  }

  // ---- what the pass achieves ----

  /** The child an add or replace operation addresses starts on a line of its own, its value after a gap. */
  ghost predicate LaidOut(root: Node, op: Op)
    requires '/' in op.path
  {
    var c := Container(root, ParentOf(op));
    var key := SplitPointer(op.path).1;
    c.Some? ==>
      match c.value.value
      case Obj(ms, _) => forall m | m in ms && m.name == key :: IndentOf(m.nameBefore).Some? && m.node.before != ""
      case Arr(es, _) => var i := ArrayIndex(key); i.Some? && i.value < |es| ==> IndentOf(es[i.value].before).Some?
      case _ => true
  }

  function LastAfter(v: Value): Option<Extra>
    requires Kids(v) > 0
  {
    Kid(v, Kids(v) - 1).after
  }

  function Close(v: Value): Extra
    requires v.Obj? || v.Arr?
  {
    v.close
  }

  /** A touched nonempty container has its trailing comma back, and its bracket on a line of its own if it
      was empty. */
  ghost predicate Ended(root: Node, p: Patch, ptr: string) {
    var c := Container(root, ptr);
    ptr != "" && c.Some? && Kids(c.value.value) > 0 ==>
      && (Flag(p.trailing, ptr) ==> LastAfter(c.value.value).Some?)
      && (Flag(p.wasEmpty, ptr) ==> IndentOf(Close(c.value.value)).Some?)
  }

  /** A child that an add or replace operation addresses and that stood on its container's line in `before` is
      indented like the container's first child on a line of its own. */
  ghost predicate LikeSiblings(before: Node, root: Node, op: Op)
    requires '/' in op.path
  {
    var c0, c := Container(before, ParentOf(op)), Container(root, ParentOf(op));
    var key := SplitPointer(op.path).1;
    c0.Some? && c.Some? && Kids(c.value.value) == Kids(c0.value.value) ==>
      forall i | 0 <= i < Kids(c.value.value) && TokenOf(c.value.value, i) == key ::
        IndentOf(Lead(c0.value.value, i)).None? ==> IndentOf(Lead(c.value.value, i)) == ChildIndent(c.value.value)
  }

  lemma LaidLikeSiblings(a: Node, b: Node, op: Op, p: Patch)
    requires Tidied(a, b, [], p) && '/' in op.path && LaidOut(b, op)
    ensures LikeSiblings(a, b, op)
  {
    hide IndentOf, Addressed, TouchedWith;
    TidiedContainer(a, b, ParentOf(op), p);
    var c, d := Container(a, ParentOf(op)), Container(b, ParentOf(op));
    var key := SplitPointer(op.path).1;
    if c.Some? {
      forall i | 0 <= i < Kids(d.value.value) && TokenOf(d.value.value, i) == key
        ensures IndentOf(Lead(c.value.value, i)).None? ==>
                  IndentOf(Lead(d.value.value, i)) == ChildIndent(d.value.value)
      {
        if d.value.value.Obj? {
          assert d.value.value.members[i] in d.value.value.members;
        } else {
          ArrayIndexOfDecimal(i);
        }
      }
    }
  }

  lemma {:induction false} FixedMembersAlign(ms: seq<Member>, key: string, ind: string)
    requires IsIndent(ind) && (FirstMemberIndent(ms).Some? ==> ind == FirstMemberIndent(ms).value)
    ensures var ns := FixMembers(ms, key, ind);
            && (FirstMemberIndent(ms).Some? ==> FirstMemberIndent(ns) == FirstMemberIndent(ms))
            && forall i | 0 <= i < |ms| && ns[i].nameBefore != ms[i].nameBefore ::
                 FirstMemberIndent(ns) == Some(ind) && IndentOf(ns[i].nameBefore) == Some(ind)
  {
    hide IndentOf;
    FreshIndent(ind);
    if ms != [] {
      var ns := FixMembers(ms, key, ind);
      assert ns[1..] == FixMembers(ms[1..], key, ind);
      if IndentOf(ms[0].nameBefore).None? { FixedMembersAlign(ms[1..], key, ind); }
      forall i | 0 <= i < |ms| && ns[i].nameBefore != ms[i].nameBefore
        ensures FirstMemberIndent(ns) == Some(ind) && IndentOf(ns[i].nameBefore) == Some(ind)
      {
        if i > 0 { assert ns[1..][i - 1] == ns[i] && ms[1..][i - 1] == ms[i]; }
      }
    }
  }

  lemma {:induction false} FixedElemAligns(es: seq<Node>, i: nat, ind: string)
    requires i < |es| && IsIndent(ind) && (FirstElemIndent(es).Some? ==> ind == FirstElemIndent(es).value)
    ensures var fs := es[i := es[i].(before := Broken(es[i].before, ind))];
            && (FirstElemIndent(es).Some? ==> FirstElemIndent(fs) == FirstElemIndent(es))
            && (fs[i].before != es[i].before ==>
                  FirstElemIndent(fs) == Some(ind) && IndentOf(fs[i].before) == Some(ind))
  {
    hide IndentOf;
    FreshIndent(ind);
    var fs := es[i := es[i].(before := Broken(es[i].before, ind))];
    if i > 0 && IndentOf(es[0].before).None? {
      assert fs[1..] == es[1..][i - 1 := es[1..][i - 1].(before := Broken(es[1..][i - 1].before, ind))];
      FixedElemAligns(es[1..], i - 1, ind);
    } else if i == 0 {
      assert fs[1..] == es[1..];
    }
  }

  lemma FixChildAligns(c: Node, key: string, ind: string)
    requires IsIndent(ind) && (ChildIndent(c.value).Some? ==> ind == ChildIndent(c.value).value)
    ensures Kids(FixChild(c, key, ind).value) == Kids(c.value) && Aligned(c.value, FixChild(c, key, ind).value)
  {
    hide IndentOf;
    match c.value
    case Obj(ms, _) => FixedMembersAlign(ms, key, ind);
    case Arr(es, _) =>
      var i := ArrayIndex(key);
      if i.Some? && i.value < |es| { FixedElemAligns(es, i.value, ind); }
    case _ =>
  }

  lemma FixChildTidies(c: Node, key: string, ind: string, path: seq<string>, p: Patch)
    requires IsIndent(ind) && Addressed(p, path + [key])
    requires ChildIndent(c.value).Some? ==> ind == ChildIndent(c.value).value
    ensures Tidied(c, FixChild(c, key, ind), path, p)
  {
    hide IndentOf, Addressed, TouchedWith, Aligned, Tidied, Broken;
    match c.value
    case Obj(_, _) => FixMemberTidies(c, key, ind, path, p);
    case Arr(es, _) =>
      var i := ArrayIndex(key);
      if i.Some? && i.value < |es| {
        DecimalUndoesNumber(key);
        FixElemTidies(c, key, ind, path, p);
      } else {
        TidiedReflexive(c, path, p);
      }
    case _ => TidiedReflexive(c, path, p);
  }

  lemma {:induction false} FixMemberTidies(c: Node, key: string, ind: string, path: seq<string>, p: Patch)
    requires c.value.Obj? && IsIndent(ind) && Addressed(p, path + [key])
    requires ChildIndent(c.value).Some? ==> ind == ChildIndent(c.value).value
    ensures Tidied(c, FixChild(c, key, ind), path, p)
  {
    hide IndentOf, Addressed, TouchedWith, Aligned;
    FixChildAligns(c, key, ind);
    var ms := c.value.members;
    forall i | 0 <= i < |ms| ensures Tidied(ms[i].node, FixMember(ms[i], key, ind).node, path + [ms[i].name], p) {
      TidiedReflexive(ms[i].node, path + [ms[i].name], p);
      BeforeIsOutside(ms[i].node, FixMember(ms[i], key, ind).node, path + [ms[i].name], p);
    }
  }

  lemma {:induction false} FixElemTidies(c: Node, key: string, ind: string, path: seq<string>, p: Patch)
    requires c.value.Arr? && IsIndent(ind) && Addressed(p, path + [key])
    requires var i := ArrayIndex(key); i.Some? && i.value < |c.value.elems| && Decimal(i.value) == key
    requires ChildIndent(c.value).Some? ==> ind == ChildIndent(c.value).value
    ensures Tidied(c, FixChild(c, key, ind), path, p)
  {
    hide IndentOf, Addressed, TouchedWith, Aligned;
    FixChildAligns(c, key, ind);
    var es, fs := c.value.elems, FixChild(c, key, ind).value.elems;
    forall j | 0 <= j < |es| ensures Tidied(es[j], fs[j], path + [Decimal(j)], p) {
      TidiedReflexive(es[j], path + [Decimal(j)], p);
      BeforeIsOutside(es[j], fs[j], path + [Decimal(j)], p);
    }
  }

  /** A node's outer extras are its container's matter. */
  lemma BeforeIsOutside(a: Node, b: Node, path: seq<string>, p: Patch)
    requires Tidied(a, a, path, p) && b.value == a.value
    ensures Tidied(a, b, path, p)
  {
  }

  lemma {:induction false} FixEndTidies(c: Node, trailing: bool, wasEmpty: bool, ind: string, path: seq<string>,
                                        p: Patch)
    requires IsIndent(ind)
    requires trailing ==> TouchedWith(p, p.trailing, path)
    requires wasEmpty ==> TouchedWith(p, p.wasEmpty, path)
    ensures Tidied(c, FixEnd(c, trailing, wasEmpty, ind), path, p)
  {
    hide IndentOf, Addressed, TouchedWith, Tidied;
    TidiedReflexive(c, path, p);
    match c.value
    case Obj(ms, _) => FixObjectEnd(c, trailing, wasEmpty, ind, path, p);
    case Arr(es, _) => FixArrayEnd(c, trailing, wasEmpty, ind, path, p);
    case _ =>
  }

  lemma {:induction false} FixObjectEnd(c: Node, trailing: bool, wasEmpty: bool, ind: string, path: seq<string>,
                                        p: Patch)
    requires c.value.Obj? && IsIndent(ind)
    requires trailing ==> TouchedWith(p, p.trailing, path)
    requires wasEmpty ==> TouchedWith(p, p.wasEmpty, path)
    ensures Tidied(c, FixEnd(c, trailing, wasEmpty, ind), path, p)
  {
    hide IndentOf, Addressed, TouchedWith, Aligned;
    TidiedReflexive(c, path, p);
    var ms := c.value.members;
    if ms != [] {
      var r := FixEnd(c, trailing, wasEmpty, ind);
      SameLeads(c.value, r.value);
      BeforeIsOutside(ms[|ms| - 1].node, r.value.members[|ms| - 1].node, path + [ms[|ms| - 1].name], p);
    }
  }

  lemma {:induction false} FixArrayEnd(c: Node, trailing: bool, wasEmpty: bool, ind: string, path: seq<string>,
                                       p: Patch)
    requires c.value.Arr? && IsIndent(ind)
    requires trailing ==> TouchedWith(p, p.trailing, path)
    requires wasEmpty ==> TouchedWith(p, p.wasEmpty, path)
    ensures Tidied(c, FixEnd(c, trailing, wasEmpty, ind), path, p)
  {
    hide IndentOf, Addressed, TouchedWith, Aligned;
    TidiedReflexive(c, path, p);
    var es := c.value.elems;
    if es != [] {
      var r := FixEnd(c, trailing, wasEmpty, ind);
      SameLeads(c.value, r.value);
      BeforeIsOutside(es[|es| - 1], r.value.elems[|es| - 1], path + [Decimal(|es| - 1)], p);
    }
  }

  lemma TidiedContainer(a: Node, b: Node, ptr: string, p: Patch)
    requires Tidied(a, b, [], p)
    ensures Container(a, ptr).Some? <==> Container(b, ptr).Some?
    ensures Container(a, ptr).Some? ==> Tidied(Container(a, ptr).value, Container(b, ptr).value, Tokens(ptr).value, p)
  {
    if Tokens(ptr).Some? {
      TidiedGet(a, b, [], Tokens(ptr).value, p);
      assert [] + Tokens(ptr).value == Tokens(ptr).value;
    }
  }

  lemma LaidOutStays(a: Node, b: Node, op: Op, p: Patch)
    requires Tidied(a, b, [], p) && '/' in op.path && LaidOut(a, op)
    ensures LaidOut(b, op)
  {
    hide IndentOf, Addressed, TouchedWith;
    TidiedContainer(a, b, ParentOf(op), p);
    var c, d := Container(a, ParentOf(op)), Container(b, ParentOf(op));
    if d.Some? {
      var path := Tokens(ParentOf(op)).value;
      var key := SplitPointer(op.path).1;
      match c.value.value
      case Obj(ms, _) =>
        var ns := d.value.value.members;
        forall n | n in ns && n.name == key ensures IndentOf(n.nameBefore).Some? && n.node.before != "" {
          var i :| 0 <= i < |ns| && ns[i] == n;
          assert TidiedMember(ms[i], ns[i], path, p, i == |ms| - 1 && TouchedWith(p, p.trailing, path));
          assert ms[i] in ms;
        }
      case Arr(es, _) =>
        var i := ArrayIndex(key);
        if i.Some? && i.value < |es| {
          assert TidiedElem(es[i.value], d.value.value.elems[i.value], path, i.value, p,
                            i.value == |es| - 1 && TouchedWith(p, p.trailing, path));
        }
      case _ =>
    }
  }

  lemma {:induction false} EndedStays(a: Node, b: Node, p: Patch, ptr: string)
    requires Tidied(a, b, [], p) && Ended(a, p, ptr)
    ensures Ended(b, p, ptr)
  {
    hide IndentOf, Addressed, TouchedWith, Tidied, Get;
    TidiedContainer(a, b, ptr, p);
    var c, d := Container(a, ptr), Container(b, ptr);
    if c.Some? { EndsStay(c.value, d.value, Tokens(ptr).value, p); }
  }

  lemma EndsStay(c: Node, d: Node, path: seq<string>, p: Patch)
    requires Tidied(c, d, path, p)
    ensures Kids(d.value) == Kids(c.value)
    ensures Kids(c.value) > 0 ==>
              && (LastAfter(c.value).Some? ==> LastAfter(d.value).Some?)
              && (IndentOf(Close(c.value)).Some? ==> IndentOf(Close(d.value)).Some?)
  {
    hide IndentOf, Addressed, TouchedWith, Aligned;
    if Kids(c.value) > 0 {
      var i := Kids(c.value) - 1;
      if c.value.Obj? {
        assert TidiedMember(c.value.members[i], d.value.members[i], path, p, TouchedWith(p, p.trailing, path));
      } else {
        assert TidiedElem(c.value.elems[i], d.value.elems[i], path, i, p, TouchedWith(p, p.trailing, path));
      }
    }
  }

  lemma {:induction false} FixChildLaysOut(root: Node, op: Op, ind: string)
    requires IsIndent(ind) && '/' in op.path && Container(root, ParentOf(op)).Some?
    ensures var path := Tokens(ParentOf(op)).value;
            LaidOut(Put(root, path, FixChild(Container(root, ParentOf(op)).value, SplitPointer(op.path).1, ind)), op)
  {
    hide IndentOf;
    var path := Tokens(ParentOf(op)).value;
    var c := FixChild(Container(root, ParentOf(op)).value, SplitPointer(op.path).1, ind);
    GetPut(root, path, c, c);
  }

  lemma FixEndLocal(c: Node, trailing: bool, wasEmpty: bool, ind: string)
    requires IsIndent(ind) && Kids(c.value) > 0
    ensures var v := FixEnd(c, trailing, wasEmpty, ind).value;
            && Kids(v) == Kids(c.value)
            && (trailing ==> LastAfter(v).Some?)
            && (wasEmpty ==> IndentOf(Close(v)).Some?)
  {
    hide IndentOf;
  }

  lemma FixEndEmpty(c: Node, trailing: bool, wasEmpty: bool, ind: string)
    requires IsIndent(ind) && Kids(c.value) == 0
    ensures FixEnd(c, trailing, wasEmpty, ind) == c
  {
  }

  lemma {:induction false} FixEndEnds(root: Node, p: Patch, ptr: string, ind: string)
    requires IsIndent(ind) && Container(root, ptr).Some?
    ensures var path := Tokens(ptr).value;
            Ended(Put(root, path,
                      FixEnd(Container(root, ptr).value, Flag(p.trailing, ptr), Flag(p.wasEmpty, ptr), ind)),
                  p, ptr)
  {
    hide IndentOf, FixEnd, Tokens, Get, Put;
    var path := Tokens(ptr).value;
    var c := Container(root, ptr).value;
    var r := FixEnd(c, Flag(p.trailing, ptr), Flag(p.wasEmpty, ptr), ind);
    GetPut(root, path, r, r);
    if Kids(c.value) > 0 {
      FixEndLocal(c, Flag(p.trailing, ptr), Flag(p.wasEmpty, ptr), ind);
    } else {
      FixEndEmpty(c, Flag(p.trailing, ptr), Flag(p.wasEmpty, ptr), ind);
    }
  }
}

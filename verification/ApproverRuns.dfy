/** Running the operations of `diffAutoApprovers` (internal/aclmodel/patch.go).
    The section is one object with two members whose spelling the document chooses; the operations edit each
    member in place, keep the spelling that is there, use the canonical one otherwise, and leave every other
    member as it is. */
module ApproverRuns {
  import opened Base
  import opened Text
  import opened Pointer
  import opened Tree
  import opened Names
  import opened AclModel
  import opened Render
  import opened Plan
  import opened MapRuns
  import opened SectionRuns

  /** The object has one spelling of each of its two members, and otherwise only metadata. */
  ghost predicate ApproversShape(c: Node, rk: Option<string>, ek: Option<string>) {
    && c.value.Obj?
    && (rk.Some? ==> Has(c.value.members, rk.value))
    && (ek.Some? ==> Has(c.value.members, ek.value))
    && forall x :: Has(c.value.members, x) ==>
         && (EqualFold(x, "routes") <==> rk == Some(x))
         && (EqualFold(x, "exitNode") <==> ek == Some(x))
         && (IsMetadata(x) || EqualFold(x, "routes") || EqualFold(x, "exitNode"))
  }

  /** The node that decoding reads for one of the two members. */
  function SlotOf(c: Node, k: Option<string>): Option<Node>
    requires c.value.Obj?
  {
    if k.None? then None else LastOf(c.value.members, k.value)
  }

  ghost predicate ListSlot(slot: Option<Node>, l: Option<seq<string>>) {
    if l.None? then Missing(slot)
    else slot.Some? && !slot.value.value.Null? && ReadStrings(Std(slot.value)) == Some(l.value)
  }

  lemma ApproverKeyIs(v: map<string, Json>, member: string, k: Option<string>)
    requires k.Some? ==> k.value in v
    requires forall x | x in v :: EqualFold(x, member) <==> k == Some(x)
    ensures ApproverKey(v, member) == Ok(k)
  {
    if k.Some? {
      assert Spellings(v, member) == {k.value};
      assert {k.value} - {k.value} == {};
      assert Sorted({k.value}) == [Least({k.value})] + Sorted({k.value} - {k.value});
    } else {
      assert Spellings(v, member) == {};
    }
  }

  lemma ApproverKeyInverse(v: map<string, Json>, member: string)
    requires ApproverKey(v, member).Ok?
    ensures var k := ApproverKey(v, member).value;
            (k.Some? ==> k.value in v) && forall x | x in v :: EqualFold(x, member) <==> k == Some(x)
  {
    hide Sorted, EqualFold;
    var ks := Sorted(Spellings(v, member));
    forall x | x in v ensures EqualFold(x, member) <==> ApproverKey(v, member).value == Some(x) {
      assert x in ks <==> EqualFold(x, member);
    }
    if ks != [] { assert ks[0] in ks; }
  }

  lemma NullIsNull(n: Node)
    ensures Std(n).JNull? <==> n.value.Null?
  {
  }

  lemma MembersOfView(c: Node)
    requires c.value.Obj?
    ensures Std(c).JObj?
    ensures var v := View(Std(c).members); forall x :: x in v <==> Has(c.value.members, x)
    ensures var v := View(Std(c).members); forall x | x in v :: v[x] == Std(LastOf(c.value.members, x).value)
  {
    hide Std, View, Named;
    StdOfComposite(c);
    forall x
      ensures x in View(StdMembers(c.value.members)) <==> Has(c.value.members, x)
      ensures Has(c.value.members, x) ==>
                View(StdMembers(c.value.members))[x] == Std(LastOf(c.value.members, x).value)
    {
      ViewReadsLast(c.value.members, x);
    }
  }

  /** A well-shaped object decodes as its two members do. */
  lemma {:induction false} ShapeDecodes(c: Node, rk: Option<string>, ek: Option<string>, routes: Option<ListMap>,
                                        exitNode: Option<seq<string>>)
    requires ApproversShape(c, rk, ek)
    requires MapSlot(SlotOf(c, rk), routes, ReadStrings) && ListSlot(SlotOf(c, ek), exitNode)
    ensures DecodeApprovers(Std(c)) == Ok(Approvers(rk, ek, routes, exitNode))
  {
    hide Std, View, Named, EqualFold, ApproverKey, DecodeMap, ReadStrings;
    MembersOfView(c);
    var v := View(Std(c).members);
    ApproverKeyIs(v, "routes", rk);
    ApproverKeyIs(v, "exitNode", ek);
    if rk.Some? { NullIsNull(LastOf(c.value.members, rk.value).value); }
    if ek.Some? { NullIsNull(LastOf(c.value.members, ek.value).value); }
  }

  /** An autoApprovers member that decodes as a. */
  ghost predicate ApproverSlot(slot: Option<Node>, a: Option<Approvers>) {
    if a.None? then Missing(slot)
    else slot.Some? && slot.value.value.Obj? && DecodeApprovers(Std(slot.value)) == Ok(a.value)
  }

  lemma ObjectDecodes<T>(n: Node, read: Json -> Option<T>)
    requires DecodeMap(Std(n), read).Ok? && !Std(n).JNull?
    ensures n.value.Obj?
  {
  }

  lemma DecodedShape(c: Node, a: Approvers)
    requires ApproverSlot(Some(c), Some(a))
    ensures ApproversShape(c, a.routesKey, a.exitKey)
    ensures MapSlot(SlotOf(c, a.routesKey), a.routes, ReadStrings) && ListSlot(SlotOf(c, a.exitKey), a.exitNode)
  {
    hide Std, View, Named, EqualFold, ApproverKey, DecodeMap, ReadStrings;
    MembersOfView(c);
    var v := View(Std(c).members);
    ApproverKeyInverse(v, "routes");
    ApproverKeyInverse(v, "exitNode");
    var rk, ek := a.routesKey, a.exitKey;
    if rk.Some? {
      var n := LastOf(c.value.members, rk.value).value;
      NullIsNull(n);
      if !n.value.Null? { ObjectDecodes(n, ReadStrings); }
    }
    if ek.Some? { NullIsNull(LastOf(c.value.members, ek.value).value); }
  }

  lemma NotBoth(k: string)
    ensures !(EqualFold(k, "routes") && EqualFold(k, "exitNode"))
  {
    EqualFoldKeepsShape("routes", "exitNode");
  }

  /** Changing one of the two members keeps the shape, if its name is the present spelling or the canonical one. */
  lemma ShapeStays(c: Node, c': Node, rk: Option<string>, ek: Option<string>, routes: bool)
    requires ApproversShape(c, rk, ek) && c'.value.Obj?
    requires var k := if routes then rk.GetOr("routes") else ek.GetOr("exitNode");
             Has(c'.value.members, k) &&
             forall x | x != k :: Named(c'.value.members, x) == Named(c.value.members, x)
    ensures var k := if routes then rk.GetOr("routes") else ek.GetOr("exitNode");
            ApproversShape(c', if routes then Some(k) else rk, if routes then ek else Some(k))
    ensures SlotOf(c', if routes then ek else rk) == SlotOf(c, if routes then ek else rk)
  {
    hide EqualFold, Named;
    var k := if routes then rk.GetOr("routes") else ek.GetOr("exitNode");
    NotBoth(k);
    SameFold("routes");
    SameFold("exitNode");
    var rk', ek' := if routes then Some(k) else rk, if routes then ek else Some(k);
    assert EqualFold(k, if routes then "routes" else "exitNode");
    forall x | Has(c'.value.members, x)
      ensures EqualFold(x, "routes") <==> rk' == Some(x)
      ensures EqualFold(x, "exitNode") <==> ek' == Some(x)
      ensures IsMetadata(x) || EqualFold(x, "routes") || EqualFold(x, "exitNode")
    {
      if x != k { assert Has(c.value.members, x); }
    }
  }

  lemma ShapeIsObject(c: Node, rk: Option<string>, ek: Option<string>)
    requires ApproversShape(c, rk, ek)
    ensures c.value.Obj?
  {
  }

  lemma ShapeHasKeys(c: Node, rk: Option<string>, ek: Option<string>)
    requires ApproversShape(c, rk, ek)
    ensures Has(c.value.members, rk.GetOr("routes")) <==> rk.Some?
    ensures Has(c.value.members, ek.GetOr("exitNode")) <==> ek.Some?
    ensures rk.GetOr("routes") != ek.GetOr("exitNode")
  {
    SameFold("routes");
    SameFold("exitNode");
    NotBoth(rk.GetOr("routes"));
  }

  // ---- the routes ----

  /** The routes will read as asked: their member is there at most once and no entry to change is repeated in it,
      or nothing is to change. */
  ghost predicate RoutesClear(c: Node, a: Approvers, routes: ListMap)
    requires c.value.Obj?
  {
    var k := a.routesKey.GetOr("routes");
    if |Named(c.value.members, k)| <= 1 then MapClear(MemberOf(c.value.members, k), a.routes, routes)
    else a.Routes() == NonMeta(routes)
  }

  /** What stays of the routes: entries whose owners do not change and "#" members are the identical nodes in
      their order, and routes that were absent or null stay so when none are asked for. Of a repeated member the
      last one, which is read, stays. */
  ghost predicate RoutesFrame(was: Node, now: Node, a: Approvers, routes: ListMap)
    requires was.value.Obj? && now.value.Obj?
  {
    var k := a.routesKey.GetOr("routes");
    var r0, r1 := MemberOf(was.value.members, k), MemberOf(now.value.members, k);
    if |Named(was.value.members, k)| > 1 then LastOf(now.value.members, k) == LastOf(was.value.members, k)
    else if a.routes.Some? then r0.Some? && r1.Some? && SameBut(r0.value, r1.value, Touched(a.routes.value, routes))
    else |routes| == 0 ==> r1 == r0
  }

  /** The outcome of the routes part: the section changes in its routes member alone, which then decodes, and as
      asked exactly when it is clear. */
  ghost predicate RoutesDone(c: Node, c': Node, a: Approvers, a': Approvers, routes: ListMap) {
    && SameShell(c, c') && ApproversShape(c', a'.routesKey, a'.exitKey)
    && a'.exitKey == a.exitKey && a'.exitNode == a.exitNode
    && var k := a.routesKey.GetOr("routes");
    && (a.routesKey.Some? ==> a'.routesKey == a.routesKey) && a'.routesKey.GetOr("routes") == k
    && (forall x | x != k :: Named(c'.value.members, x) == Named(c.value.members, x))
    && Others(c'.value.members, {k}) == Others(c.value.members, {k})
    && MapSlot(SlotOf(c', a'.routesKey), a'.routes, ReadStrings)
    && (a'.Routes() == NonMeta(routes) <==> RoutesClear(c, a, routes))
    && RoutesFrame(c, c', a, routes)
    && (|Named(c.value.members, k)| <= 1 && Apart(MemberOf(c.value.members, k)) ==>
          |Named(c'.value.members, k)| <= 1 && Apart(MemberOf(c'.value.members, k)))
  }

  lemma RoutesSame(c: Node, a: Approvers, m: Option<ListMap>, routes: ListMap)
    requires ApproversShape(c, a.routesKey, a.exitKey) && MapSlot(SlotOf(c, a.routesKey), m, ReadStrings)
    requires a.(routes := m).Routes() == NonMeta(routes) <==> RoutesClear(c, a, routes)
    requires RoutesFrame(c, c, a, routes)
    ensures RoutesDone(c, c, a, a.(routes := m), routes)
  {
    hide Named, Others, RoutesFrame, RoutesClear, MapSlot;
  }

  /** Writing the routes member leaves the rest of the section alone. */
  lemma RoutesSet(c: Node, a: Approvers, n: Node)
    requires ApproversShape(c, a.routesKey, a.exitKey)
    ensures var k := a.routesKey.GetOr("routes");
            var c' := SetMember(c, k, n);
            && SameShell(c, c') && ApproversShape(c', Some(k), a.exitKey)
            && (forall x | x != k :: Named(c'.value.members, x) == Named(c.value.members, x))
            && Named(c'.value.members, k) == EditFirst(Named(c.value.members, k), Some(n))
            && Others(c'.value.members, {k}) == Others(c.value.members, {k})
            && MemberOf(c'.value.members, k) == Some(n)
  {
    hide Named, Others, MemberOf, SetMember;
    var k := a.routesKey.GetOr("routes");
    SetMemberEffect(c, k, n);
    SetMemberNamed(c, k, n);
    ShapeStays(c, SetMember(c, k, n), a.routesKey, a.exitKey, true);
  }

  /** A member that is there once is the one read, and the one addressed. */
  lemma OnceIsRead(ms: seq<Member>, k: string)
    requires |Named(ms, k)| <= 1
    ensures LastOf(ms, k) == MemberOf(ms, k)
  {
    FirstNamed(ms, k);
  }

  lemma RoutesSlotOnce(c: Node, a: Approvers)
    requires ApproverSlot(Some(c), Some(a)) && |Named(c.value.members, a.routesKey.GetOr("routes"))| <= 1
    ensures MapSlot(MemberOf(c.value.members, a.routesKey.GetOr("routes")), a.routes, ReadStrings)
    ensures a.routesKey.None? ==> MemberOf(c.value.members, a.routesKey.GetOr("routes")).None?
  {
    hide Named, DecodeApprovers, DecodeMap, ReadStrings, Std;
    DecodedShape(c, a);
    ShapeHasKeys(c, a.routesKey, a.exitKey);
    OnceIsRead(c.value.members, a.routesKey.GetOr("routes"));
  }

  /** `diffAutoApprovers`, routes part, when the document has the member at most once. */
  lemma RoutesOnce(root: Node, base: string, path: seq<string>, a: Approvers, routes: ListMap, unit: string)
    returns (c': Node, a': Approvers)
    requires Tokens(base) == Some(path) && ApproverSlot(Get(root, path), Some(a))
    requires |Named(Get(root, path).value.value.members, a.routesKey.GetOr("routes"))| <= 1
    ensures ApplyAll(root, RoutesOps(base, a, routes, unit)) == Ok(Put(root, path, c'))
    ensures RoutesDone(Get(root, path).value, c', a, a', routes)
  {
    hide MapEdits, DecodeMap, RenderBlock, MemberOf, SetMember, DecodeApprovers, Others, ReadStrings, Named,
         ApproversShape, SameBut, SameShell, ListSlot, Apart, NoneRepeated, Touched;
    var c := Get(root, path).value;
    DecodedShape(c, a);
    RoutesSlotOnce(c, a);
    ShapeHasKeys(c, a.routesKey, a.exitKey);
    forall t: seq<string> ensures ReadStrings(Std(RenderStrings(t))) == Some(t) { StringsReadBack(t); }
    var k := a.routesKey.GetOr("routes");
    if a.routes.None? && a.routesKey.Some? && |routes| > 0 {
      var n := RenderBlock(routes, RenderStrings, unit + unit, unit);
      BlockIsSlot(routes, RenderStrings, ReadStrings, unit + unit, unit);
      SetMemberEffect(c, k, n);
      FirstNamed(c.value.members, k);
      OneOp(root, base, path, k, Replace(n));
      c', a' := SetMember(c, k, n), a.(routesKey := Some(k), routes := Some(NonMeta(routes)));
      RoutesWritten(c, a, n, Some(NonMeta(routes)), routes);
    } else {
      var m': Option<ListMap>;
      c', m' := DiffMapRun(root, base, path, k, a.routes, routes, RenderStrings, ReadStrings, unit + unit, unit);
      if c' == c {
        a' := a.(routes := m');
        OnceIsRead(c.value.members, k);
        RoutesSame(c, a, m', routes);
      } else {
        var n :| c' == SetMember(c, k, n);
        SetMemberEffect(c, k, n);
        a' := a.(routesKey := Some(k), routes := m');
        RoutesWritten(c, a, n, m', routes);
      }
    }
  }

  lemma RoutesWritten(c: Node, a: Approvers, n: Node, m: Option<ListMap>, routes: ListMap)
    requires ApproversShape(c, a.routesKey, a.exitKey) && |Named(c.value.members, a.routesKey.GetOr("routes"))| <= 1
    requires MapSlot(Some(n), m, ReadStrings)
    requires m.GetOr(map[]) == NonMeta(routes) <==>
             MapClear(MemberOf(c.value.members, a.routesKey.GetOr("routes")), a.routes, routes)
    requires a.routes.Some? ==>
               var was := MemberOf(c.value.members, a.routesKey.GetOr("routes"));
               was.Some? && SameBut(was.value, n, Touched(a.routes.value, routes))
    requires a.routes.None? ==> |routes| > 0
    requires Apart(MemberOf(c.value.members, a.routesKey.GetOr("routes"))) ==> Apart(Some(n))
    ensures var k := a.routesKey.GetOr("routes");
            RoutesDone(c, SetMember(c, k, n), a, a.(routesKey := Some(k), routes := m), routes)
  {
    hide Named, Others, MemberOf, SetMember, ApproversShape, SameShell, SameBut, MapSlot, Touched, Apart, NoneRepeated;
    var k := a.routesKey.GetOr("routes");
    ShapeIsObject(c, a.routesKey, a.exitKey);
    RoutesSet(c, a, n);
    var c' := SetMember(c, k, n);
    OnceIsRead(c'.value.members, k);
  }

  /** The same when the document repeats the member: then the last one stays, whatever the operations do. */
  lemma RoutesRepeated(root: Node, base: string, path: seq<string>, a: Approvers, routes: ListMap, unit: string)
    returns (c': Node)
    requires Tokens(base) == Some(path) && ApproverSlot(Get(root, path), Some(a))
    requires |Named(Get(root, path).value.value.members, a.routesKey.GetOr("routes"))| > 1
    requires ApplyAll(root, RoutesOps(base, a, routes, unit)).Ok?
    ensures ApplyAll(root, RoutesOps(base, a, routes, unit)) == Ok(Put(root, path, c'))
    ensures RoutesDone(Get(root, path).value, c', a, a, routes)
  {
    hide MapEdits, DecodeMap, RenderBlock, SetMember, DecodeApprovers, Others, ReadStrings, Named, RunHere,
         ApproversShape, SameBut, SameShell, ListSlot, Apart, NoneRepeated, Touched;
    var c := Get(root, path).value;
    var k := a.routesKey.GetOr("routes");
    DecodedShape(c, a);
    ShapeIsObject(c, a.routesKey, a.exitKey);
    ShapeHasKeys(c, a.routesKey, a.exitKey);
    FirstNamed(c.value.members, k);
    var first := MemberOf(c.value.members, k).value;
    if a.routes.Some? {
      GetMember(c, k);
      TokensOfChild(base, k);
      var edits := MapEdits(a.routes.value, routes, RenderStrings);
      PutSteps(root, path, [k], first);
      RunBelow(root, Child(base, k), path + [k], edits);
      var n := RunHere(first, edits).value;
      PutSteps(root, path, [k], n);
      SetMemberEffect(c, k, n);
      c' := SetMember(c, k, n);
      RoutesKeepLast(c, a, n, routes);
    } else if |routes| > 0 {
      var n := RenderBlock(routes, RenderStrings, unit + unit, unit);
      SetMemberEffect(c, k, n);
      OneOp(root, base, path, k, Replace(n));
      c' := SetMember(c, k, n);
      RoutesKeepLast(c, a, n, routes);
    } else {
      c' := c;
      PutSame(root, path, c);
      RoutesSame(c, a, a.routes, routes);
    }
  }

  lemma RoutesKeepLast(c: Node, a: Approvers, n: Node, routes: ListMap)
    requires ApproversShape(c, a.routesKey, a.exitKey) && MapSlot(SlotOf(c, a.routesKey), a.routes, ReadStrings)
    requires |Named(c.value.members, a.routesKey.GetOr("routes"))| > 1
    ensures RoutesDone(c, SetMember(c, a.routesKey.GetOr("routes"), n), a, a, routes)
  {
    hide Named, Others, MemberOf, SetMember, ApproversShape, SameShell, SameBut, MapSlot, Touched, Apart;
    var k := a.routesKey.GetOr("routes");
    ShapeHasKeys(c, a.routesKey, a.exitKey);
    RoutesSet(c, a, n);
  }

  // ---- the exit nodes ----

  predicate ExitClear(c: Node, a: Approvers, exitNode: seq<string>)
    requires c.value.Obj?
  {
    |Named(c.value.members, a.exitKey.GetOr("exitNode"))| <= 1 || a.ExitNode() == exitNode
  }

  ghost predicate ExitDone(c: Node, c': Node, a: Approvers, a': Approvers, exitNode: seq<string>) {
    && SameShell(c, c') && ApproversShape(c', a'.routesKey, a'.exitKey)
    && a'.routesKey == a.routesKey && a'.routes == a.routes && (a.exitKey.Some? ==> a'.exitKey == a.exitKey)
    && var k := a.exitKey.GetOr("exitNode");
    && (forall x | x != k :: Named(c'.value.members, x) == Named(c.value.members, x))
    && Others(c'.value.members, {k}) == Others(c.value.members, {k})
    && ListSlot(SlotOf(c', a'.exitKey), a'.exitNode)
    && (a'.ExitNode() == exitNode <==> ExitClear(c, a, exitNode))
    && (a.ExitNode() == exitNode ==> c' == c)
    && (|Named(c.value.members, k)| <= 1 ==> |Named(c'.value.members, k)| <= 1)
  }

  /** `diffAutoApprovers`, exit node part. */
  lemma ExitNodeRun(root: Node, base: string, path: seq<string>, a: Approvers, exitNode: seq<string>)
    returns (c': Node, a': Approvers)
    requires Tokens(base) == Some(path) && Get(root, path).Some?
    requires var c := Get(root, path).value;
             ApproversShape(c, a.routesKey, a.exitKey) && ListSlot(SlotOf(c, a.exitKey), a.exitNode)
    ensures ApplyAll(root, ExitNodeOps(base, a, exitNode)) == Ok(Put(root, path, c'))
    ensures ExitDone(Get(root, path).value, c', a, a', exitNode)
  {
    hide SetMember, MemberOf, Others, ReadStrings, ApproversShape, SameShell, Named, RenderStrings, Std;
    var c := Get(root, path).value;
    ShapeIsObject(c, a.routesKey, a.exitKey);
    ShapeHasKeys(c, a.routesKey, a.exitKey);
    var k := a.exitKey.GetOr("exitNode");
    var n := RenderStrings(exitNode);
    SetMemberEffect(c, k, n);
    FirstNamed(c.value.members, k);
    var once := |Named(c.value.members, k)| <= 1;
    if a.exitKey.Some? && a.ExitNode() != exitNode {
      OneOp(root, base, path, k, Replace(n));
      c' := SetMember(c, k, n);
      a' := if once then a.(exitNode := Some(exitNode)) else a;
      ExitWritten(c, a, exitNode);
    } else if a.exitKey.None? && exitNode != [] {
      OneOp(root, base, path, k, Add(n));
      c', a' := SetMember(c, k, n), a.(exitKey := Some(k), exitNode := Some(exitNode));
      ExitWritten(c, a, exitNode);
    } else {
      PutSame(root, path, c);
      c', a' := c, a;
      SameNode(c);
    }
  }

  lemma SameNode(c: Node)
    requires c.value.Obj?
    ensures SameShell(c, c)
  {
  }

  lemma ExitWritten(c: Node, a: Approvers, exitNode: seq<string>)
    requires ApproversShape(c, a.routesKey, a.exitKey) && ListSlot(SlotOf(c, a.exitKey), a.exitNode)
    requires a.ExitNode() != exitNode
    ensures var k := a.exitKey.GetOr("exitNode");
            var once := |Named(c.value.members, k)| <= 1;
            var a' := if once then a.(exitKey := Some(k), exitNode := Some(exitNode)) else a;
            ExitDone(c, SetMember(c, k, RenderStrings(exitNode)), a, a', exitNode)
  {
    hide Named, Others, MemberOf, SetMember, ApproversShape, SameShell, Std, ReadStrings, RenderStrings;
    var k := a.exitKey.GetOr("exitNode");
    var n := RenderStrings(exitNode);
    ShapeIsObject(c, a.routesKey, a.exitKey);
    ShapeHasKeys(c, a.routesKey, a.exitKey);
    StringsReadBack(exitNode);
    StringsShape(exitNode);
    SetMemberEffect(c, k, n);
    SetMemberNamed(c, k, n);
    ShapeStays(c, SetMember(c, k, n), a.routesKey, a.exitKey, false);
  }

  // ---- the section ----

  /** What stays of an autoApprovers object: its own layout, every member but the two, the unchanged routes, and
      the exit nodes when they are not changed. */
  ghost predicate ApproverFrame(was: Node, now: Node, a: Approvers, cur: InputApprovers) {
    var rk, ek := a.routesKey.GetOr("routes"), a.exitKey.GetOr("exitNode");
    && SameShell(was, now)
    && Others(now.value.members, {rk, ek}) == Others(was.value.members, {rk, ek})
    && RoutesFrame(was, now, a, cur.routes)
    && (a.ExitNode() == cur.exitNode ==> Named(now.value.members, ek) == Named(was.value.members, ek))
  }

  /** The section will read as asked. */
  ghost predicate ApproversClear(slot: Option<Node>, prior: Option<Approvers>, cur: InputApprovers) {
    prior.Some? && slot.Some? && slot.value.value.Obj? ==>
      RoutesClear(slot.value, prior.value, cur.routes) && ExitClear(slot.value, prior.value, cur.exitNode)
  }

  /** Names are unique in the object and in its routes. */
  ghost predicate ApproversApart(slot: Option<Node>) {
    slot.Some? && slot.value.value.Obj? ==>
      && UniqueNames(slot.value.value.members)
      && forall m | m in slot.value.value.members && EqualFold(m.name, "routes") :: Apart(Some(m.node))
  }

  /** The outcome of both parts. */
  ghost predicate ApproversDone(was: Node, now: Node, a: Approvers, a': Approvers, cur: InputApprovers) {
    && was.value.Obj? && ApproverSlot(Some(now), Some(a')) && ApproverFrame(was, now, a, cur)
    && (a'.Routes() == NonMeta(cur.routes) && a'.ExitNode() == cur.exitNode <==>
          RoutesClear(was, a, cur.routes) && ExitClear(was, a, cur.exitNode))
    && (ApproversApart(Some(was)) ==> ApproversApart(Some(now)))
    && (a.routesKey.Some? ==> a'.routesKey == a.routesKey) && (a.exitKey.Some? ==> a'.exitKey == a.exitKey)
  }

  lemma PartsCompose(c: Node, c1: Node, c2: Node, a: Approvers, a1: Approvers, a2: Approvers, cur: InputApprovers)
    requires ApproverSlot(Some(c), Some(a))
    requires RoutesDone(c, c1, a, a1, cur.routes) && ExitDone(c1, c2, a1, a2, cur.exitNode)
    ensures ApproversDone(c, c2, a, a2, cur)
  {
    hide Named, Others, MemberOf, DecodeApprovers, ReadStrings, EqualFold, RoutesClear, MapSlot, ListSlot, Apart,
         ApproversApart;
    var rk, ek := a.routesKey.GetOr("routes"), a.exitKey.GetOr("exitNode");
    DecodedShape(c, a);
    ShapeHasKeys(c, a.routesKey, a.exitKey);
    assert Named(c2.value.members, rk) == Named(c1.value.members, rk);
    FirstNamed(c2.value.members, rk);
    FirstNamed(c1.value.members, rk);
    OthersWiden(c1.value.members, c.value.members, {rk}, {rk, ek});
    OthersWiden(c2.value.members, c1.value.members, {ek}, {rk, ek});
    ShapeDecodes(c2, a2.routesKey, a2.exitKey, a2.routes, a2.exitNode);
    if ApproversApart(Some(c)) { PartsApart(c, c1, c2, a, a1, a2, cur); }
  }

  lemma PartsApart(c: Node, c1: Node, c2: Node, a: Approvers, a1: Approvers, a2: Approvers, cur: InputApprovers)
    requires ApproverSlot(Some(c), Some(a)) && ApproversApart(Some(c))
    requires RoutesDone(c, c1, a, a1, cur.routes) && ExitDone(c1, c2, a1, a2, cur.exitNode)
    ensures ApproversApart(Some(c2))
  {
    hide Named, Others, DecodeApprovers, ReadStrings, EqualFold, RoutesClear, MapSlot, ListSlot, Apart, Index,
         RoutesFrame, SameShell;
    var rk, ek := a.routesKey.GetOr("routes"), a.exitKey.GetOr("exitNode");
    DecodedShape(c, a);
    ShapeHasKeys(c, a.routesKey, a.exitKey);
    UniqueByName(c.value.members);
    UniqueByName(c2.value.members);
    RoutesApartAt(c, a.routesKey, a.exitKey);
    forall x ensures |Named(c2.value.members, x)| <= 1 {
      assert |Named(c.value.members, x)| <= 1;
    }
    FirstNamed(c1.value.members, rk);
    FirstNamed(c2.value.members, rk);
    forall m | m in c2.value.members && EqualFold(m.name, "routes") ensures Apart(Some(m.node)) {
      var i :| 0 <= i < |c2.value.members| && c2.value.members[i] == m;
      MemberNamed(c2.value.members, i);
      FirstNamed(c2.value.members, m.name);
      assert Has(c2.value.members, m.name);
      assert ApproversShape(c2, a2.routesKey, a2.exitKey);
      assert a2.routesKey == Some(m.name);
      assert m.name == rk;
      assert Named(c2.value.members, rk) == Named(c1.value.members, rk);
      assert MemberOf(c1.value.members, rk) == Some(m.node);
      assert |Named(c.value.members, rk)| <= 1;
      assert Apart(MemberOf(c1.value.members, rk));
    }
  }

  lemma MemberNamed(ms: seq<Member>, i: nat)
    requires i < |ms|
    ensures Has(ms, ms[i].name)
    ensures |Named(ms, ms[i].name)| <= 1 ==> Named(ms, ms[i].name) == [ms[i].node]
  {
    hide Named;
    NamedSplits(ms, i, ms[i].name);
  }

  lemma RoutesApartAt(c: Node, rk: Option<string>, ek: Option<string>)
    requires ApproversShape(c, rk, ek) && ApproversApart(Some(c))
    ensures Apart(MemberOf(c.value.members, rk.GetOr("routes")))
  {
    hide Named, EqualFold;
    var k := rk.GetOr("routes");
    FirstNamed(c.value.members, k);
    match Index(c.value.members, k)
    case None =>
    case Some(i) =>
      assert c.value.members[i] in c.value.members;
      SameFold("routes");
      assert Has(c.value.members, k);
  }

  /** Nothing in the object's repetitions can make an operation fail. */
  ghost predicate ApproversGo(slot: Option<Node>, prior: Option<Approvers>, cur: InputApprovers) {
    prior.Some? && slot.Some? && slot.value.value.Obj? ==>
      || |Named(slot.value.value.members, prior.value.routesKey.GetOr("routes"))| <= 1
      || prior.value.Routes() == cur.routes
  }

  lemma RoutesUntouched(base: string, a: Approvers, routes: ListMap, unit: string)
    requires a.Routes() == routes
    ensures RoutesOps(base, a, routes, unit) == []
  {
    hide MapEdits, RenderBlock;
    var ptr := Child(base, a.routesKey.GetOr("routes"));
    if a.routes.Some? { NoMapOps(ptr, a.routes, routes, RenderStrings, unit + unit, unit); }
  }

  /** The operations run when the routes member is there at most once, or is not to change. */
  lemma ApproversRun(root: Node, k: string, prior: Option<Approvers>, cur: InputApprovers, unit: string)
    requires root.value.Obj? && ApproverSlot(MemberOf(root.value.members, k), prior)
    requires ApproversGo(MemberOf(root.value.members, k), prior, cur)
    ensures ApplyAll(root, DiffApprovers(Child("", k), prior, cur, unit)).Ok?
  {
    hide MemberOf, SetMember, DecodeApprovers, RenderApprovers, RoutesOps, ExitNodeOps, ApproversShape, RoutesDone,
         ExitDone, ListSlot, MapSlot, Named;
    match prior
    case None =>
      if !(|cur.routes| == 0 && cur.exitNode == []) {
        var n := RenderApprovers(cur.routes, cur.exitNode, unit, unit);
        SetMemberEffect(root, k, n);
        OneOp(root, "", [], k, Add(n));
      }
    case Some(a) =>
      TokensOfChild("", k);
      assert [] + [k] == [k];
      GetMember(root, k);
      var base := Child("", k);
      ApplyConcat(root, RoutesOps(base, a, cur.routes, unit), ExitNodeOps(base, a, cur.exitNode));
      var c := Get(root, [k]).value;
      DecodedShape(c, a);
      if |Named(c.value.members, a.routesKey.GetOr("routes"))| <= 1 {
        var c1, a1 := RoutesOnce(root, base, [k], a, cur.routes, unit);
        AfterRoutes(c, c1, a, a1, cur.routes);
        GetPut(root, [k], c1, c1);
        var c2, a2 := ExitNodeRun(Put(root, [k], c1), base, [k], a1, cur.exitNode);
        SameExitOps(base, a, a1, cur.exitNode);
      } else {
        RoutesUntouched(base, a, cur.routes, unit);
        ApplyNothing(root);
        var c2, a2 := ExitNodeRun(root, base, [k], a, cur.exitNode);
      }
  }

  lemma AfterRoutes(c: Node, c1: Node, a: Approvers, a1: Approvers, routes: ListMap)
    requires ApproverSlot(Some(c), Some(a)) && RoutesDone(c, c1, a, a1, routes)
    ensures ApproversShape(c1, a1.routesKey, a1.exitKey)
    ensures ListSlot(SlotOf(c1, a1.exitKey), a1.exitNode)
    ensures a1.exitKey == a.exitKey && a1.exitNode == a.exitNode
  {
    hide Named, DecodeApprovers, ListSlot, MapSlot, RoutesFrame, RoutesClear, Others;
    DecodedShape(c, a);
    ShapeHasKeys(c, a.routesKey, a.exitKey);
  }

  /** `diffAutoApprovers` on the member k of the top-level object, when it runs. */
  lemma DiffApproversRun(root: Node, k: string, prior: Option<Approvers>, cur: InputApprovers, unit: string)
    returns (c': Node, a': Option<Approvers>)
    requires root.value.Obj? && ApproverSlot(MemberOf(root.value.members, k), prior)
    requires ApplyAll(root, DiffApprovers(Child("", k), prior, cur, unit)).Ok?
    ensures ApplyAll(root, DiffApprovers(Child("", k), prior, cur, unit)) == Ok(c')
    ensures c' == root || exists n :: c' == SetMember(root, k, n)
    ensures c'.value.Obj? && ApproverSlot(MemberOf(c'.value.members, k), a')
    ensures prior.Some? ==>
              var was, now := MemberOf(root.value.members, k), MemberOf(c'.value.members, k);
              now.Some? && a'.Some? && ApproversDone(was.value, now.value, prior.value, a'.value, cur)
    ensures prior.None? ==>
              (if a'.Some? then a'.value.Routes() == NonMeta(cur.routes) && a'.value.ExitNode() == cur.exitNode
               else |cur.routes| == 0 && cur.exitNode == []) &&
              (|cur.routes| == 0 && cur.exitNode == [] ==> c' == root) &&
              (ApproversApart(MemberOf(root.value.members, k)) ==> ApproversApart(MemberOf(c'.value.members, k)))
  {
    hide MemberOf, SetMember, DecodeApprovers, RenderApprovers, RoutesOps, ExitNodeOps, ApproversShape, RoutesDone,
         ExitDone, ApproversDone, ListSlot, MapSlot, Named, ApproversApart;
    TokensOfChild("", k);
    assert [] + [k] == [k];
    GetMember(root, k);
    match prior
    case None =>
      if |cur.routes| == 0 && cur.exitNode == [] {
        c', a' := root, None;
      } else {
        var n := RenderApprovers(cur.routes, cur.exitNode, unit, unit);
        ApproversReadBack(cur.routes, cur.exitNode, unit, unit);
        RenderedApproversApart(cur.routes, cur.exitNode, unit);
        SetMemberEffect(root, k, n);
        OneOp(root, "", [], k, Add(n));
        c', a' := SetMember(root, k, n), Some(DecodeApprovers(Std(n)).value);
      }
    case Some(a) =>
      var base := Child("", k);
      var c := Get(root, [k]).value;
      ApplyConcat(root, RoutesOps(base, a, cur.routes, unit), ExitNodeOps(base, a, cur.exitNode));
      var c1, a1;
      if |Named(c.value.members, a.routesKey.GetOr("routes"))| <= 1 {
        c1, a1 := RoutesOnce(root, base, [k], a, cur.routes, unit);
      } else {
        c1 := RoutesRepeated(root, base, [k], a, cur.routes, unit);
        a1 := a;
      }
      AfterRoutes(c, c1, a, a1, cur.routes);
      var root1 := Put(root, [k], c1);
      GetPut(root, [k], c1, c1);
      var c2, a2 := ExitNodeRun(root1, base, [k], a1, cur.exitNode);
      GetPut(root, [k], c1, c2);
      SameExitOps(base, a, a1, cur.exitNode);
      SetMemberEffect(root, k, c2);
      c' := SetMember(root, k, c2);
      a' := Some(a2);
      PartsCompose(c, c1, c2, a, a1, a2, cur);
      DoneSlot(c, c2, a, a2, cur);
  }

  lemma DoneSlot(was: Node, now: Node, a: Approvers, a': Approvers, cur: InputApprovers)
    requires ApproversDone(was, now, a, a', cur)
    ensures ApproverSlot(Some(now), Some(a'))
  {
  }

  lemma SameExitOps(base: string, a: Approvers, b: Approvers, exitNode: seq<string>)
    requires a.exitKey == b.exitKey && a.exitNode == b.exitNode
    ensures ExitNodeOps(base, a, exitNode) == ExitNodeOps(base, b, exitNode)
  {
  }

  lemma OthersWiden(a: seq<Member>, b: seq<Member>, small: set<string>, large: set<string>)
    requires Others(a, small) == Others(b, small) && small <= large
    ensures Others(a, large) == Others(b, large)
  {
    OthersTwice(a, small, large);
    OthersTwice(b, small, large);
  }

  lemma {:induction false} OthersTwice(ms: seq<Member>, small: set<string>, large: set<string>)
    requires small <= large
    ensures Others(Others(ms, small), large) == Others(ms, large)
  {
    if ms != [] {
      OthersTwice(ms[1..], small, large);
      if ms[0].name !in small {
        assert Others(ms, small)[1..] == Others(ms[1..], small);
      } else {
        assert Others(ms, small) == Others(ms[1..], small);
      }
    }
  }

  lemma RenderedApproversApart(routes: ListMap, exitNode: seq<string>, unit: string)
    ensures RenderApprovers(routes, exitNode, unit, unit).value.Obj?
    ensures ApproversApart(Some(RenderApprovers(routes, exitNode, unit, unit)))
  {
    hide RenderBlock, RenderStrings, EqualFold;
    var n := RenderApprovers(routes, exitNode, unit, unit);
    var block := RenderBlock(routes, RenderStrings, unit + unit, unit);
    BlockApart(routes, unit + unit, unit);
    StringsShape(exitNode);
    assert forall m | m in n.value.members :: m.node.value in {block.value, RenderStrings(exitNode).value};
  }

  lemma StringsShape(ss: seq<string>)
    ensures RenderStrings(ss).value.Arr?
  {
  }

  lemma BlockApart(m: ListMap, ind: string, unit: string)
    ensures Apart(Some(RenderBlock(m, RenderStrings, ind, unit)))
  {
  }
}

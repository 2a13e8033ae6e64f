/** Running the operations of one map section or one list section (internal/aclmodel/patch.go).
    The operations of `diffListMap`, `diffStringMap` and `diffSeq` are run through the interpreter from the
    root; they succeed, and the section's member then holds what was submitted. */
module SectionRuns {
  import opened Base
  import opened Text
  import opened Pointer
  import opened Tree
  import opened Names
  import opened AclModel
  import opened Render
  import opened Plan
  import opened MapRuns
  import Lcs

  /** A member's value when it is there and not null. */
  predicate Missing(slot: Option<Node>) { slot.None? || slot.value.value.Null? }

  function SetMember(c: Node, k: string, n: Node): (r: Node)
    requires c.value.Obj?
    ensures r.value.Obj?
  {
    c.(value := Obj(EditObject(c.value.members, k, Add(n)).value, c.value.close))
  }

  lemma {:induction false} SetMemberEffect(c: Node, k: string, n: Node)
    requires c.value.Obj?
    ensures MemberOf(SetMember(c, k, n).value.members, k) == Some(n)
    ensures Others(SetMember(c, k, n).value.members, {k}) == Others(c.value.members, {k})
    ensures MemberOf(c.value.members, k).Some? ==> Get(c, [k]).Some? && Put(c, [k], n) == SetMember(c, k, n)
    ensures EditHere(c, k, Add(n)) == Ok(SetMember(c, k, n))
    ensures MemberOf(c.value.members, k).Some? ==> EditHere(c, k, Replace(n)) == Ok(SetMember(c, k, n))
  {
    var ms := c.value.members;
    EditKeepsOthers(ms, k, Add(n), {k});
    match Index(ms, k)
    case None => IndexAppend(ms, Member("", k, "", n), k);
    case Some(i) => IndexIgnoresNodes(ms, ms[i := ms[i].(node := n)], k);
  }

  lemma SetMemberNamed(c: Node, k: string, n: Node)
    requires c.value.Obj?
    ensures SameShell(c, SetMember(c, k, n))
    ensures forall x :: Named(SetMember(c, k, n).value.members, x) ==
              if x == k then EditFirst(Named(c.value.members, x), Some(n)) else Named(c.value.members, x)
  {
    hide Named, EditFirst, EditObject;
    SetMemberEffect(c, k, n);
    forall x
      ensures Named(SetMember(c, k, n).value.members, x) ==
              if x == k then EditFirst(Named(c.value.members, x), Some(n)) else Named(c.value.members, x)
    {
      EditNamed(c.value.members, k, Add(n), x);
    }
  }

  lemma GetMember(c: Node, k: string)
    requires c.value.Obj?
    ensures Get(c, [k]) == MemberOf(c.value.members, k)
  {
    if Index(c.value.members, k).Some? {
      var n := c.value.members[Index(c.value.members, k).value].node;
      assert [k][1..] == [] && Get(n, []) == Some(n);
    }
  }

  /** One operation at a member of the container at a path. */
  lemma OneOp(root: Node, base: string, path: seq<string>, k: string, c: Change)
    requires Tokens(base) == Some(path) && Get(root, path).Some?
    requires EditHere(Get(root, path).value, k, c).Ok?
    ensures ApplyAll(root, [Op(c, Child(base, k))]) == Ok(Put(root, path, EditHere(Get(root, path).value, k, c).value))
  {
    TokensOfChild(base, k);
    ApplyBelow(root, path, k, c);
  }

  // ---- maps ----

  /** A member that decodes as m; None when it is absent or null. */
  ghost predicate MapSlot<T>(slot: Option<Node>, m: Option<map<string, T>>, read: Json -> Option<T>) {
    if m.None? then Missing(slot)
    else
      slot.Some? && slot.value.value.Obj? && DecodeMap(Std(slot.value), read) == Ok(m.value)
  }

  /** No key that differs is the name of two members. */
  ghost predicate MapClear<T>(slot: Option<Node>, prior: Option<map<string, T>>, cur: map<string, T>) {
    prior.Some? && slot.Some? && slot.value.value.Obj? ==>
      NoneRepeated(slot.value.value.members, Touched(prior.value, cur))
  }

  /** An object there has unique names. */
  predicate Apart(slot: Option<Node>) { slot.Some? && slot.value.value.Obj? ==> UniqueNames(slot.value.value.members) }

  lemma BlockIsSlot<T>(m: map<string, T>, render: T -> Node, read: Json -> Option<T>, ind: string, unit: string)
    requires forall t: T | t in m.Values :: read(Std(render(t))) == Some(t)
    ensures MapSlot(Some(RenderBlock(m, render, ind, unit)), Some(NonMeta(m)), read)
    ensures Apart(Some(RenderBlock(m, render, ind, unit)))
  {
    BlockReadsBack(m, render, read, ind, unit);
  }

  lemma RunMapBelow<T>(root: Node, base: string, path: seq<string>, k: string, prior: map<string, T>,
                       cur: map<string, T>, render: T -> Node, read: Json -> Option<T>)
    returns (n: Node, m: map<string, T>)
    requires Tokens(base) == Some(path) && Get(root, path).Some? && Get(root, path).value.value.Obj?
    requires MapSlot(MemberOf(Get(root, path).value.value.members, k), Some(prior), read)
    requires forall t: T | t in cur.Values :: read(Std(render(t))) == Some(t)
    ensures ApplyAll(root, At(Child(base, k), MapEdits(prior, cur, render))) ==
            Ok(Put(root, path, SetMember(Get(root, path).value, k, n)))
    ensures MapSlot(Some(n), Some(m), read)
    ensures var was := MemberOf(Get(root, path).value.value.members, k);
            && SameBut(was.value, n, Touched(prior, cur))
            && (m == NonMeta(cur) <==> MapClear(was, Some(prior), cur))
            && (Apart(was) ==> Apart(Some(n)))
  {
    hide MapEdits, RunHere, DecodeMap, UniqueNames, Others, NoneRepeated, Touched;
    var c := Get(root, path).value;
    var was := MemberOf(c.value.members, k).value;
    MapEditsRun(was, prior, cur, render, read);
    n := RunHere(was, MapEdits(prior, cur, render)).value;
    m := DecodeMap(Std(n), read).value;
    TokensOfChild(base, k);
    GetMember(c, k);
    PutSteps(root, path, [k], n);
    RunBelow(root, Child(base, k), path + [k], MapEdits(prior, cur, render));
    SetMemberEffect(c, k, n);
  }

  /** `diffListMap` or `diffStringMap` on the member k of the object at a path. */
  lemma DiffMapRun<T>(root: Node, base: string, path: seq<string>, k: string, prior: Option<map<string, T>>,
                      cur: map<string, T>, render: T -> Node, read: Json -> Option<T>, ind: string, unit: string)
    returns (c': Node, m': Option<map<string, T>>)
    requires Tokens(base) == Some(path) && Get(root, path).Some? && Get(root, path).value.value.Obj?
    requires MapSlot(MemberOf(Get(root, path).value.value.members, k), prior, read)
    requires forall t: T | t in cur.Values :: read(Std(render(t))) == Some(t)
    ensures ApplyAll(root, DiffMap(Child(base, k), prior, cur, render, ind, unit)) == Ok(Put(root, path, c'))
    ensures c' == Get(root, path).value || exists n :: c' == SetMember(Get(root, path).value, k, n)
    ensures c'.value.Obj? && MapSlot(MemberOf(c'.value.members, k), m', read)
    ensures m'.GetOr(map[]) == NonMeta(cur) <==> MapClear(MemberOf(Get(root, path).value.value.members, k), prior, cur)
    ensures prior.Some? ==>
              var was, now := MemberOf(Get(root, path).value.value.members, k), MemberOf(c'.value.members, k);
              was.Some? && now.Some? && SameBut(was.value, now.value, Touched(prior.value, cur))
    ensures prior.None? && |cur| == 0 ==> c' == Get(root, path).value
    ensures Apart(MemberOf(Get(root, path).value.value.members, k)) ==> Apart(MemberOf(c'.value.members, k))
  {
    hide MapEdits, DecodeMap, RenderBlock, MemberOf, SetMember, SameBut, Apart, NoneRepeated, Touched;
    var c := Get(root, path).value;
    match prior
    case None =>
      if |cur| == 0 {
        assert cur == map[];
        c', m' := c, None;
        PutSame(root, path, c);
      } else {
        var n := RenderBlock(cur, render, ind, unit);
        BlockIsSlot(cur, render, read, ind, unit);
        SetMemberEffect(c, k, n);
        OneOp(root, base, path, k, Add(n));
        c', m' := SetMember(c, k, n), Some(NonMeta(cur));
      }
    case Some(p) =>
      var n, m := RunMapBelow(root, base, path, k, p, cur, render, read);
      SetMemberEffect(c, k, n);
      c', m' := SetMember(c, k, n), Some(m);
  }

  // ---- arrays ----

  /** An array member whose elements read as the given identities. */
  ghost predicate SeqSlot<K>(slot: Option<Node>, ids: Option<seq<K>>, read: Json -> Result<K>) {
    if ids.None? then Missing(slot)
    else
      && slot.Some? && slot.value.value.Arr? && |slot.value.value.elems| == |ids.value|
      && forall i | 0 <= i < |ids.value| :: read(Std(slot.value.value.elems[i])) == Ok(ids.value[i])
  }

  lemma {:induction false} ScriptHere(n: Node, script: seq<Lcs.Edit<Node>>)
    requires n.value.Arr? && Lcs.Run(n.value.elems, script).Done?
    ensures RunHere(n, ScriptEdits(script)) == Ok(n.(value := Arr(Lcs.Run(n.value.elems, script).list, n.value.close)))
    decreases |script|
  {
    if script != [] {
      var e := ScriptEdits(script)[0];
      var es := Lcs.RunEdit(n.value.elems, script[0]).list;
      ArrayIndexOfDecimal(script[0].i);
      assert Decimal(script[0].i) != "-" by { assert IsDigit(Decimal(script[0].i)[0]); }
      var m := n.(value := Arr(es, n.value.close));
      assert EditHere(n, e.token, e.change) == Ok(m);
      assert ScriptEdits(script)[1..] == ScriptEdits(script[1..]);
      ScriptHere(m, script[1..]);
    }
  }

  /** `diffSeq` on the member k of the top-level object. */
  lemma DiffSeqRun<K>(root: Node, k: string, prior: Option<seq<K>>, cur: seq<K>, items: seq<Node>,
                      read: Json -> Result<K>, ind: string, unit: string)
    returns (c': Node, ids': Option<seq<K>>)
    requires root.value.Obj? && SeqSlot(MemberOf(root.value.members, k), prior, read)
    requires |items| == |cur| && forall j | 0 <= j < |cur| :: read(Std(items[j])) == Ok(cur[j])
    ensures ApplyAll(root, DiffSeq(Child("", k), prior.Some?, prior.GetOr([]), cur, items, ind, unit)) == Ok(c')
    ensures c' == root || exists n :: c' == SetMember(root, k, n)
    ensures c'.value.Obj? && SeqSlot(MemberOf(c'.value.members, k), ids', read) && ids'.GetOr([]) == cur
    ensures prior.Some? ==>
              var was := MemberOf(root.value.members, k).value;
              MemberOf(c'.value.members, k) ==
                Some(was.(value := Arr(Lcs.Rebuilt(prior.value, cur, was.value.elems, items), was.value.close)))
    ensures prior.None? && cur == [] ==> c' == root
  {
    hide MemberOf, SetMember, SeqSlot, Lcs.Script, Lcs.Rebuilt, DiffSeq;
    match prior
    case None =>
      if cur == [] {
        c', ids' := root, None;
        NothingPlanned<K>(k, items, ind, unit);
      } else {
        c' := SeqAdded(root, k, cur, items, read, ind, unit);
        ids' := Some(cur);
      }
    case Some(p) =>
      c' := SeqEdited(root, k, p, cur, items, read, ind, unit);
      ids' := Some(cur);
  }

  lemma NothingPlanned<K>(k: string, items: seq<Node>, ind: string, unit: string)
    requires items == []
    ensures DiffSeq<K>(Child("", k), false, [], [], items, ind, unit) == []
  {
  }

  /** Without the member, the whole list is added. */
  lemma SeqAdded<K>(root: Node, k: string, cur: seq<K>, items: seq<Node>, read: Json -> Result<K>, ind: string,
                    unit: string)
    returns (c': Node)
    requires root.value.Obj? && cur != []
    requires |items| == |cur| && forall j | 0 <= j < |cur| :: read(Std(items[j])) == Ok(cur[j])
    ensures ApplyAll(root, DiffSeq(Child("", k), false, [], cur, items, ind, unit)) == Ok(c')
    ensures c'.value.Obj? && exists n :: c' == SetMember(root, k, n)
    ensures SeqSlot(MemberOf(c'.value.members, k), Some(cur), read)
  {
    hide MemberOf, SetMember, RenderList;
    var n := RenderList(items, ind, unit);
    ListReadsBack(items, ind, unit);
    RenderListShape(items, ind, unit);
    StdOfComposite(n);
    forall i | 0 <= i < |cur| ensures read(Std(n.value.elems[i])) == Ok(cur[i]) {
      assert StdElems(n.value.elems)[i] == StdElems(items)[i];
    }
    SetMemberEffect(root, k, n);
    OneOp(root, "", [], k, Add(n));
    c' := SetMember(root, k, n);
  }

  /** With the member, its array is edited in place. */
  lemma SeqEdited<K>(root: Node, k: string, p: seq<K>, cur: seq<K>, items: seq<Node>, read: Json -> Result<K>,
                     ind: string, unit: string)
    returns (c': Node)
    requires root.value.Obj? && SeqSlot(MemberOf(root.value.members, k), Some(p), read)
    requires |items| == |cur| && forall j | 0 <= j < |cur| :: read(Std(items[j])) == Ok(cur[j])
    ensures ApplyAll(root, DiffSeq(Child("", k), true, p, cur, items, ind, unit)) == Ok(c')
    ensures c'.value.Obj? && exists n :: c' == SetMember(root, k, n)
    ensures SeqSlot(MemberOf(c'.value.members, k), Some(cur), read)
    ensures var was := MemberOf(root.value.members, k).value;
            MemberOf(c'.value.members, k) ==
              Some(was.(value := Arr(Lcs.Rebuilt(p, cur, was.value.elems, items), was.value.close)))
  {
    hide MemberOf, SetMember, Lcs.Script, Lcs.Rebuilt, Lcs.Run, ScriptEdits, At;
    var was := MemberOf(root.value.members, k).value;
    var es := was.value.elems;
    Lcs.ScriptRuns(p, cur, es, items);
    Lcs.RebuiltIds(p, cur, es, items, (n: Node, id: K) => read(Std(n)) == Ok(id));
    var script := Lcs.Script(p, cur, items);
    ScriptHere(was, script);
    var n := was.(value := Arr(Lcs.Rebuilt(p, cur, es, items), was.value.close));
    GetMember(root, k);
    TokensOfChild("", k);
    assert [] + [k] == [k];
    RunBelow(root, Child("", k), [k], ScriptEdits(script));
    SetMemberEffect(root, k, n);
    c' := SetMember(root, k, n);
  }

  lemma RenderListShape(items: seq<Node>, ind: string, unit: string)
    ensures RenderList(items, ind, unit).value.Arr? && |RenderList(items, ind, unit).value.elems| == |items|
  {
  }
}

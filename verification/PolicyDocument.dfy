/** The document object: planning reads the tree and the model, applying changes the tree in place. */
module PolicyDocument {
  import opened Base
  import opened Text
  import opened Pointer
  import opened Tree
  import opened AclModel
  import opened Render
  import opened Plan
  import opened Layout
  import opened TidyPass
  import Lcs

  // ---- the diff loops ----

  /** Sorted keys, smallest first. */
  method SortedKeys(keys: set<string>) returns (r: seq<string>)
    ensures r == Sorted(keys)
  {
    hide Sorted, Least;
    r := [];
    var rest := keys;
    while rest != {}
      invariant r + Sorted(rest) == Sorted(keys)
      decreases |rest|
    {
      var k := Least(rest);
      SortedStep(rest);
      Lcs.Associates(r, k, Sorted(rest - {k}));
      r := r + [k];
      rest := rest - {k};
    }
    SortedNothing();
  }

  lemma SortedStep(s: set<string>)
    requires s != {}
    ensures Sorted(s) == [Least(s)] + Sorted(s - {Least(s)})
  {
  }

  lemma SortedNothing()
    ensures Sorted({}) == []
  {
  }

  lemma RemoveStep<T>(base: string, ks: seq<string>, i: nat, cur: map<string, T>)
    requires i < |ks|
    ensures At(base, RemoveEdits(ks[..i + 1], cur)) ==
            At(base, RemoveEdits(ks[..i], cur)) + (if ks[i] in cur then [] else [Op(Remove, Child(base, ks[i]))])
  {
    assert ks[..i + 1][..i] == ks[..i];
  }

  lemma SetStep<T>(base: string, ks: seq<string>, i: nat, prior: map<string, T>, cur: map<string, T>, render: T -> Node)
    requires i < |ks| && forall k | k in ks :: k in cur
    ensures forall k | k in ks[..i] || k in ks[..i + 1] :: k in cur
    ensures var k := ks[i];
            At(base, SetEdits(ks[..i + 1], prior, cur, render)) ==
            At(base, SetEdits(ks[..i], prior, cur, render)) +
            (if k !in prior then [Op(Add(render(cur[k])), Child(base, k))]
             else if prior[k] != cur[k] then [Op(Replace(render(cur[k])), Child(base, k))]
             else [])
  {
    assert ks[..i + 1][..i] == ks[..i];
  }

  lemma AtConcat(base: string, a: seq<ChildEdit>, b: seq<ChildEdit>)
    ensures At(base, a + b) == At(base, a) + At(base, b)
  {
  }

  /** `diffListMap` and `diffStringMap`: removals in key order, then additions and replacements. */
  method DiffMapLoop<T(==)>(base: string, prior: Option<map<string, T>>, cur: map<string, T>, render: T -> Node,
                            ind: string, unit: string) returns (ops: seq<Op>)
    ensures ops == DiffMap(base, prior, cur, render, ind, unit)
  {
    hide Sorted, RenderBlock, At, Child, RemoveEdits, SetEdits;
    if prior.None? {
      if |cur| == 0 { return []; }
      return [Op(Add(RenderBlock(cur, render, ind, unit)), base)];
    }
    var p := prior.value;
    var removed := SortedKeys(p.Keys);
    var kept := SortedKeys(cur.Keys);
    assert forall k | k in kept :: k in cur;
    assert removed[..0] == [] && kept[..0] == [];
    ops := [];
    NoEdits(base, p, cur, render);
    for i := 0 to |removed|
      invariant ops == At(base, RemoveEdits(removed[..i], cur))
    {
      RemoveStep(base, removed, i, cur);
      if removed[i] !in cur {
        ops := ops + [Op(Remove, Child(base, removed[i]))];
      }
    }
    assert removed[..|removed|] == removed;
    ghost var removals := ops;
    for i := 0 to |kept|
      invariant forall k | k in kept[..i] :: k in cur
      invariant ops == removals + At(base, SetEdits(kept[..i], p, cur, render))
    {
      var k := kept[i];
      SetStep(base, kept, i, p, cur, render);
      if k !in p {
        ops := ops + [Op(Add(render(cur[k])), Child(base, k))];
      } else if p[k] != cur[k] {
        ops := ops + [Op(Replace(render(cur[k])), Child(base, k))];
      }
    }
    assert kept[..|kept|] == kept;
    AtConcat(base, RemoveEdits(removed, cur), SetEdits(kept, p, cur, render));
  }

  lemma NoEdits<T>(base: string, prior: map<string, T>, cur: map<string, T>, render: T -> Node)
    ensures At(base, RemoveEdits([], cur)) == [] && At(base, SetEdits([], prior, cur, render)) == []
  {
  }

  function EditOp(base: string, e: Lcs.Edit<Node>): Op {
    match e
    case Remove(i) => Op(Change.Remove, Element(base, i))
    case Insert(i, n) => Op(Add(n), Element(base, i))
  }

  lemma ScriptOps(base: string, script: seq<Lcs.Edit<Node>>)
    ensures At(base, ScriptEdits(script)) == seq(|script|, i requires 0 <= i < |script| => EditOp(base, script[i]))
  {
    forall i | 0 <= i < |script| ensures At(base, ScriptEdits(script))[i] == EditOp(base, script[i]) {
      ElementIsChild(base, script[i].i);
    }
  }

  lemma RemovalsFrom(keep: seq<bool>, i: nat)
    requires i < |keep|
    ensures Lcs.Removals<Node>(keep[..i + 1]) ==
            (if keep[i] then [] else [Lcs.Edit.Remove(i)]) + Lcs.Removals<Node>(keep[..i])
  {
    assert keep[..i + 1][..i] == keep[..i];
  }

  /** `diffSeq`: removals in descending order, then additions in ascending order. */
  method DiffSeqLoop<K(==)>(base: string, had: bool, oldIds: seq<K>, curIds: seq<K>, items: seq<Node>,
                            ind: string, unit: string) returns (ops: seq<Op>)
    requires |items| == |curIds|
    ensures ops == DiffSeq(base, had, oldIds, curIds, items, ind, unit)
  {
    hide Lcs.Masks, RenderList;
    if !had {
      if curIds == [] { return []; }
      return [Op(Add(RenderList(items, ind, unit)), base)];
    }
    var keepOld, keepCur := Lcs.Compute(oldIds, curIds);
    ghost var script: seq<Lcs.Edit<Node>> := [];
    ops := [];
    var i := |oldIds| - 1;
    assert keepOld[..|oldIds|] == keepOld;
    while i >= 0
      invariant -1 <= i < |oldIds|
      invariant script + Lcs.Removals(keepOld[..i + 1]) == Lcs.Removals(keepOld)
      invariant |ops| == |script| && forall x | 0 <= x < |ops| :: ops[x] == EditOp(base, script[x])
    {
      RemovalsFrom(keepOld, i);
      if !keepOld[i] {
        ops := ops + [Op(Remove, Element(base, i))];
        Lcs.Associates(script, Lcs.Edit.Remove(i), Lcs.Removals(keepOld[..i]));
        script := script + [Lcs.Edit.Remove(i)];
      } else {
        assert [] + Lcs.Removals<Node>(keepOld[..i]) == Lcs.Removals(keepOld[..i]);
      }
      i := i - 1;
    }
    assert script == Lcs.Removals(keepOld);
    var j := 0;
    while j < |curIds|
      invariant 0 <= j <= |curIds|
      invariant script + Lcs.Insertions(keepCur, items, j) == Lcs.Script(oldIds, curIds, items)
      invariant |ops| == |script| && forall x | 0 <= x < |ops| :: ops[x] == EditOp(base, script[x])
    {
      if !keepCur[j] {
        ops := ops + [Op(Add(items[j]), Element(base, j))];
        Lcs.Associates(script, Lcs.Edit.Insert(j, items[j]), Lcs.Insertions(keepCur, items, j + 1));
        script := script + [Lcs.Edit.Insert(j, items[j])];
      } else {
        assert [] + Lcs.Insertions(keepCur, items, j + 1) == Lcs.Insertions(keepCur, items, j + 1);
      }
      j := j + 1;
    }
    assert script == Lcs.Script(oldIds, curIds, items);
    ScriptOps(base, script);
  }

  // ---- the object ----

  function LastHasAfter(c: Node): bool {
    Kids(c.value) > 0 && Kid(c.value, Kids(c.value) - 1).after.Some?
  }

  /** The trailing-comma and emptiness marks a plan records are those of the unpatched tree. */
  ghost predicate MarksOf(root: Node, p: Patch) {
    && p.trailing.Keys == p.wasEmpty.Keys
    && (forall ptr | ptr in p.trailing ::
          ptr != "" && Container(root, ptr).Some? &&
          p.trailing[ptr] == LastHasAfter(Container(root, ptr).value) &&
            p.wasEmpty[ptr] == (Kids(Container(root, ptr).value.value) == 0))
    && (forall op | op in p.ops && '/' in op.path && ParentOf(op) != "" && Container(root, ParentOf(op)).Some? ::
          ParentOf(op) in p.trailing)
  }

  class Document {
    var root: Node
    const formatted: bool
    const keys: Keys
    const model: Model

    /** A parsed document. */
    constructor (d: AclModel.Document, isFormatted: bool)
      ensures root == d.root && keys == d.keys && model == d.model && formatted == isFormatted
    {
      root, formatted, keys, model := d.root, isFormatted, d.keys, d.model;
    }

    function Parsed(): AclModel.Document
      reads this
    {
      AclModel.Document(root, keys, model)
    }

    /** Plans section by section, then records the layout of every container the operations work in. */
    method Plan(input: Input) returns (r: Result<Patch>)
      ensures r.Ok? <==> PlanOps(Parsed(), input).Ok?
      ensures r.Ok? ==> r.value.ops == PlanOps(Parsed(), input).value && MarksOf(root, r.value)
    {
      hide SectionOps, DiffMap, DiffSeq, DiffApprovers, DiffFlag, MarksOf;
      var unit := IndentUnit(root);
      var ops: seq<Op> := [];
      var i := 0;
      while i < |PLAN_ORDER|
        invariant 0 <= i <= |PLAN_ORDER|
        invariant SectionsOps(Parsed(), input, unit, PLAN_ORDER[..i]) == Ok(ops)
      {
        assert PLAN_ORDER[..i + 1][..i] == PLAN_ORDER[..i];
        var more := PlanSection(input, unit, PLAN_ORDER[i]);
        if more.Err? {
          PlanStops(Parsed(), input, unit, i + 1);
          return Err(more.reason);
        }
        ops := ops + more.value;
        i := i + 1;
      }
      assert PLAN_ORDER[..|PLAN_ORDER|] == PLAN_ORDER;
      var p := Marks(ops);
      r := Ok(p);
    }

    /** The operations of one section. */
    method PlanSection(input: Input, unit: string, s: Section) returns (r: Result<seq<Op>>)
      ensures r.Ok? <==> SectionOps(Parsed(), input, unit, s).Ok?
      ensures r.Ok? ==> r == SectionOps(Parsed(), input, unit, s)
    {
      hide DiffMap, DiffSeq, DiffApprovers, DiffFlag, CanonicalList;
      var ptr := Child("", keys.Of(s));
      var ops: seq<Op> := [];
      match s {
      case Groups =>
        if input.groups.Some? { ops := DiffMapLoop(ptr, model.groups, input.groups.value, RenderStrings, unit, unit); }
      case TagOwners =>
        if input.tagOwners.Some? {
          ops := DiffMapLoop(ptr, model.tagOwners, input.tagOwners.value, RenderStrings, unit, unit);
        }
      case Hosts =>
        if input.hosts.Some? { ops := DiffMapLoop(ptr, model.hosts, input.hosts.value, Text1, unit, unit); }
      case Acls =>
        if input.rules.Some? {
          var rules := EnabledRules(input.rules.value);
          ops := DiffSeqLoop(ptr, model.acls.Some?, Fingerprints(model.Acls()), Fingerprints(rules),
                             RenderRules(rules), unit, unit);
        }
      case AutoApprovers =>
        if input.approvers.Some? { ops := DiffApprovers(ptr, model.approvers, input.approvers.value, unit); }
      case RandomizeClientPort =>
        if input.randomize.Some? { ops := DiffFlag(ptr, model.randomize, input.randomize.value); }
      case _ =>
        var items := CanonicalList(input, s);
        if items.Err? { return Err(items.reason); }
        if items.value.Some? {
          ops := DiffSeqLoop(ptr, s in model.lists, model.List(s), items.value.value,
                             RenderElements(items.value.value), unit, unit);
        }
      }
      r := Ok(ops);
    }

    /** Which containers had a trailing comma, and which were empty, before patching. */
    method Marks(ops: seq<Op>) returns (p: Patch)
      ensures p.ops == ops && MarksOf(root, p)
    {
      hide Container;
      var trailing: map<string, bool>, wasEmpty: map<string, bool> := map[], map[];
      for i := 0 to |ops|
        invariant trailing.Keys == wasEmpty.Keys
        invariant forall ptr | ptr in trailing ::
          ptr != "" && Container(root, ptr).Some? &&
          trailing[ptr] == LastHasAfter(Container(root, ptr).value) &&
            wasEmpty[ptr] == (Kids(Container(root, ptr).value.value) == 0)
        invariant forall j | 0 <= j < i && '/' in ops[j].path && ParentOf(ops[j]) != "" &&
                  Container(root, ParentOf(ops[j])).Some? ::
          ParentOf(ops[j]) in trailing
      {
        if '/' in ops[i].path {
          var ptr := ParentOf(ops[i]);
          var c := Container(root, ptr);
          if ptr != "" && c.Some? {
            wasEmpty := wasEmpty[ptr := Kids(c.value.value) == 0];
            trailing := trailing[ptr := LastHasAfter(c.value)];
          }
        }
      }
      p := Patch(ops, trailing, wasEmpty);
    }

    /** Lays out every added or replaced node like its siblings, restores trailing commas, and puts the closing
        bracket of a formerly empty container on its own line. Only layout changes, and only there; the text before
        and after the document stays. */
    method Tidy(p: Patch)
      modifies this
      ensures SameOuter(old(root), root) && Tidied(old(root), root, [], p)
      ensures forall op | op in p.ops && '/' in op.path && !op.change.Remove? :: LikeSiblings(old(root), root, op)
      ensures forall op | op in p.ops && '/' in op.path && !op.change.Remove? :: LaidOut(root, op)
      ensures forall op | op in p.ops && '/' in op.path :: Ended(root, p, ParentOf(op))
    {
      hide Tidied, LaidOut, Ended, LaidUpTo, EndedAll, IndentUnit, ParentOf, Parents;
      var unit := IndentUnit(root);
      ghost var start := root;
      TidiedReflexive(root, [], p);
      NothingDone(root, p);
      var touched: set<string> := {};
      for i := 0 to |p.ops|
        invariant SameOuter(start, root) && Tidied(start, root, [], p)
        invariant LaidUpTo(root, p.ops, i) && touched == Parents(p.ops, i)
      {
        var op := p.ops[i];
        ghost var before := root;
        ParentsNext(p.ops, i);
        if '/' in op.path {
          touched := touched + {ParentOf(op)};
          if !op.change.Remove? {
            TidyChild(p, op, unit);
            TidiedTransitive(start, before, root, [], p);
            LaidUpToStays(before, root, p, i);
          }
        }
        LaidNext(root, p.ops, i);
      }
      NothingDone(root, p);
      ghost var all, ended := touched, {};
      while touched != {}
        invariant SameOuter(start, root) && Tidied(start, root, [], p)
        invariant LaidUpTo(root, p.ops, |p.ops|) && EndedAll(root, p, ended)
        invariant all == Parents(p.ops, |p.ops|) && ended + touched == all
        decreases |touched|
      {
        var ptr :| ptr in touched;
        ghost var before := root;
        TidyEnd(p, ptr, unit);
        TidiedTransitive(start, before, root, [], p);
        LaidUpToStays(before, root, p, |p.ops|);
        EndedNext(before, root, p, ended, ptr);
        touched, ended := touched - {ptr}, ended + {ptr};
      }
      AllTidy(start, root, p);
    }

    method TidyChild(p: Patch, op: Op, unit: string)
      requires op in p.ops && '/' in op.path && !op.change.Remove? && IsIndent(unit)
      modifies this
      ensures SameOuter(old(root), root) && Tidied(old(root), root, [], p) && LaidOut(root, op)
    {
      hide Tidied, FixChild, OwnIndent, ChildIndent, Addressed, Get, Put, Tokens;
      var (parent, key) := SplitPointer(op.path);
      var c := Container(root, parent);
      if c.Some? {
        var path := Tokens(parent).value;
        var ind := SiblingIndent(c.value, OwnIndent(root, parent, unit) + unit);
        OpAddresses(p, op);
        FixChildTidies(c.value, key, ind, path, p);
        FixChildKeepsOuter(c.value, key, ind);
        assert [] + path == path;
        PutTidied(root, [], path, FixChild(c.value, key, ind), p);
        FixChildLaysOut(root, op, ind);
        root := Put(root, path, FixChild(c.value, key, ind));
      } else {
        TidiedReflexive(root, [], p);
      }
    }

    method TidyEnd(p: Patch, ptr: string, unit: string)
      requires IsIndent(unit) && ptr in Parents(p.ops, |p.ops|)
      modifies this
      ensures SameOuter(old(root), root) && Tidied(old(root), root, [], p) && Ended(root, p, ptr)
    {
      hide Tidied, FixEnd, OwnIndent, TouchedWith, Get, Put, Tokens;
      var c := Container(root, ptr);
      if ptr != "" && c.Some? {
        var path := Tokens(ptr).value;
        var ind := OwnIndent(root, ptr, unit);
        var j :| 0 <= j < |p.ops| && '/' in p.ops[j].path && ParentOf(p.ops[j]) == ptr;
        var op := p.ops[j];
        OpTouches(p, op, ptr);
        FixEndTidies(c.value, Flag(p.trailing, ptr), Flag(p.wasEmpty, ptr), ind, path, p);
        FixEndKeepsOuter(c.value, Flag(p.trailing, ptr), Flag(p.wasEmpty, ptr), ind);
        assert [] + path == path;
        PutTidied(root, [], path, FixEnd(c.value, Flag(p.trailing, ptr), Flag(p.wasEmpty, ptr), ind), p);
        FixEndEnds(root, p, ptr, ind);
        root := Put(root, path, FixEnd(c.value, Flag(p.trailing, ptr), Flag(p.wasEmpty, ptr), ind));
      } else {
        TidiedReflexive(root, [], p);
      }
    }

    /** Applies a planned patch. A document in canonical format is reformatted (any formatter that preserves
        values will do); otherwise the layout pass runs. */
    method Apply(p: Patch, format: Node -> Node) returns (r: Result<()>)
      requires forall n: Node :: Std(format(n)) == Std(n)
      modifies this
      ensures p.ops == [] ==> r.Ok? && root == old(root)
      ensures r.Ok? <==> ApplyAll(old(root), p.ops).Ok?
      ensures r.Ok? ==> Std(root) == Std(ApplyAll(old(root), p.ops).value)
      ensures r.Ok? && p.ops != [] && !formatted ==> LaidOutFrom(ApplyAll(old(root), p.ops).value, root, p)
    {
      hide Tidied, LaidOut, LikeSiblings, Ended;
      if |p.ops| == 0 { return Ok(()); }
      var patched := ApplyAll(root, p.ops);
      if patched.Err? { return Err(patched.reason); }
      root := patched.value;
      if formatted {
        root := format(root);
      } else {
        Tidy(p);
        TidiedKeepsValues(patched.value, root, [], p);
      }
      r := Ok(());
    }
  }

  /** The same text before and after the document. */
  predicate SameOuter(a: Node, b: Node) { b.before == a.before && b.after == a.after }

  /** b is the patched tree a as the layout pass leaves it: only layout changed, only where it may; every added or
      replaced node is on a line of its own, indented like its siblings; trailing commas and closing brackets are
      back. */
  ghost predicate LaidOutFrom(a: Node, b: Node, p: Patch) {
    && SameOuter(a, b) && Tidied(a, b, [], p)
    && (forall op | op in p.ops && '/' in op.path && !op.change.Remove? :: LaidOut(b, op) && LikeSiblings(a, b, op))
    && (forall op | op in p.ops && '/' in op.path :: Ended(b, p, ParentOf(op)))
  }

  /** The containers the first n operations work in. */
  function Parents(ops: seq<Op>, n: nat): set<string>
    requires n <= |ops|
  {
    set j | 0 <= j < n && '/' in ops[j].path :: ParentOf(ops[j])
  }

  lemma ParentsNext(ops: seq<Op>, n: nat)
    requires n < |ops|
    ensures Parents(ops, n + 1) == Parents(ops, n) + if '/' in ops[n].path then {ParentOf(ops[n])} else {}
  {
  }

  /** The first n operations' children are laid out. */
  ghost predicate LaidUpTo(root: Node, ops: seq<Op>, n: nat)
    requires n <= |ops|
  {
    forall j | 0 <= j < n && '/' in ops[j].path && !ops[j].change.Remove? :: LaidOut(root, ops[j])
  }

  ghost predicate EndedAll(root: Node, p: Patch, ptrs: set<string>) { forall ptr | ptr in ptrs :: Ended(root, p, ptr) }

  lemma LaidUpToStays(a: Node, b: Node, p: Patch, n: nat)
    requires n <= |p.ops| && Tidied(a, b, [], p) && LaidUpTo(a, p.ops, n)
    ensures LaidUpTo(b, p.ops, n)
  {
    hide Tidied, LaidOut;
    forall j | 0 <= j < n && '/' in p.ops[j].path && !p.ops[j].change.Remove? ensures LaidOut(b, p.ops[j]) {
      LaidOutStays(a, b, p.ops[j], p);
    }
  }

  lemma LaidNext(root: Node, ops: seq<Op>, n: nat)
    requires n < |ops| && LaidUpTo(root, ops, n)
    requires '/' in ops[n].path && !ops[n].change.Remove? ==> LaidOut(root, ops[n])
    ensures LaidUpTo(root, ops, n + 1)
  {
    hide LaidOut;
  }

  lemma NothingDone(root: Node, p: Patch)
    ensures LaidUpTo(root, p.ops, 0) && EndedAll(root, p, {}) && Parents(p.ops, 0) == {}
  {
  }

  lemma AllTidy(start: Node, root: Node, p: Patch)
    requires Tidied(start, root, [], p)
    requires LaidUpTo(root, p.ops, |p.ops|) && EndedAll(root, p, Parents(p.ops, |p.ops|))
    ensures forall op | op in p.ops && '/' in op.path && !op.change.Remove? :: LaidOut(root, op)
    ensures forall op | op in p.ops && '/' in op.path && !op.change.Remove? :: LikeSiblings(start, root, op)
    ensures forall op | op in p.ops && '/' in op.path :: Ended(root, p, ParentOf(op))
  {
    hide LaidOut, Ended, Tidied, LikeSiblings;
    forall op | op in p.ops && '/' in op.path && !op.change.Remove? ensures LikeSiblings(start, root, op) {
      var j :| 0 <= j < |p.ops| && p.ops[j] == op;
      assert LaidOut(root, p.ops[j]);
      LaidLikeSiblings(start, root, op, p);
    }
  }

  lemma EndedNext(a: Node, b: Node, p: Patch, ptrs: set<string>, ptr: string)
    requires Tidied(a, b, [], p) && EndedAll(a, p, ptrs) && Ended(b, p, ptr)
    ensures EndedAll(b, p, ptrs + {ptr})
  {
    hide Tidied, Ended;
    forall q | q in ptrs ensures Ended(b, p, q) { EndedStays(a, b, p, q); }
  }

  lemma OpAddresses(p: Patch, op: Op)
    requires op in p.ops && '/' in op.path && !op.change.Remove? && Tokens(ParentOf(op)).Some?
    ensures Addressed(p, Tokens(ParentOf(op)).value + [SplitPointer(op.path).1])
  {
  }

  lemma OpTouches(p: Patch, op: Op, ptr: string)
    requires op in p.ops && '/' in op.path && ParentOf(op) == ptr && ptr != "" && Tokens(ptr).Some?
    ensures Flag(p.trailing, ptr) ==> TouchedWith(p, p.trailing, Tokens(ptr).value)
    ensures Flag(p.wasEmpty, ptr) ==> TouchedWith(p, p.wasEmpty, Tokens(ptr).value)
  {
  }

  lemma FixChildKeepsOuter(c: Node, key: string, ind: string)
    requires IsIndent(ind)
    ensures FixChild(c, key, ind).before == c.before && FixChild(c, key, ind).after == c.after
  {
  }

  lemma FixEndKeepsOuter(c: Node, trailing: bool, wasEmpty: bool, ind: string)
    requires IsIndent(ind)
    ensures var r := FixEnd(c, trailing, wasEmpty, ind); r.before == c.before && r.after == c.after
  {
  }

  lemma {:induction false} PlanStops(d: AclModel.Document, input: Input, unit: string, i: nat)
    requires 0 < i <= |PLAN_ORDER| && SectionsOps(d, input, unit, PLAN_ORDER[..i]).Err?
    ensures SectionsOps(d, input, unit, PLAN_ORDER).Err?
    decreases |PLAN_ORDER| - i
  {
    if i == |PLAN_ORDER| {
      assert PLAN_ORDER[..i] == PLAN_ORDER;
    } else {
      assert PLAN_ORDER[..i + 1][..i] == PLAN_ORDER[..i];
      PlanStops(d, input, unit, i + 1);
    }
  }
}

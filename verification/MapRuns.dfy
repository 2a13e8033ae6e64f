/** Running the edits of one map section on its object (internal/aclmodel/patch.go).
    Each removal, addition or replacement is one RFC 6902 operation on one member; together they turn an object
    that decodes as the prior map into one that decodes as the submitted map, unless a name they touch is repeated,
    and every other member, "#" members included, is the identical node in its place. */
module MapRuns {
  import opened Base
  import opened Text
  import opened Tree
  import opened Names
  import opened AclModel
  import opened Render
  import opened Plan

  /** The same node but for its members. */
  predicate SameShell(was: Node, now: Node) {
    && was.value.Obj? && now.value.Obj?
    && now.before == was.before && now.after == was.after && now.value.close == was.value.close
  }

  /** Two object nodes that differ only in members with touched names. */
  predicate SameBut(n: Node, r: Node, touched: set<string>) {
    SameShell(n, r) && Others(r.value.members, touched) == Others(n.value.members, touched)
  }

  lemma SameButSelf(n: Node, touched: set<string>)
    requires n.value.Obj?
    ensures SameBut(n, n, touched)
  {
  }

  lemma SameButJoins(a: Node, b: Node, c: Node, touched: set<string>)
    requires SameBut(a, b, touched) && SameBut(b, c, touched)
    ensures SameBut(a, c, touched)
  {
  }

  lemma SameButObjects(n: Node, r: Node, touched: set<string>)
    requires SameBut(n, r, touched)
    ensures r.value.Obj?
  {
  }

  /** One operation on one member of an object node. */
  lemma EditStep(n: Node, key: string, c: Change, touched: set<string>)
    requires n.value.Obj? && key in touched && (c.Add? || Named(n.value.members, key) != [])
    ensures EditHere(n, key, c).Ok? && SameBut(n, EditHere(n, key, c).value, touched)
    ensures forall x :: Named(EditHere(n, key, c).value.value.members, x) ==
              if x == key then EditFirst(Named(n.value.members, x), NewNode(c)) else Named(n.value.members, x)
  {
    hide Named, EditFirst, Index;
    var ms := n.value.members;
    FirstNamed(ms, key);
    EditKeepsOthers(ms, key, c, touched);
    forall x
      ensures Named(EditObject(ms, key, c).value, x) ==
              if x == key then EditFirst(Named(ms, x), NewNode(c)) else Named(ms, x)
    {
      EditNamed(ms, key, c, x);
    }
  }

  lemma RunOne(n: Node, e: ChildEdit)
    requires EditHere(n, e.token, e.change).Ok?
    ensures RunHere(n, [e]) == EditHere(n, e.token, e.change)
  {
  }

  lemma {:induction false} RemovesRun<T>(n: Node, ks: seq<string>, cur: map<string, T>, touched: set<string>)
    requires n.value.Obj? && Distinct(ks)
    requires forall k | k in ks :: Named(n.value.members, k) != [] && (k !in cur ==> k in touched)
    ensures RunHere(n, RemoveEdits(ks, cur)).Ok?
    ensures var r := RunHere(n, RemoveEdits(ks, cur)).value;
            SameBut(n, r, touched) &&
            forall x :: Named(r.value.members, x) ==
              if x in ks && x !in cur then EditFirst(Named(n.value.members, x), None) else Named(n.value.members, x)
  {
    hide Named, EditFirst, EditHere, Others;
    if ks != [] {
      var init, k := ks[..|ks| - 1], ks[|ks| - 1];
      assert ks == init + [k] && k !in init;
      RemovesRun(n, init, cur, touched);
      var m := RunHere(n, RemoveEdits(init, cur)).value;
      var e := if k in cur then [] else [ChildEdit(k, Remove)];
      RunHereConcat(n, RemoveEdits(init, cur), e);
      if k !in cur {
        EditStep(m, k, Remove, touched);
        RunOne(m, e[0]);
      }
    }
  }

  lemma {:induction false} SetsRun<T>(n: Node, ks: seq<string>, prior: map<string, T>, cur: map<string, T>,
                                      render: T -> Node, touched: set<string>)
    requires n.value.Obj? && Distinct(ks)
    requires forall k | k in ks :: k in cur && (k in prior ==> Named(n.value.members, k) != [])
    requires forall k | k in ks && Differs(k, prior, cur) :: k in touched
    ensures RunHere(n, SetEdits(ks, prior, cur, render)).Ok?
    ensures var r := RunHere(n, SetEdits(ks, prior, cur, render)).value;
            SameBut(n, r, touched) &&
            forall x :: Named(r.value.members, x) ==
              if x in ks && Differs(x, prior, cur) then EditFirst(Named(n.value.members, x), Some(render(cur[x])))
              else Named(n.value.members, x)
  {
    hide Named, EditHere, EditFirst, SameBut, RunHere, SetEdits;
    SameButSelf(n, touched);
    NothingRun(n, prior, cur, render);
    if ks != [] {
      var init, k := ks[..|ks| - 1], ks[|ks| - 1];
      assert ks == init + [k] && k !in init;
      SetsRun(n, init, prior, cur, render, touched);
      var m := RunHere(n, SetEdits(init, prior, cur, render)).value;
      var c := if k !in prior then Add(render(cur[k])) else Replace(render(cur[k]));
      var e := if Differs(k, prior, cur) then [ChildEdit(k, c)] else [];
      SetEditsStep(init, k, prior, cur, render);
      RunHereConcat(n, SetEdits(init, prior, cur, render), e);
      if Differs(k, prior, cur) {
        SameButObjects(n, m, touched);
        EditStep(m, k, c, touched);
        RunOne(m, e[0]);
        SameButJoins(n, m, EditHere(m, k, c).value, touched);
        assert NewNode(c) == Some(render(cur[k]));
      } else {
        RunNone(m);
      }
    }
  }

  lemma RunNone(n: Node)
    ensures RunHere(n, []) == Ok(n)
  {
  }

  lemma NothingRun<T>(n: Node, prior: map<string, T>, cur: map<string, T>, render: T -> Node)
    ensures RunHere(n, SetEdits([], prior, cur, render)) == Ok(n)
  {
  }

  lemma SetEditsStep<T>(init: seq<string>, k: string, prior: map<string, T>, cur: map<string, T>, render: T -> Node)
    requires k in cur && forall x | x in init :: x in cur
    ensures var c := if k !in prior then Add(render(cur[k])) else Replace(render(cur[k]));
            SetEdits(init + [k], prior, cur, render) ==
            SetEdits(init, prior, cur, render) + if Differs(k, prior, cur) then [ChildEdit(k, c)] else []
  {
    assert (init + [k])[..|init|] == init;
  }

  /** The keys a diff touches: removed, added or changed ones. */
  function Touched<T(==)>(prior: map<string, T>, cur: map<string, T>): set<string> {
    (set k | k in prior && k !in cur) + (set k | k in cur && Differs(k, prior, cur))
  }

  /** The members of one name after all edits of a map section. */
  function After<T(==)>(ns: seq<Node>, k: string, prior: map<string, T>, cur: map<string, T>,
                        render: T -> Node): seq<Node>
  {
    if k !in Touched(prior, cur) then ns
    else EditFirst(ns, if k in cur then Some(render(cur[k])) else None)
  }

  lemma {:induction false} EditsNamed<T>(n: Node, prior: map<string, T>, cur: map<string, T>, render: T -> Node)
    requires n.value.Obj? && forall k | k in prior :: Named(n.value.members, k) != []
    ensures RunHere(n, MapEdits(prior, cur, render)).Ok?
    ensures var r := RunHere(n, MapEdits(prior, cur, render)).value;
            SameBut(n, r, Touched(prior, cur)) &&
            forall x :: Named(r.value.members, x) == After(Named(n.value.members, x), x, prior, cur, render)
  {
    hide Named, Sorted, RunHere, RemoveEdits, SetEdits, EditFirst, Others;
    var rks, sks := Sorted(prior.Keys), Sorted(cur.Keys);
    RemovesRun(n, rks, cur, Touched(prior, cur));
    var m := RunHere(n, RemoveEdits(rks, cur)).value;
    assert forall k | k in sks :: k in cur;
    SetsRun(m, sks, prior, cur, render, Touched(prior, cur));
    RunHereConcat(n, RemoveEdits(rks, cur), SetEdits(sks, prior, cur, render));
    assert forall k :: (k in rks <==> k in prior) && (k in sks <==> k in cur);
  }

  // ---- reading back ----

  /** An entry reads as asked: absent, or with the value asked for. */
  predicate ReadsAs<T(==)>(ns: seq<Node>, k: string, cur: map<string, T>, read: Json -> Option<T>) {
    if ns == [] then k !in cur else k in cur && read(Std(ns[|ns| - 1])) == Some(cur[k])
  }

  predicate Readable<T>(ns: seq<Node>, read: Json -> Option<T>) { ns != [] ==> read(Std(ns[|ns| - 1])).Some? }

  /** Reading an object is reading the last member of each name. */
  lemma DecodesByLast<T>(n: Node, m: map<string, T>, read: Json -> Option<T>)
    requires n.value.Obj?
    ensures DecodeMap(Std(n), read).Ok? <==>
            forall k | !IsMetadata(k) :: Readable(Named(n.value.members, k), read)
    ensures DecodeMap(Std(n), read) == Ok(NonMeta(m)) <==>
            forall k | !IsMetadata(k) :: ReadsAs(Named(n.value.members, k), k, m, read)
  {
    hide Std, View, Named, IsMetadata;
    StdOfComposite(n);
    var v := View(StdMembers(n.value.members));
    forall k
      ensures k in v <==> Named(n.value.members, k) != []
      ensures k in v ==> v[k] == Std(Named(n.value.members, k)[|Named(n.value.members, k)| - 1])
    {
      ViewReadsLast(n.value.members, k);
    }
    if DecodeMap(Std(n), read) == Ok(NonMeta(m)) {
      forall k | !IsMetadata(k) ensures ReadsAs(Named(n.value.members, k), k, m, read) {
        var d := DecodeMap(Std(n), read).value;
        assert k in d <==> k in v;
        assert k in NonMeta(m) <==> k in m;
      }
    }
    if forall k | !IsMetadata(k) :: ReadsAs(Named(n.value.members, k), k, m, read) {
      assert forall k | k in v && !IsMetadata(k) :: ReadsAs(Named(n.value.members, k), k, m, read);
      assert (map k | k in v && !IsMetadata(k) :: read(v[k]).value) == NonMeta(m);
    }
  }

  /** One entry, before and after. */
  lemma EntryAfter<T>(ns: seq<Node>, k: string, prior: map<string, T>, cur: map<string, T>, render: T -> Node,
                      read: Json -> Option<T>)
    requires ReadsAs(ns, k, prior, read) && (k in cur ==> read(Std(render(cur[k]))) == Some(cur[k]))
    ensures Readable(After(ns, k, prior, cur, render), read)
    ensures ReadsAs(After(ns, k, prior, cur, render), k, cur, read) <==> k !in Touched(prior, cur) || |ns| <= 1
  {
    hide Std;
    if k in Touched(prior, cur) && |ns| > 1 {
      var out := After(ns, k, prior, cur, render);
      assert out[|out| - 1] == ns[|ns| - 1];
    }
  }

  /** None of the keys that an editor sees is the name of two members. */
  ghost predicate NoneRepeated(ms: seq<Member>, keys: set<string>) {
    forall k | k in keys && !IsMetadata(k) :: |Named(ms, k)| <= 1
  }

  /** The edits between two versions of a map always run on an object that decodes as the first, touch only the
      keys that differ and leave an object that decodes. It decodes as the second version (less its "#" keys)
      exactly when no key that differs was repeated: a repeated one keeps its last member, which is the one read. */
  lemma {:induction false} MapEditsRun<T>(n: Node, prior: map<string, T>, cur: map<string, T>, render: T -> Node,
                                          read: Json -> Option<T>)
    requires n.value.Obj? && DecodeMap(Std(n), read) == Ok(prior)
    requires forall t | t in cur.Values :: read(Std(render(t))) == Some(t)
    ensures RunHere(n, MapEdits(prior, cur, render)).Ok?
    ensures var r := RunHere(n, MapEdits(prior, cur, render)).value;
            && SameBut(n, r, Touched(prior, cur))
            && DecodeMap(Std(r), read).Ok?
            && (DecodeMap(Std(r), read) == Ok(NonMeta(cur)) <==>
                NoneRepeated(n.value.members, Touched(prior, cur)))
            && (UniqueNames(n.value.members) ==> UniqueNames(r.value.members))
  {
    hide DecodeMap, Named, RunHere, MapEdits, Touched, IsMetadata, Std, ReadsAs, Readable, After, SameBut;
    PriorIsPlain(n, prior, read);
    DecodesByLast(n, prior, read);
    NamedWhenRead(n, prior, read);
    EditsNamed(n, prior, cur, render);
    var r := RunHere(n, MapEdits(prior, cur, render)).value;
    SameButObjects(n, r, Touched(prior, cur));
    DecodesByLast(r, cur, read);
    forall k | !IsMetadata(k)
      ensures Readable(Named(r.value.members, k), read)
      ensures ReadsAs(Named(r.value.members, k), k, cur, read) <==>
              k !in Touched(prior, cur) || |Named(n.value.members, k)| <= 1
    {
      if k in cur { assert cur[k] in cur.Values; }
      EntryAfter(Named(n.value.members, k), k, prior, cur, render, read);
    }
    UniqueByName(n.value.members);
    UniqueByName(r.value.members);
    if UniqueNames(n.value.members) {
      forall k ensures |Named(r.value.members, k)| <= 1 {
        assert |Named(n.value.members, k)| <= 1;
        AfterOnce(Named(n.value.members, k), k, prior, cur, render);
      }
    }
  }

  lemma AfterOnce<T>(ns: seq<Node>, k: string, prior: map<string, T>, cur: map<string, T>, render: T -> Node)
    ensures |ns| <= 1 ==> |After(ns, k, prior, cur, render)| <= 1
  {
  }

  lemma PriorIsPlain<T>(n: Node, prior: map<string, T>, read: Json -> Option<T>)
    requires n.value.Obj? && DecodeMap(Std(n), read) == Ok(prior)
    ensures NonMeta(prior) == prior && forall k | k in prior :: !IsMetadata(k)
  {
    hide Std, View, IsMetadata;
    StdOfComposite(n);
  }

  lemma NamedWhenRead<T>(n: Node, prior: map<string, T>, read: Json -> Option<T>)
    requires n.value.Obj? && forall k | !IsMetadata(k) :: ReadsAs(Named(n.value.members, k), k, prior, read)
    requires forall k | k in prior :: !IsMetadata(k)
    ensures forall k | k in prior :: Named(n.value.members, k) != []
  {
    hide Std, Named, IsMetadata;
  }

  // ---- no operation ----

  lemma {:induction false} NoRemovals<T>(ks: seq<string>, cur: map<string, T>)
    ensures RemoveEdits(ks, cur) == [] <==> forall k | k in ks :: k in cur
  {
    if ks != [] {
      var init, last := ks[..|ks| - 1], ks[|ks| - 1];
      assert ks == init + [last];
      NoRemovals(init, cur);
    }
  }

  lemma {:induction false} NoSets<T>(ks: seq<string>, prior: map<string, T>, cur: map<string, T>, render: T -> Node)
    requires forall k | k in ks :: k in cur
    ensures SetEdits(ks, prior, cur, render) == [] <==> forall k | k in ks :: k in prior && prior[k] == cur[k]
  {
    if ks != [] {
      var init, last := ks[..|ks| - 1], ks[|ks| - 1];
      assert ks == init + [last];
      NoSets(init, prior, cur, render);
    }
  }

  /** A map section needs no operation exactly when it already holds the entries asked for. */
  lemma NoMapOps<T>(base: string, prior: Option<map<string, T>>, cur: map<string, T>, render: T -> Node, ind: string,
                    unit: string)
    ensures DiffMap(base, prior, cur, render, ind, unit) == [] <==> prior.GetOr(map[]) == cur
  {
    hide RenderBlock, Sorted, RemoveEdits, SetEdits;
    if prior.Some? {
      var p := prior.value;
      NoRemovals(Sorted(p.Keys), cur);
      NoSets(Sorted(cur.Keys), p, cur, render);
      assert |At(base, MapEdits(p, cur, render))| == |MapEdits(p, cur, render)|;
      assert (forall k | k in p :: k in cur) && (forall k | k in cur :: k in p && p[k] == cur[k]) <==> p == cur;
    } else {
      assert |cur| == 0 <==> cur == map[];
    }
  }
}

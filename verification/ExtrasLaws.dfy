/** What a rebase of a list section does with every element (frontend/src/pages/acls/model.ts). */
module ExtrasLaws {
  import opened Base
  import opened CanonicalJson
  import opened Records
  import opened DraftModel
  import opened ExtrasMerge

  function Values(items: seq<Item>): (r: seq<CVal>)
    ensures |r| == |items| && forall i | 0 <= i < |r| :: r[i] == items[i].value
  {
    seq(|items|, i requires 0 <= i < |items| => items[i].value)
  }

  function Second(edits: Entries<CVal, CVal>): (r: seq<CVal>)
    ensures |r| == |edits| && forall i | 0 <= i < |r| :: r[i] == edits[i].1
  {
    seq(|edits|, i requires 0 <= i < |edits| => edits[i].1)
  }

  // ---- taking an entry out ----

  lemma {:induction false} DeleteCounts(r: Entries<CVal, CVal>, c: CVal)
    requires IsRecord(r) && c in KeysOf(r)
    ensures |Delete(r, c)| + 1 == |r|
    ensures multiset(KeysOf(Delete(r, c))) + multiset{c} == multiset(KeysOf(r))
    ensures Get(r, c).Some? && multiset(Second(Delete(r, c))) + multiset{Get(r, c).value} == multiset(Second(r))
  {
    hide KeysOf, Second, IsRecord;
    RecordFirst(r);
    var k, v, tail := r[0].0, r[0].1, r[1..];
    KeysOfFirst(r);
    SecondOfFirst(r);
    CountFirst(k, KeysOf(tail));
    CountFirst(v, Second(tail));
    if k != c {
      DeleteCounts(tail, c);
      DeleteLater(r, c, multiset(KeysOf(tail)), multiset(Second(tail)));
    }
  }

  lemma {:induction false} DeleteLater(r: Entries<CVal, CVal>, c: CVal, keys: multiset<CVal>, values: multiset<CVal>)
    requires r != [] && r[0].0 != c && Get(r[1..], c).Some?
    requires multiset(KeysOf(Delete(r[1..], c))) + multiset{c} == keys
    requires multiset(Second(Delete(r[1..], c))) + multiset{Get(r[1..], c).value} == values
    ensures Get(r, c) == Get(r[1..], c)
    ensures multiset(KeysOf(Delete(r, c))) + multiset{c} == keys + multiset{r[0].0}
    ensures multiset(Second(Delete(r, c))) + multiset{Get(r, c).value} == values + multiset{r[0].1}
  {
    hide KeysOf, Second;
    var left := Delete(r[1..], c);
    assert ([r[0]] + left)[1..] == left;
    KeysOfFirst([r[0]] + left);
    SecondOfFirst([r[0]] + left);
    CountFirst(r[0].0, KeysOf(left));
    CountFirst(r[0].1, Second(left));
  }

  lemma RecordFirst(r: Entries<CVal, CVal>)
    requires r != [] && IsRecord(r)
    ensures IsRecord(r[1..]) && r[0].0 !in KeysOf(r[1..])
  {
    hide KeysOf;
    KeysOfFirst(r);
    DistinctFirst(r[0].0, KeysOf(r[1..]));
  }

  lemma CountFirst<T>(x: T, s: seq<T>)
    ensures multiset([x] + s) == multiset(s) + multiset{x}
  {
  }

  lemma SecondOfFirst(r: Entries<CVal, CVal>)
    requires r != []
    ensures Second(r) == [r[0].1] + Second(r[1..])
  {
  }

  // ---- conservation ----

  /** Elements dropped among those seen: as many copies of a content as were removed, or all there are. */
  function Dropped(removed: multiset<CVal>, seen: multiset<CVal>): multiset<CVal> { removed * seen }

  /** One step of the account. */
  lemma DroppedStep(removed: multiset<CVal>, seen: multiset<CVal>, c: CVal)
    ensures Dropped(removed, seen + multiset{c}) ==
            Dropped(removed, seen) + if seen[c] < removed[c] then multiset{c} else multiset{}
  {
  }

  datatype Sheet = Sheet(
    placed: multiset<CVal>, waiting: multiset<CVal>, dropped: multiset<CVal>, seen: multiset<CVal>,
    left: multiset<CVal>)
  {
    /** What was placed, what still waits, what was dropped and what was replaced balance what was seen
        and what was edited. */
    ghost predicate Balances(values: multiset<CVal>, all: multiset<CVal>) {
      placed + waiting + dropped + all == seen + values + left
    }
  }

  lemma SheetDrops(s: Sheet, c: CVal, values: multiset<CVal>, all: multiset<CVal>)
    requires s.Balances(values, all)
    ensures s.(dropped := s.dropped + multiset{c}, seen := s.seen + multiset{c}).Balances(values, all)
  {
    assert s.placed + s.waiting + (s.dropped + multiset{c}) + all ==
           (s.placed + s.waiting + s.dropped + all) + multiset{c};
  }

  lemma SheetPlaces(s: Sheet, c: CVal, values: multiset<CVal>, all: multiset<CVal>)
    requires s.Balances(values, all)
    ensures s.(placed := s.placed + multiset{c}, seen := s.seen + multiset{c}).Balances(values, all)
  {
    assert (s.placed + multiset{c}) + s.waiting + s.dropped + all ==
           (s.placed + s.waiting + s.dropped + all) + multiset{c};
  }

  lemma SheetReplaces(s: Sheet, c: CVal, e: CVal, waiting: multiset<CVal>, left: multiset<CVal>,
                      values: multiset<CVal>, all: multiset<CVal>)
    requires s.Balances(values, all) && waiting + multiset{e} == s.waiting && left + multiset{c} == s.left
    ensures Sheet(s.placed + multiset{e}, waiting, s.dropped, s.seen + multiset{c}, left).Balances(values, all)
  {
    assert (s.placed + multiset{e}) + waiting + s.dropped + all == s.placed + (waiting + multiset{e}) + s.dropped + all;
    assert (s.seen + multiset{c}) + values + left == s.seen + values + (left + multiset{c});
  }

  function SheetAt(server: seq<CVal>, removed: multiset<CVal>, edits: Entries<CVal, CVal>, keys: nat -> string,
                   n: nat): Sheet
    requires n <= |server|
  {
    var seen := multiset(server[..n]);
    var waiting := Waiting(edits, removed, seen);
    Sheet(multiset(Values(Survivors(server, removed, edits, keys, n))), multiset(Second(waiting)),
          Dropped(removed, seen), seen, multiset(KeysOf(waiting)))
  }

  lemma SheetStep(server: seq<CVal>, removed: multiset<CVal>, edits: Entries<CVal, CVal>, keys: nat -> string, j: nat,
                  values: multiset<CVal>, all: multiset<CVal>)
    requires j < |server| && IsRecord(edits) && SheetAt(server, removed, edits, keys, j).Balances(values, all)
    ensures SheetAt(server, removed, edits, keys, j + 1).Balances(values, all)
  {
    hide KeysOf, Second, Values, Waiting, IsRecord, Delete, Get, Dropped, Survivors, Survives, NewValue, Sheet.Balances;
    var c := server[j];
    var s := SheetAt(server, removed, edits, keys, j);
    assert server[..j + 1] == server[..j] + [c];
    var seen := multiset(server[..j]);
    var waiting := Waiting(edits, removed, seen);
    var left := if seen[c] < removed[c] then removed[c] - seen[c] else 0;
    SurvivorStep(server, removed, edits, keys, j, left);
    DroppedStep(removed, seen, c);
    var before := Survivors(server, removed, edits, keys, j);
    if left > 0 {
      assert before + [] == before;
      SheetDrops(s, c, values, all);
    } else {
      var e := Get(waiting, c).GetOr(c);
      GetWaiting(edits, removed, seen, c);
      ValuesStep(before, Item(keys(j), Some(j), e));
      GetKeys(waiting, c);
      if c in KeysOf(waiting) {
        DeleteCounts(waiting, c);
        var after := Delete(waiting, c);
        SheetReplaces(s, c, e, multiset(Second(after)), multiset(KeysOf(after)), values, all);
        assert SheetAt(server, removed, edits, keys, j + 1) ==
               Sheet(s.placed + multiset{e}, multiset(Second(after)), s.dropped,
                     s.seen + multiset{c}, multiset(KeysOf(after)));
      } else {
        DeleteAbsent(waiting, c);
        assert e == c;
        SheetPlaces(s, c, values, all);
        assert SheetAt(server, removed, edits, keys, j + 1) ==
               s.(placed := s.placed + multiset{c}, seen := s.seen + multiset{c});
      }
    }
  }

  lemma SheetStart(server: seq<CVal>, removed: multiset<CVal>, edits: Entries<CVal, CVal>, keys: nat -> string)
    ensures SheetAt(server, removed, edits, keys, 0).Balances(multiset(Second(edits)), multiset(KeysOf(edits)))
  {
    hide KeysOf, Second, Values, Waiting, Dropped;
    WaitingStart(edits, removed);
    AccountStart(removed);
    assert server[..0] == [];
  }

  lemma {:induction false} Account(server: seq<CVal>, removed: multiset<CVal>, edits: Entries<CVal, CVal>,
                                   keys: nat -> string, n: nat)
    requires n <= |server| && IsRecord(edits)
    ensures SheetAt(server, removed, edits, keys, n).Balances(multiset(Second(edits)), multiset(KeysOf(edits)))
  {
    hide SheetAt, Sheet.Balances, IsRecord;
    if n == 0 {
      SheetStart(server, removed, edits, keys);
    } else {
      Account(server, removed, edits, keys, n - 1);
      SheetStep(server, removed, edits, keys, n - 1, multiset(Second(edits)), multiset(KeysOf(edits)));
    }
  }

  /** Every server element seen either survives or is dropped. */
  lemma {:induction false} SurvivorCount(server: seq<CVal>, removed: multiset<CVal>, edits: Entries<CVal, CVal>,
                                         keys: nat -> string, n: nat)
    requires n <= |server|
    ensures |Survivors(server, removed, edits, keys, n)| + |Dropped(removed, multiset(server[..n]))| == n
  {
    hide Dropped, NewValue;
    if n == 0 {
      AccountStart(removed);
      assert server[..0] == [];
    } else {
      SurvivorCount(server, removed, edits, keys, n - 1);
      assert server[..n] == server[..n - 1] + [server[n - 1]];
      DroppedStep(removed, multiset(server[..n - 1]), server[n - 1]);
    }
  }

  lemma AccountStart(removed: multiset<CVal>)
    ensures Dropped(removed, multiset{}) == multiset{} && Values([]) == []
    ensures |Dropped(removed, multiset{})| == 0
  {
  }

  lemma ValuesStep(items: seq<Item>, it: Item)
    ensures Values(items + [it]) == Values(items) + [it.value]
  {
  }

  /** Every element is accounted for: the rebased list holds the server's elements without the dropped
      ones and without those an edit replaces, each recorded edit once and each addition once. */
  lemma {:induction false} RebaseAccounts(base: seq<CVal>, items: seq<Item>, server: seq<CVal>, keys: nat -> string)
    ensures var removed := Removals(base, Kept(items));
            var edits := Edits(base, items);
            var replaced := multiset(KeysOf(edits)) - multiset(KeysOf(Waiting(edits, removed, multiset(server))));
            multiset(Values(RebaseExtras(base, items, server, keys))) + Dropped(removed, multiset(server)) + replaced ==
            multiset(server) + multiset(Second(edits)) + multiset(Values(Additions(items, |base|)))
  {
    hide KeysOf, Second, Values, Waiting, IsRecord, Survivors, Additions, Orphans, Dropped, Kept, Removals;
    var removed, edits := Removals(base, Kept(items)), Edits(base, items);
    FromEntriesSize(EditPairs(base, items));
    assert server[..|server|] == server;
    Account(server, removed, edits, keys, |server|);
    var waiting := Waiting(edits, removed, multiset(server));
    var s, o, a := Survivors(server, removed, edits, keys, |server|), Orphans(waiting, keys, |server|),
      Additions(items, |base|);
    ValuesConcat(s, o);
    ValuesConcat(s + o, a);
    OrphanValues(waiting, keys, |server|);
    WaitingKeys(edits, removed, multiset(server));
    Balance(multiset(Values(s)), multiset(Second(waiting)), Dropped(removed, multiset(server)), multiset(KeysOf(edits)),
            multiset(server), multiset(Second(edits)), multiset(KeysOf(waiting)));
  }

  lemma Balance(placed: multiset<CVal>, waiting: multiset<CVal>, dropped: multiset<CVal>, all: multiset<CVal>,
                seen: multiset<CVal>, edits: multiset<CVal>, left: multiset<CVal>)
    requires placed + waiting + dropped + all == seen + edits + left && left <= all
    ensures placed + waiting + dropped + (all - left) == seen + edits
  {
    forall x ensures (placed + waiting + dropped + (all - left))[x] == (seen + edits)[x] {
      assert (placed + waiting + dropped + all)[x] == (seen + edits + left)[x];
    }
  }

  lemma ValuesConcat(a: seq<Item>, b: seq<Item>)
    ensures Values(a + b) == Values(a) + Values(b)
  {
  }

  lemma OrphanValues(edits: Entries<CVal, CVal>, keys: nat -> string, start: nat)
    ensures Values(Orphans(edits, keys, start)) == Second(edits)
  {
  }

  lemma {:induction false} WaitingKeys(edits: Entries<CVal, CVal>, removed: multiset<CVal>, seen: multiset<CVal>)
    ensures multiset(KeysOf(Waiting(edits, removed, seen))) <= multiset(KeysOf(edits))
  {
    if edits != [] {
      var init, last := edits[..|edits| - 1], edits[|edits| - 1];
      assert edits == init + [last];
      WaitingKeys(init, removed, seen);
      var w := Waiting(init, removed, seen);
      assert KeysOf(edits) == KeysOf(init) + [last.0] && KeysOf(w + [last]) == KeysOf(w) + [last.0] && w + [] == w;
    }
  }

  /** The recorded edits are the user's, one for one, exactly when no two edited items stand for equal
      base elements. */
  lemma EditsAreComplete(base: seq<CVal>, items: seq<Item>)
    ensures IsRecord(EditPairs(base, items)) ==> Edits(base, items) == EditPairs(base, items)
    ensures !IsRecord(EditPairs(base, items)) ==> |Edits(base, items)| < |EditPairs(base, items)|
  {
    FromEntriesSize(EditPairs(base, items));
    if IsRecord(EditPairs(base, items)) { FromDistinctEntries(EditPairs(base, items)); }
  }

  /** The account closes over the user's own edits exactly when no two of them are to equal base elements:
      otherwise an edit is lost. */
  lemma {:induction false} EveryEditOnce(base: seq<CVal>, items: seq<Item>, server: seq<CVal>, keys: nat -> string)
    ensures var removed := Removals(base, Kept(items));
            var edits := Edits(base, items);
            var replaced := multiset(KeysOf(edits)) - multiset(KeysOf(Waiting(edits, removed, multiset(server))));
            multiset(Values(RebaseExtras(base, items, server, keys))) + Dropped(removed, multiset(server)) + replaced ==
            multiset(server) + multiset(Second(EditPairs(base, items))) + multiset(Values(Additions(items, |base|)))
            <==> IsRecord(EditPairs(base, items))
  {
    hide KeysOf, Second, Values, Waiting, IsRecord, Additions, Dropped, Kept, Removals, RebaseExtras, Edits, EditPairs;
    var pairs, edits := EditPairs(base, items), Edits(base, items);
    RebaseAccounts(base, items, server, keys);
    EditsAreComplete(base, items);
    if !IsRecord(pairs) {
      var s, a := multiset(server), multiset(Values(Additions(items, |base|)));
      assert |s + multiset(Second(edits)) + a| == |s| + |edits| + |a|;
      assert |s + multiset(Second(pairs)) + a| == |s| + |pairs| + |a|;
    }
  }

  /** Two elements equal in the base, edited to y and to z: rebasing onto the base itself keeps z and loses y. */
  lemma CollidingEditsLose(x: CVal, y: CVal, z: CVal, keys: nat -> string)
    requires x != y && x != z
    ensures var items := [Item("a", Some(0), y), Item("b", Some(1), z)];
            Values(RebaseExtras([x, x], items, [x, x], keys)) == [z, x]
  {
    hide Removals, Kept, Edits, Additions, Survivors, Waiting;
    CollidingChanges(x, y, z);
    TwoCopies(x, z, keys);
    var first, second := Item(keys(0), Some(0), z), Item(keys(1), Some(1), x);
    assert RebaseExtras([x, x], [Item("a", Some(0), y), Item("b", Some(1), z)], [x, x], keys) ==
           [first, second] + [] + [];
  }

  lemma TwoCopies(x: CVal, z: CVal, keys: nat -> string)
    ensures Survivors([x, x], multiset{}, [(x, z)], keys, 2) == [Item(keys(0), Some(0), z), Item(keys(1), Some(1), x)]
    ensures Waiting([(x, z)], multiset{}, multiset([x, x])) == []
  {
    hide Survives, NewValue;
    var base, edits := [x, x], [(x, z)];
    assert base[..0] == [] && base[..1] == [x];
    NothingDropped(base, edits, 0);
    NothingDropped(base, edits, 1);
    assert Survivors(base, multiset{}, edits, keys, 1) == [Item(keys(0), Some(0), z)];
  }

  lemma CollidingChanges(x: CVal, y: CVal, z: CVal)
    requires x != y && x != z
    ensures var items := [Item("a", Some(0), y), Item("b", Some(1), z)];
            && Removals([x, x], Kept(items)) == multiset{} && Edits([x, x], items) == [(x, z)]
            && Additions(items, 2) == []
  {
    hide Edited, Live, Put, FromEntries, Removals, EditPairs, Additions, Kept;
    var base := [x, x];
    var p, q := Item("a", Some(0), y), Item("b", Some(1), z);
    assert [p, q][..1] == [p] && [p][..0] == [] && base[..2] == base;
    StandsFor(base, p);
    StandsFor(base, q);
    PairRemovals(base, [p, q]);
    PairCollects(x, y, z);
    assert [] + [p] == [p] && [p] + [q] == [p, q];
    EditsStep(base, [], p);
    EditsStep(base, [p], q);
    assert EditPairs(base, [p, q]) == [(x, y), (x, z)];
  }

  lemma StandsFor(base: seq<CVal>, it: Item)
    requires it.origin.Some? && it.origin.value < |base| && it.value != base[it.origin.value]
    ensures Live(it, |base|) && Edited(base, it)
  {
  }

  lemma EditsStep(base: seq<CVal>, items: seq<Item>, it: Item)
    requires Live(it, |base|) && Edited(base, it)
    ensures EditPairs(base, items + [it]) == EditPairs(base, items) + [(base[it.origin.value], it.value)]
    ensures Additions(items + [it], |base|) == Additions(items, |base|)
    ensures EditPairs(base, []) == [] && Additions([], |base|) == []
  {
  }

  lemma PairRemovals(base: seq<CVal>, items: seq<Item>)
    requires |base| == 2 && |items| == 2 && items[0].origin == Some(0) && items[1].origin == Some(1)
    ensures Removals(base, Kept(items)) == multiset{}
  {
    assert items[0] in items && items[1] in items;
    assert 0 in Kept(items) && 1 in Kept(items);
    assert base[..2] == base && base[..0] == [];
    RemovalsStep(base, Kept(items), 0);
    RemovalsStep(base, Kept(items), 1);
  }

  lemma PairCollects(x: CVal, y: CVal, z: CVal)
    ensures FromEntries([(x, y), (x, z)]) == [(x, z)]
  {
    var pairs := [(x, y), (x, z)];
    assert pairs[..1] == [(x, y)] && pairs[..1][..0] == [];
    assert FromEntries(pairs[..1]) == [(x, y)];
    assert Put([(x, y)], x, z) == [(x, z)] + [(x, y)][1..];
  }

  // ---- order ----

  /** The survivors are, in server order, the elements that survive, each with its position as origin. */
  lemma {:induction false} SurvivorsInOrder(server: seq<CVal>, removed: multiset<CVal>, edits: Entries<CVal, CVal>,
                                            keys: nat -> string, n: nat)
    requires n <= |server|
    ensures var out := Survivors(server, removed, edits, keys, n);
            (forall i | 0 <= i < |out| ::
               out[i].origin.Some? && out[i].origin.value < n && Survives(server, removed, out[i].origin.value) &&
               out[i].value == NewValue(server, removed, edits, out[i].origin.value)) &&
            (forall i, j | 0 <= i < j < |out| :: out[i].origin.value < out[j].origin.value) &&
            (forall k: nat :: k in Kept(out) <==> k < n && Survives(server, removed, k))
  {
    hide Survives, NewValue, Kept;
    if n == 0 {
      KeptNone();
    } else {
      var j := n - 1;
      SurvivorsInOrder(server, removed, edits, keys, j);
      var before := Survivors(server, removed, edits, keys, j);
      if Survives(server, removed, j) {
        var it := Item(keys(j), Some(j), NewValue(server, removed, edits, j));
        KeptStep(before, it);
        assert Survivors(server, removed, edits, keys, n) == before + [it];
      } else {
        assert Survivors(server, removed, edits, keys, n) == before + [] == before;
      }
    }
  }

  lemma KeptNone()
    ensures Kept([]) == {}
  {
  }

  lemma KeptStep(items: seq<Item>, it: Item)
    ensures Kept(items + [it]) == Kept(items) + if it.origin.Some? then {it.origin.value} else {}
  {
  }

  // ---- diffing a rebased list ----

  lemma {:induction false} AdditionsConcat(a: seq<Item>, b: seq<Item>, n: nat)
    ensures Additions(a + b, n) == Additions(a, n) + Additions(b, n)
  {
    if b == [] {
      assert a + b == a;
    } else {
      var init, last := b[..|b| - 1], b[|b| - 1];
      AdditionsConcat(a, init, n);
      assert (a + b)[..|a + b| - 1] == a + init;
    }
  }

  lemma {:induction false} PairsConcat(base: seq<CVal>, a: seq<Item>, b: seq<Item>)
    ensures EditPairs(base, a + b) == EditPairs(base, a) + EditPairs(base, b)
  {
    if b == [] {
      assert a + b == a;
    } else {
      var init, last := b[..|b| - 1], b[|b| - 1];
      PairsConcat(base, a, init);
      assert (a + b)[..|a + b| - 1] == a + init;
    }
  }

  predicate AllNew(items: seq<Item>) { forall it | it in items :: it.origin.None? }

  /** Items without an origin are additions, taken as they are. */
  lemma {:induction false} NewItems(base: seq<CVal>, items: seq<Item>)
    requires AllNew(items)
    ensures Additions(items, |base|) == items && EditPairs(base, items) == [] && Kept(items) == {}
  {
    if items != [] {
      var init, last := items[..|items| - 1], items[|items| - 1];
      assert items == init + [last];
      assert last in items && forall it | it in init :: it in items;
      NewItems(base, init);
      KeptStep(init, last);
    }
  }

  lemma {:induction false} AdditionsAreNew(items: seq<Item>, n: nat)
    ensures AllNew(Additions(items, n))
  {
    if items != [] { AdditionsAreNew(items[..|items| - 1], n); }
  }

  lemma KeptConcat(a: seq<Item>, b: seq<Item>)
    ensures Kept(a + b) == Kept(a) + Kept(b)
  {
  }

  lemma UsedIsKept(items: seq<Item>, n: nat)
    ensures Used(items, n) == Kept(items) * Below(n)
  {
  }

  lemma RemovalsStep(base: seq<CVal>, kept: set<nat>, n: nat)
    requires n < |base|
    ensures Removals(base[..n + 1], kept) ==
            Removals(base[..n], kept) + if n in kept then multiset{} else multiset{base[n]}
  {
    assert base[..n + 1][..n] == base[..n];
  }

  lemma KeptStepBelow(kept: set<nat>, n: nat)
    ensures |kept * Below(n + 1)| == |kept * Below(n)| + if n in kept then 1 else 0
  {
    hide Below;
    if n in kept {
      assert kept * Below(n + 1) == kept * Below(n) + {n};
    } else {
      assert kept * Below(n + 1) == kept * Below(n);
    }
  }

  /** Base elements are either stood for or removed. */
  lemma {:induction false} RemovalCount(base: seq<CVal>, kept: set<nat>, n: nat)
    requires n <= |base|
    ensures |Removals(base[..n], kept)| + |kept * Below(n)| == n
  {
    hide Below, Removals;
    if n == 0 {
      assert kept * Below(0) == {} && base[..0] == [];
      NothingRemoved(kept);
    } else {
      RemovalCount(base, kept, n - 1);
      RemovalsStep(base, kept, n - 1);
      KeptStepBelow(kept, n - 1);
    }
  }

  lemma RemovalSize(base: seq<CVal>, items: seq<Item>)
    ensures |Removals(base, Kept(items))| == |base| - |Used(items, |base|)|
  {
    hide Below, Used, Kept, Removals;
    assert base[..|base|] == base;
    RemovalCount(base, Kept(items), |base|);
    UsedIsKept(items, |base|);
  }

  lemma NothingRemoved(kept: set<nat>)
    ensures Removals([], kept) == multiset{}
  {
  }

  /** An edit is never to the content it stands for. */
  ghost predicate RealEdits(edits: Entries<CVal, CVal>) { forall e | e in edits :: e.0 != e.1 }

  lemma {:induction false} PairsAreReal(base: seq<CVal>, items: seq<Item>)
    ensures RealEdits(EditPairs(base, items))
  {
    if items != [] { PairsAreReal(base, items[..|items| - 1]); }
  }

  lemma EditsAreReal(base: seq<CVal>, items: seq<Item>)
    ensures IsRecord(Edits(base, items)) && RealEdits(Edits(base, items))
  {
    hide FromEntries, IsRecord;
    PairsAreReal(base, items);
    FromEntriesSize(EditPairs(base, items));
    forall e | e in Edits(base, items) ensures e.0 != e.1 { FromEntriesValues(EditPairs(base, items), e); }
  }

  /** Among the survivors exactly those that took an edit count as edited; each edited content does so once. */
  lemma {:induction false} PairsOfSurvivors(
    server: seq<CVal>, removed: multiset<CVal>, edits: Entries<CVal, CVal>, keys: nat -> string, n: nat, x: CVal)
    requires n <= |server| && IsRecord(edits) && RealEdits(edits)
    ensures var pairs := EditPairs(server, Survivors(server, removed, edits, keys, n));
            IsRecord(pairs) && Get(pairs, x) == if multiset(server[..n])[x] > removed[x] then Get(edits, x) else None
  {
    hide IsRecord, KeysOf, Get, Waiting, RealEdits, Delete, Earlier, EditPairs, Survivors;
    if n == 0 {
      assert server[..0] == [];
      NoPairsYet(server, removed, edits, keys);
      Nothing(x);
    } else {
      var j := n - 1;
      var c := server[j];
      PairsOfSurvivors(server, removed, edits, keys, j, x);
      PairsOfSurvivors(server, removed, edits, keys, j, c);
      SurvivorPair(server, removed, edits, keys, j);
      assert server[..n] == server[..j] + [c];
      var seen := multiset(server[..j]);
      var waiting := Waiting(edits, removed, seen);
      var pairs := EditPairs(server, Survivors(server, removed, edits, keys, j));
      assert pairs + [] == pairs;
      GetWaiting(edits, removed, seen, c);
      GetKeys(pairs, c);
      if seen[c] >= removed[c] && Get(waiting, c).Some? { AppendEntry(pairs, (c, Get(waiting, c).value), x); }
    }
  }

  lemma NoPairsYet(server: seq<CVal>, removed: multiset<CVal>, edits: Entries<CVal, CVal>, keys: nat -> string)
    ensures EditPairs(server, Survivors(server, removed, edits, keys, 0)) == []
    ensures Additions(Survivors(server, removed, edits, keys, 0), |server|) == []
  {
  }

  /** Every edit has been applied or is waiting; no survivor counts as an addition. */
  lemma {:induction false} PairsAndWaiting(
    server: seq<CVal>, removed: multiset<CVal>, edits: Entries<CVal, CVal>, keys: nat -> string, n: nat)
    requires n <= |server| && IsRecord(edits) && RealEdits(edits)
    ensures |EditPairs(server, Survivors(server, removed, edits, keys, n))| +
            |Waiting(edits, removed, multiset(server[..n]))| == |edits|
    ensures Additions(Survivors(server, removed, edits, keys, n), |server|) == []
  {
    hide IsRecord, KeysOf, Get, Waiting, RealEdits, Delete, Earlier, EditPairs, Survivors, Additions;
    if n == 0 {
      assert server[..0] == [];
      NoPairsYet(server, removed, edits, keys);
      WaitingStart(edits, removed);
    } else {
      var j := n - 1;
      var c := server[j];
      PairsAndWaiting(server, removed, edits, keys, j);
      SurvivorPair(server, removed, edits, keys, j);
      assert server[..n] == server[..j] + [c];
      var seen := multiset(server[..j]);
      var waiting := Waiting(edits, removed, seen);
      WaitingStep(edits, removed, seen, c);
      GetWaiting(edits, removed, seen, c);
      GetKeys(waiting, c);
      if seen[c] >= removed[c] {
        if Get(waiting, c).Some? { DeleteCounts(waiting, c); } else { DeleteAbsent(waiting, c); }
      }
    }
  }

  /** What element j adds to the survivors and to their edited pairs. */
  lemma SurvivorPair(server: seq<CVal>, removed: multiset<CVal>, edits: Entries<CVal, CVal>, keys: nat -> string,
                     j: nat)
    requires j < |server| && IsRecord(edits) && RealEdits(edits)
    ensures var c := server[j];
            var seen := multiset(server[..j]);
            var e := Get(Waiting(edits, removed, seen), c);
            var before, after := Survivors(server, removed, edits, keys, j),
                               Survivors(server, removed, edits, keys, j + 1);
            EditPairs(server, after) ==
              EditPairs(server, before) + (if seen[c] >= removed[c] && e.Some? then [(c, e.value)] else []) &&
            Additions(after, |server|) == Additions(before, |server|)
  {
    hide IsRecord, KeysOf, Get, Waiting, Delete;
    var c := server[j];
    var seen := multiset(server[..j]);
    var before, after := Survivors(server, removed, edits, keys, j), Survivors(server, removed, edits, keys, j + 1);
    GetWaiting(edits, removed, seen, c);
    GetKeys(edits, c);
    if Survives(server, removed, j) {
      var it := Item(keys(j), Some(j), NewValue(server, removed, edits, j));
      assert after == before + [it] && after[..|after| - 1] == before;
      assert Live(it, |server|);
    } else {
      assert after == before;
    }
  }

  lemma {:induction false} SurvivorsKept(server: seq<CVal>, removed: multiset<CVal>, edits: Entries<CVal, CVal>,
                                         keys: nat -> string, n: nat)
    requires n <= |server|
    ensures var out := Survivors(server, removed, edits, keys, n);
            |Kept(out)| == |out| && forall k | k in Kept(out) :: k < n
  {
    hide Kept, Survives, NewValue;
    if n == 0 {
      NothingKept();
    } else {
      SurvivorsKept(server, removed, edits, keys, n - 1);
      var before := Survivors(server, removed, edits, keys, n - 1);
      if Survives(server, removed, n - 1) {
        KeptStep(before, Item(keys(n - 1), Some(n - 1), NewValue(server, removed, edits, n - 1)));
      } else {
        assert before + [] == before;
      }
    }
  }

  lemma NothingKept()
    ensures Kept([]) == {}
  {
  }

  /** What a summary against the server sees of a rebased list: the orphaned edits and the additions as
      added, the dropped elements as removed, the edits that found their element as changed. */
  lemma RebasedSummary(base: seq<CVal>, items: seq<Item>, server: seq<CVal>, keys: nat -> string)
    ensures var out := RebaseExtras(base, items, server, keys);
            var removed := Removals(base, Kept(items));
            var edits := Edits(base, items);
            var survivors := Survivors(server, removed, edits, keys, |server|);
            var orphans := Orphans(Waiting(edits, removed, multiset(server)), keys, |server|);
            var added := Additions(items, |base|);
            Kept(out) == Kept(survivors) &&
            Additions(out, |server|) == orphans + added &&
            EditPairs(server, out) == EditPairs(server, survivors) &&
            |EditPairs(server, survivors)| + |orphans| == |edits| &&
            |Used(out, |server|)| == |survivors| &&
            DiffExtras(server, out).removed == |Dropped(removed, multiset(server))|
  {
    hide Waiting, Survivors, Orphans, Removals, Edits, Kept, EditPairs, Additions, Used, Dropped, IsRecord, RealEdits,
         Get, Below, AllNew;
    var removed, edits := Removals(base, Kept(items)), Edits(base, items);
    var survivors := Survivors(server, removed, edits, keys, |server|);
    var orphans := Orphans(Waiting(edits, removed, multiset(server)), keys, |server|);
    var added := Additions(items, |base|);
    var n := |server|;
    EditsAreReal(base, items);
    assert server[..n] == server;
    PairsAndWaiting(server, removed, edits, keys, n);
    SurvivorsKept(server, removed, edits, keys, n);
    SurvivorCount(server, removed, edits, keys, n);
    OrphansAreNew(Waiting(edits, removed, multiset(server)), keys, n);
    AdditionsAreNew(items, |base|);
    NewItems(server, orphans);
    NewItems(server, added);
    var out := survivors + orphans + added;
    AdditionsConcat(survivors, orphans, n);
    AdditionsConcat(survivors + orphans, added, n);
    PairsConcat(server, survivors, orphans);
    PairsConcat(server, survivors + orphans, added);
    KeptConcat(survivors, orphans);
    KeptConcat(survivors + orphans, added);
    UsedIsKept(out, n);
    assert Kept(survivors) * Below(n) == Kept(survivors) by { BelowHolds(Kept(survivors), n); }
  }

  lemma BelowHolds(kept: set<nat>, n: nat)
    requires forall k | k in kept :: k < n
    ensures kept * Below(n) == kept
  {
    assert forall k | k in kept :: k in Below(n);
  }

  lemma OrphansAreNew(edits: Entries<CVal, CVal>, keys: nat -> string, start: nat)
    ensures AllNew(Orphans(edits, keys, start))
  {
  }

  /** A rebased list shows no more changes against the new server model than it did against its base. */
  lemma RebaseCount(base: seq<CVal>, items: seq<Item>, server: seq<CVal>, keys: nat -> string)
    ensures DiffExtras(server, RebaseExtras(base, items, server, keys)).Count() <= DiffExtras(base, items).Count()
  {
    hide Waiting, Survivors, Removals, Edits, Kept, EditPairs, Additions, Used, IsRecord, Below, RebaseExtras,
         DiffExtras;
    var removed, edits := Removals(base, Kept(items)), Edits(base, items);
    RebasedSummary(base, items, server, keys);
    SummaryParts(server, RebaseExtras(base, items, server, keys));
    SummaryParts(base, items);
    RemovalSize(base, items);
    EditsNoMore(base, items);
    DroppedNoMore(removed, multiset(server));
  }

  lemma SummaryParts(base: seq<CVal>, items: seq<Item>)
    ensures DiffExtras(base, items).added == |Additions(items, |base|)|
    ensures DiffExtras(base, items).removed == |base| - |Used(items, |base|)|
    ensures DiffExtras(base, items).changed == |EditPairs(base, items)|
  {
  }

  lemma EditsNoMore(base: seq<CVal>, items: seq<Item>)
    ensures |Edits(base, items)| <= |EditPairs(base, items)|
  {
    FromEntriesSize(EditPairs(base, items));
  }

  lemma DroppedNoMore(removed: multiset<CVal>, seen: multiset<CVal>)
    ensures |Dropped(removed, seen)| <= |removed|
  {
    assert removed == Dropped(removed, seen) + (removed - seen);
  }

  // ---- rebasing again ----

  /** Items up to their client-side keys. */
  function Bare(items: seq<Item>): (r: seq<(Option<nat>, CVal)>)
    ensures |r| == |items| && forall i | 0 <= i < |r| :: r[i] == (items[i].origin, items[i].value)
  {
    seq(|items|, i requires 0 <= i < |items| => (items[i].origin, items[i].value))
  }

  lemma BareConcat(a: seq<Item>, b: seq<Item>)
    ensures Bare(a + b) == Bare(a) + Bare(b)
  {
  }

  /** What a rebased list lacks of the server's list is what was dropped. */
  lemma {:induction false} RebasedRemovals(server: seq<CVal>, removed: multiset<CVal>, kept: set<nat>, n: nat)
    requires n <= |server|
    requires forall k | 0 <= k < n :: k in kept <==> Survives(server, removed, k)
    ensures Removals(server[..n], kept) == Dropped(removed, multiset(server[..n]))
  {
    hide Removals, Dropped;
    if n == 0 {
      assert server[..0] == [];
      NothingRemoved(kept);
      AccountStart(removed);
    } else {
      RebasedRemovals(server, removed, kept, n - 1);
      RemovalsStep(server, kept, n - 1);
      assert server[..n] == server[..n - 1] + [server[n - 1]];
      DroppedStep(removed, multiset(server[..n - 1]), server[n - 1]);
    }
  }

  lemma EarlierIsFewer(server: seq<CVal>, j: nat)
    requires j < |server|
    ensures Earlier(server, j) < multiset(server)[server[j]]
  {
    assert server == server[..j] + [server[j]] + server[j + 1..];
  }

  /** The second rebase meets what the first one did: the same drops and the edits that were applied. */
  ghost predicate Repeats(
    server: seq<CVal>, removed: multiset<CVal>, edits: Entries<CVal, CVal>, again: multiset<CVal>,
    edits2: Entries<CVal, CVal>)
  {
    again == Dropped(removed, multiset(server)) && IsRecord(edits2) &&
    forall c :: Get(edits2, c) == if multiset(server)[c] > removed[c] then Get(edits, c) else None
  }

  lemma {:induction false} SameSurvivors(
    server: seq<CVal>, removed: multiset<CVal>, edits: Entries<CVal, CVal>, again: multiset<CVal>,
    edits2: Entries<CVal, CVal>,
    keys: nat -> string, keys2: nat -> string, n: nat)
    requires n <= |server| && Repeats(server, removed, edits, again, edits2)
    ensures Bare(Survivors(server, again, edits2, keys2, n)) == Bare(Survivors(server, removed, edits, keys, n))
  {
    hide Get, IsRecord, Earlier;
    if n > 0 {
      var j := n - 1;
      SameSurvivors(server, removed, edits, again, edits2, keys, keys2, j);
      EarlierIsFewer(server, j);
      var c := server[j];
      assert again[c] == if removed[c] < multiset(server)[c] then removed[c] else multiset(server)[c];
      assert Survives(server, again, j) <==> Survives(server, removed, j);
      assert Survives(server, removed, j) ==> NewValue(server, again, edits2, j) == NewValue(server, removed, edits, j);
    }
  }

  lemma NoneWaiting(
    server: seq<CVal>, removed: multiset<CVal>, edits: Entries<CVal, CVal>, again: multiset<CVal>,
    edits2: Entries<CVal, CVal>)
    requires Repeats(server, removed, edits, again, edits2)
    ensures Waiting(edits2, again, multiset(server)) == []
  {
    hide Get, IsRecord;
    var w := Waiting(edits2, again, multiset(server));
    GetWaiting(edits2, again, multiset(server), CNull);
    if w != [] {
      var k := KeysOf(w)[0];
      assert k in KeysOf(w) && k in KeysOf(edits2);
      GetKeys(edits2, k);
      assert false;
    }
  }

  lemma RebaseRepeats(base: seq<CVal>, items: seq<Item>, server: seq<CVal>, keys: nat -> string)
    ensures var out := RebaseExtras(base, items, server, keys);
            Repeats(server, Removals(base, Kept(items)), Edits(base, items), Removals(server, Kept(out)),
                    Edits(server, out))
  {
    hide Waiting, Removals, Kept, EditPairs, IsRecord, Get, RebaseExtras, Dropped, FromEntries, RealEdits, NewValue,
         Survives, Survivors, DiffExtras, Additions;
    var removed, edits, n := Removals(base, Kept(items)), Edits(base, items), |server|;
    var out := RebaseExtras(base, items, server, keys);
    var survivors := Survivors(server, removed, edits, keys, n);
    RebasedSummary(base, items, server, keys);
    assert server[..n] == server;
    SurvivorsInOrder(server, removed, edits, keys, n);
    RebasedRemovals(server, removed, Kept(out), n);
    EditsAreReal(base, items);
    forall c ensures Get(Edits(server, out), c) == if multiset(server)[c] > removed[c] then Get(edits, c) else None {
      PairsOfSurvivors(server, removed, edits, keys, n, c);
      FromDistinctEntries(EditPairs(server, out));
    }
    PairsOfSurvivors(server, removed, edits, keys, n, CNull);
    FromDistinctEntries(EditPairs(server, out));
  }

  /** Rebasing the rebased list onto the same server list gives it back, up to client-side keys. */
  lemma RebaseAgain(base: seq<CVal>, items: seq<Item>, server: seq<CVal>, keys: nat -> string, keys2: nat -> string)
    ensures var out := RebaseExtras(base, items, server, keys);
            Bare(RebaseExtras(server, out, server, keys2)) == Bare(out)
  {
    hide Waiting, Removals, Kept, EditPairs, Survivors, Additions, DiffExtras, Repeats, Bare, Edits;
    var removed, edits, n := Removals(base, Kept(items)), Edits(base, items), |server|;
    var out := RebaseExtras(base, items, server, keys);
    var again, edits2 := Removals(server, Kept(out)), Edits(server, out);
    RebaseRepeats(base, items, server, keys);
    SameSurvivors(server, removed, edits, again, edits2, keys, keys2, n);
    NoneWaiting(server, removed, edits, again, edits2);
    RebasedSummary(base, items, server, keys);
    var survivors := Survivors(server, removed, edits, keys, n);
    var orphans := Orphans(Waiting(edits, removed, multiset(server)), keys, n);
    var added := Additions(items, |base|);
    assert out == survivors + (orphans + added);
    BareConcat(survivors, orphans + added);
    var survivors2 := Survivors(server, again, edits2, keys2, n);
    assert RebaseExtras(server, out, server, keys2) == survivors2 + (orphans + added);
    BareConcat(survivors2, orphans + added);
  }

  lemma {:induction false} AllSurvive(server: seq<CVal>, keys: nat -> string, n: nat)
    requires n <= |server|
    ensures Survivors(server, multiset{}, [], keys, n) == LoadItems(server, keys)[..n]
  {
    hide Survives, NewValue;
    if n == 0 {
      assert LoadItems(server, keys)[..0] == [];
    } else {
      AllSurvive(server, keys, n - 1);
      NothingDropped(server, [], n - 1);
      var loaded := LoadItems(server, keys);
      assert loaded[..n] == loaded[..n - 1] + [loaded[n - 1]];
    }
  }

  /** With nothing to drop every element survives, and only the first copy of its content takes an edit. */
  lemma NothingDropped(server: seq<CVal>, edits: Entries<CVal, CVal>, j: nat)
    requires j < |server|
    ensures Survives(server, multiset{}, j)
    ensures NewValue(server, multiset{}, edits, j) ==
            if server[j] in server[..j] then server[j] else Get(edits, server[j]).GetOr(server[j])
  {
  }

  lemma NoneIsEmpty(m: multiset<CVal>)
    ensures |m| == 0 ==> m == multiset{}
  {
  }

  lemma NoPairsNoEdits(base: seq<CVal>, items: seq<Item>)
    ensures EditPairs(base, items) == [] ==> Edits(base, items) == []
  {
  }

  /** A list without changes rebases to the server's list as loaded, so leaving it out of the merge is harmless. */
  lemma {:induction false} UnchangedIsLoaded(base: seq<CVal>, items: seq<Item>, server: seq<CVal>, keys: nat -> string)
    ensures DiffExtras(base, items).Count() == 0 ==> RebaseExtras(base, items, server, keys) == LoadItems(server, keys)
  {
    hide Used, Below, Kept, EditPairs, Survivors, LoadItems, Edits, Additions, Removals, DiffExtras;
    SummaryParts(base, items);
    RemovalSize(base, items);
    NoPairsNoEdits(base, items);
    NoneIsEmpty(Removals(base, Kept(items)));
    AllSurvive(server, keys, |server|);
    var s := LoadItems(server, keys);
    assert s[..|server|] == s && s + [] + [] == s;
    assert Waiting([], multiset{}, multiset(server)) == [] && Orphans([], keys, |server|) == [];
  }
}

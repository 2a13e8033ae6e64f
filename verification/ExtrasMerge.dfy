/** The change counts and the rebase of one list section (frontend/src/pages/acls/model.ts). */
module ExtrasMerge {
  import opened Base
  import opened CanonicalJson
  import opened Records
  import opened DraftModel

  /** Elements are canonical values, so equal canonical text is equality. */
  datatype ListChanges = ListChanges(added: nat, removed: nat, changed: nat)
  {
    function Count(): nat { added + removed + changed }
  }

  /** The item still stands for an element of a base list of length n. */
  predicate Live(it: Item, n: nat) { it.origin.Some? && it.origin.value < n }

  predicate Edited(base: seq<CVal>, it: Item) { Live(it, |base|) && it.value != base[it.origin.value] }

  function Additions(items: seq<Item>, n: nat): seq<Item> {
    if items == [] then []
    else
      var last := items[|items| - 1];
      Additions(items[..|items| - 1], n) + if Live(last, n) then [] else [last.(origin := None)]
  }

  /** Base element and new value of each edited item, in item order. */
  function EditPairs(base: seq<CVal>, items: seq<Item>): seq<(CVal, CVal)> {
    if items == [] then []
    else
      var last := items[|items| - 1];
      EditPairs(base, items[..|items| - 1]) + if Edited(base, last) then [(base[last.origin.value], last.value)] else []
  }

  function Below(n: nat): (u: set<nat>)
    ensures forall i: nat :: i in u <==> i < n
    ensures |u| == n
  {
    if n == 0 then {} else Below(n - 1) + {n - 1}
  }

  /** Base positions some item stands for. */
  function Used(items: seq<Item>, n: nat): (u: set<nat>)
    ensures u <= Below(n) && |u| <= n
  {
    var u := set it | it in items && Live(it, n) :: it.origin.value;
    assert u <= Below(n) && Below(n) == u + (Below(n) - u);
    u
  }

  /** `diffExtras`. */
  function DiffExtras(base: seq<CVal>, items: seq<Item>): ListChanges {
    ListChanges(|Additions(items, |base|)|, |base| - |Used(items, |base|)|, |EditPairs(base, items)|)
  }

  lemma UsedStep(items: seq<Item>, n: nat, it: Item)
    ensures Used(items + [it], n) == Used(items, n) + if Live(it, n) then {it.origin.value} else {}
  {
  }

  lemma NothingUsed(n: nat)
    ensures Used([], n) == {}
  {
  }

  method DiffExtrasLoop(base: seq<CVal>, items: seq<Item>) returns (out: ListChanges)
    ensures out == DiffExtras(base, items)
  {
    hide Used, Below;
    var n := |base|;
    var used: set<nat> := {};
    var added, changed := 0, 0;
    NothingUsed(n);
    for i := 0 to |items|
      invariant used == Used(items[..i], n)
      invariant added == |Additions(items[..i], n)| && changed == |EditPairs(base, items[..i])|
    {
      var it := items[i];
      assert items[..i + 1] == items[..i] + [it] && items[..i + 1][..i] == items[..i];
      UsedStep(items[..i], n, it);
      if !Live(it, n) {
        added := added + 1;
      } else {
        used := used + {it.origin.value};
        if it.value != base[it.origin.value] { changed := changed + 1; }
      }
    }
    assert items[..|items|] == items;
    out := ListChanges(added, n - |used|, changed);
  }

  // ---- the rebase, in closed form ----

  function Kept(items: seq<Item>): set<nat> { set it | it in items && it.origin.Some? :: it.origin.value }

  /** Contents of the base elements no item stands for, one copy for each. */
  function Removals(base: seq<CVal>, kept: set<nat>): multiset<CVal> {
    if base == [] then multiset{}
    else
      var n := |base| - 1;
      Removals(base[..n], kept) + if n in kept then multiset{} else multiset{base[n]}
  }

  /** Edits keyed by base content; a second edit of the same content replaces the first. */
  function Edits(base: seq<CVal>, items: seq<Item>): Entries<CVal, CVal> { FromEntries(EditPairs(base, items)) }

  /** How many earlier elements equal element j. */
  function Earlier(server: seq<CVal>, j: nat): nat
    requires j < |server|
  {
    multiset(server[..j])[server[j]]
  }

  /** The first `removed[c]` copies of each content c are dropped. */
  predicate Survives(server: seq<CVal>, removed: multiset<CVal>, j: nat)
    requires j < |server|
  {
    Earlier(server, j) >= removed[server[j]]
  }

  /** The first survivor of an edited content takes the edit. */
  function NewValue(server: seq<CVal>, removed: multiset<CVal>, edits: Entries<CVal, CVal>, j: nat): CVal
    requires j < |server|
  {
    if Earlier(server, j) == removed[server[j]] then Get(edits, server[j]).GetOr(server[j]) else server[j]
  }

  function Survivors(server: seq<CVal>, removed: multiset<CVal>, edits: Entries<CVal, CVal>, keys: nat -> string,
                     n: nat): seq<Item>
    requires n <= |server|
  {
    if n == 0 then []
    else
      var j := n - 1;
      Survivors(server, removed, edits, keys, j) +
      if Survives(server, removed, j) then [Item(keys(j), Some(j), NewValue(server, removed, edits, j))] else []
  }

  /** Edits whose content has shown up no more often than it is to be dropped. */
  function Waiting(edits: Entries<CVal, CVal>, removed: multiset<CVal>, seen: multiset<CVal>): Entries<CVal, CVal> {
    if edits == [] then []
    else
      var last := edits[|edits| - 1];
      Waiting(edits[..|edits| - 1], removed, seen) + if seen[last.0] <= removed[last.0] then [last] else []
  }

  function Orphans(edits: Entries<CVal, CVal>, keys: nat -> string, start: nat): (r: seq<Item>)
    ensures |r| == |edits|
    ensures forall i | 0 <= i < |r| :: r[i] == Item(keys(start + i), None, edits[i].1)
  {
    seq(|edits|, i requires 0 <= i < |edits| => Item(keys(start + i), None, edits[i].1))
  }

  /** `rebaseExtras`. */
  function RebaseExtras(base: seq<CVal>, items: seq<Item>, server: seq<CVal>, keys: nat -> string): seq<Item> {
    var removed := Removals(base, Kept(items));
    var edits := Edits(base, items);
    Survivors(server, removed, edits, keys, |server|) +
    Orphans(Waiting(edits, removed, multiset(server)), keys, |server|) + Additions(items, |base|)
  }

  // ---- the loop ----

  lemma {:induction false} GetWaiting(edits: Entries<CVal, CVal>, removed: multiset<CVal>, seen: multiset<CVal>,
                                      c: CVal)
    requires IsRecord(edits)
    ensures IsRecord(Waiting(edits, removed, seen))
    ensures forall k :: k in KeysOf(Waiting(edits, removed, seen)) <==> k in KeysOf(edits) && seen[k] <= removed[k]
    ensures Get(Waiting(edits, removed, seen), c) == if seen[c] <= removed[c] then Get(edits, c) else None
  {
    hide KeysOf, IsRecord, Get;
    if edits == [] {
      Nothing(c);
    } else {
      var init, last := edits[..|edits| - 1], edits[|edits| - 1];
      assert edits == init + [last];
      AppendEntry(init, last, c);
      GetWaiting(init, removed, seen, c);
      GetKeys(init, c);
      var w := Waiting(init, removed, seen);
      assert w + [] == w;
      AppendEntry(w, last, c);
    }
  }

  lemma Nothing(c: CVal)
    ensures IsRecord<CVal, CVal>([]) && KeysOf<CVal, CVal>([]) == [] && Get<CVal, CVal>([], c) == None
  {
  }

  lemma {:induction false} DeleteLast(r: Entries<CVal, CVal>, e: (CVal, CVal), c: CVal)
    requires e.0 !in KeysOf(r)
    ensures Delete(r + [e], c) == if e.0 == c then r else Delete(r, c) + [e]
  {
    if r != [] {
      KeysOfFirst(r);
      DeleteLast(r[1..], e, c);
      assert (r + [e])[1..] == r[1..] + [e];
      assert r == [r[0]] + r[1..];
    }
  }

  lemma DeleteAbsent(r: Entries<CVal, CVal>, c: CVal)
    requires c !in KeysOf(r)
    ensures Delete(r, c) == r
  {
    if r != [] {
      KeysOfFirst(r);
      DeleteAbsent(r[1..], c);
    }
  }

  /** Meeting content c once more: the edits of c wait on while copies remain to be dropped, else they leave. */
  lemma {:induction false} WaitingStep(edits: Entries<CVal, CVal>, removed: multiset<CVal>, seen: multiset<CVal>,
                                       c: CVal)
    requires IsRecord(edits)
    ensures var w := Waiting(edits, removed, seen);
            Waiting(edits, removed, seen + multiset{c}) == if seen[c] < removed[c] then w else Delete(w, c)
  {
    hide KeysOf, IsRecord, Get, Delete;
    if edits == [] {
      Nothing(c);
      DeleteAbsent([], c);
    } else {
      var init, last := edits[..|edits| - 1], edits[|edits| - 1];
      assert edits == init + [last];
      AppendEntry(init, last, c);
      WaitingStep(init, removed, seen, c);
      GetWaiting(init, removed, seen, c);
      var w := Waiting(init, removed, seen);
      assert w + [] == w && Delete(w, c) + [] == Delete(w, c);
      DeleteLast(w, last, c);
      if last.0 == c { DeleteAbsent(w, c); }
    }
  }

  lemma {:induction false} WaitingStart(edits: Entries<CVal, CVal>, removed: multiset<CVal>)
    ensures Waiting(edits, removed, multiset{}) == edits
  {
    if edits != [] {
      WaitingStart(edits[..|edits| - 1], removed);
      assert edits == edits[..|edits| - 1] + [edits[|edits| - 1]];
    }
  }

  /** What is still to be dropped after some elements have been met. */
  ghost predicate LeftToDrop(left: multiset<CVal>, removed: multiset<CVal>, seen: multiset<CVal>) {
    forall c :: left[c] == if seen[c] < removed[c] then removed[c] - seen[c] else 0
  }

  /** What the loop finds at server element j while `edited` holds the waiting edits. */
  lemma SurvivorStep(server: seq<CVal>, removed: multiset<CVal>, edits: Entries<CVal, CVal>, keys: nat -> string,
                     j: nat, left: nat)
    requires j < |server| && IsRecord(edits)
    requires left == (if Earlier(server, j) < removed[server[j]] then removed[server[j]] - Earlier(server, j) else 0)
    ensures var edited := Waiting(edits, removed, multiset(server[..j]));
            Survivors(server, removed, edits, keys, j + 1) == Survivors(server, removed, edits, keys, j) +
            if left > 0 then [] else [Item(keys(j), Some(j), Get(edited, server[j]).GetOr(server[j]))]
    ensures var edited := Waiting(edits, removed, multiset(server[..j]));
            Waiting(edits, removed, multiset(server[..j + 1])) == if left > 0 then edited else Delete(edited, server[j])
  {
    hide KeysOf, IsRecord, Get, Delete, Waiting;
    assert server[..j + 1] == server[..j] + [server[j]];
    WaitingStep(edits, removed, multiset(server[..j]), server[j]);
    GetWaiting(edits, removed, multiset(server[..j]), server[j]);
  }

  method RebaseExtrasLoop(base: seq<CVal>, items: seq<Item>, server: seq<CVal>, keys: nat -> string)
      returns (out: seq<Item>)
    ensures out == RebaseExtras(base, items, server, keys)
  {
    hide KeysOf, IsRecord, Get, Delete, Removals, EditPairs, FromEntries, Additions, Waiting, Survivors;
    var left, edited := ReadChanges(base, items);
    ghost var removed, edits := left, edited;
    FromEntriesSize(EditPairs(base, items));
    WaitingStart(edits, removed);
    SurvivorsStart(server, removed, edits, keys);
    out := [];
    for j := 0 to |server|
      invariant LeftToDrop(left, removed, multiset(server[..j]))
      invariant edited == Waiting(edits, removed, multiset(server[..j]))
      invariant out == Survivors(server, removed, edits, keys, j)
    {
      var c := server[j];
      SurvivorStep(server, removed, edits, keys, j, left[c]);
      assert server[..j + 1] == server[..j] + [c];
      if left[c] > 0 {
        left := left[c := left[c] - 1];
      } else {
        var e := Get(edited, c);
        GetKeys(edited, c);
        if e.Some? { edited := Delete(edited, c); } else { DeleteAbsent(edited, c); }
        out := out + [Item(keys(j), Some(j), e.GetOr(c))];
      }
    }
    assert server[..|server|] == server;
    var orphans := CopyOrphans(edited, keys, |server|);
    var added := CopyAdditions(items, |base|);
    out := out + orphans + added;
  }

  lemma SurvivorsStart(server: seq<CVal>, removed: multiset<CVal>, edits: Entries<CVal, CVal>, keys: nat -> string)
    ensures Survivors(server, removed, edits, keys, 0) == [] && multiset(server[..0]) == multiset{}
  {
  }

  /** Edits whose server twin is gone. */
  method CopyOrphans(edited: Entries<CVal, CVal>, keys: nat -> string, start: nat) returns (out: seq<Item>)
    ensures out == Orphans(edited, keys, start)
  {
    out := [];
    for i := 0 to |edited|
      invariant out == Orphans(edited, keys, start)[..i]
    {
      out := out + [Item(keys(start + i), None, edited[i].1)];
    }
  }

  /** The user's own elements, in item order. */
  method CopyAdditions(items: seq<Item>, n: nat) returns (out: seq<Item>)
    ensures out == Additions(items, n)
  {
    out := [];
    for i := 0 to |items|
      invariant out == Additions(items[..i], n)
    {
      assert items[..i + 1][..i] == items[..i];
      if !Live(items[i], n) { out := out + [items[i].(origin := None)]; }
    }
    assert items[..|items|] == items;
  }

  /** The first half of `rebaseExtras`: the removed contents and the edits by base content. */
  method ReadChanges(base: seq<CVal>, items: seq<Item>) returns (removed: multiset<CVal>, edited: Entries<CVal, CVal>)
    ensures removed == Removals(base, Kept(items)) && edited == Edits(base, items)
  {
    var kept := Kept(items);
    removed := multiset{};
    for i := 0 to |base|
      invariant removed == Removals(base[..i], kept)
    {
      assert base[..i + 1][..i] == base[..i];
      if i !in kept { removed := removed + multiset{base[i]}; }
    }
    assert base[..|base|] == base;
    edited := [];
    for i := 0 to |items|
      invariant edited == FromEntries(EditPairs(base, items[..i]))
    {
      ghost var pairs := EditPairs(base, items[..i]);
      assert items[..i + 1][..i] == items[..i];
      if Edited(base, items[i]) {
        var was := base[items[i].origin.value];
        edited := Put(edited, was, items[i].value);
        CollectOne(pairs, was, items[i].value);
      } else {
        assert EditPairs(base, items[..i + 1]) == pairs;
      }
    }
    assert items[..|items|] == items;
  }

  lemma CollectOne(pairs: seq<(CVal, CVal)>, k: CVal, v: CVal)
    ensures FromEntries(pairs + [(k, v)]) == Put(FromEntries(pairs), k, v)
  {
    assert (pairs + [(k, v)])[..|pairs|] == pairs;
  }
}

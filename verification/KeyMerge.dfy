/** The change summary and the three-way merge of one keyed section (frontend/src/pages/acls/model.ts). */
module KeyMerge {
  import opened Base
  import opened Text
  import opened Records
  import opened DraftModel

  datatype KeyChanges = KeyChanges(added: seq<string>, removed: seq<string>, changed: seq<string>)
  {
    function Count(): nat { |added| + |removed| + |changed| }
  }

  /** The keys at which the two records hold different values. */
  function Changed<V(==)>(keys: seq<string>, server: Record<V>, draft: Record<V>): seq<string> {
    Where(keys, k => k in KeysOf(draft) && Get(server, k) != Get(draft, k))
  }

  function Missing<V>(keys: seq<string>, from: Record<V>): seq<string> { Where(keys, k => k !in KeysOf(from)) }

  /** `diffKeys`. */
  function DiffKeys<V(==)>(server: Record<V>, draft: Record<V>): KeyChanges {
    KeyChanges(
      Missing(KeysOf(draft), server), Missing(KeysOf(server), draft), Changed(KeysOf(server), server, draft))
  }

  lemma NextMissing<V>(keys: seq<string>, i: nat, from: Record<V>)
    requires i < |keys|
    ensures Missing(keys[..i + 1], from) == Missing(keys[..i], from) + if keys[i] in KeysOf(from) then [] else [keys[i]]
  {
    assert keys[..i + 1][..i] == keys[..i];
  }

  lemma NextChanged<V>(keys: seq<string>, i: nat, server: Record<V>, draft: Record<V>)
    requires i < |keys|
    ensures Changed(keys[..i + 1], server, draft) == Changed(keys[..i], server, draft) +
            if keys[i] in KeysOf(draft) && Get(server, keys[i]) != Get(draft, keys[i]) then [keys[i]] else []
  {
    assert keys[..i + 1][..i] == keys[..i];
  }

  method DiffKeysLoop<V(==)>(server: Record<V>, draft: Record<V>) returns (out: KeyChanges)
    ensures out == DiffKeys(server, draft)
  {
    hide Get, Missing, Changed;
    var keys := KeysOf(server);
    var removed: seq<string>, changed: seq<string>, added: seq<string> := [], [], [];
    NothingYet(server, draft);
    for i := 0 to |keys|
      invariant removed == Missing(keys[..i], draft) && changed == Changed(keys[..i], server, draft)
    {
      var k := keys[i];
      NextMissing(keys, i, draft);
      NextChanged(keys, i, server, draft);
      if k !in KeysOf(draft) { removed := removed + [k]; }
      else if Get(server, k) != Get(draft, k) { changed := changed + [k]; }
    }
    assert keys[..|keys|] == keys;
    var mine := KeysOf(draft);
    for i := 0 to |mine|
      invariant added == Missing(mine[..i], server)
    {
      NextMissing(mine, i, server);
      if mine[i] !in KeysOf(server) { added := added + [mine[i]]; }
    }
    assert mine[..|mine|] == mine;
    out := KeyChanges(added, removed, changed);
  }

  lemma NothingYet<V>(server: Record<V>, draft: Record<V>)
    ensures Missing([], server) == [] && Missing([], draft) == [] && Changed([], server, draft) == []
  {
  }

  /** Copies the draft's values of the given keys. */
  function Adopt<V>(sv: Record<V>, dv: Record<V>, keys: seq<string>): Record<V> {
    if keys == [] then sv
    else
      var last := keys[|keys| - 1];
      var before := Adopt(sv, dv, keys[..|keys| - 1]);
      var v := Get(dv, last);
      if v.Some? then Put(before, last, v.value) else before
  }

  function Drop<V>(r: Record<V>, keys: seq<string>): Record<V> {
    if keys == [] then r else Delete(Drop(r, keys[..|keys| - 1]), keys[|keys| - 1])
  }

  /** `mergeKeys`. */
  function MergeKeys<V>(sv: Record<V>, dv: Record<V>, ch: KeyChanges): Record<V> {
    Drop(Adopt(sv, dv, ch.added + ch.changed), ch.removed)
  }

  method MergeKeysLoop<V>(sv: Record<V>, dv: Record<V>, ch: KeyChanges) returns (out: Record<V>)
    ensures out == MergeKeys(sv, dv, ch)
  {
    var keys := ch.added + ch.changed;
    out := sv;
    for i := 0 to |keys|
      invariant out == Adopt(sv, dv, keys[..i])
    {
      assert keys[..i + 1][..i] == keys[..i];
      var v := Get(dv, keys[i]);
      if v.Some? { out := Put(out, keys[i], v.value); }
    }
    assert keys[..|keys|] == keys;
    ghost var adopted := out;
    for i := 0 to |ch.removed|
      invariant out == Drop(adopted, ch.removed[..i])
    {
      assert ch.removed[..i + 1][..i] == ch.removed[..i];
      out := Delete(out, ch.removed[i]);
    }
    assert ch.removed[..|ch.removed|] == ch.removed;
  }

  // ---- the three-way law ----

  lemma {:induction false} GetAdopt<V>(sv: Record<V>, dv: Record<V>, keys: seq<string>, x: string)
    requires IsRecord(sv)
    ensures IsRecord(Adopt(sv, dv, keys))
    ensures Get(Adopt(sv, dv, keys), x) == if x in keys && Get(dv, x).Some? then Get(dv, x) else Get(sv, x)
  {
    if keys != [] {
      var init, last := keys[..|keys| - 1], keys[|keys| - 1];
      assert keys == init + [last];
      GetAdopt(sv, dv, init, x);
      if Get(dv, last).Some? {
        GetPut(Adopt(sv, dv, init), last, Get(dv, last).value, x);
        PutRecord(Adopt(sv, dv, init), last, Get(dv, last).value);
      }
    }
  }

  lemma {:induction false} GetDrop<V>(r: Record<V>, keys: seq<string>, x: string)
    requires IsRecord(r)
    ensures IsRecord(Drop(r, keys))
    ensures Get(Drop(r, keys), x) == if x in keys then None else Get(r, x)
  {
    if keys != [] {
      var init, last := keys[..|keys| - 1], keys[|keys| - 1];
      assert keys == init + [last];
      GetDrop(r, init, x);
      GetDelete(Drop(r, init), last, x);
      DeleteKeys(Drop(r, init), last);
    }
  }

  /** Two records answer the same at every key. */
  ghost predicate SameRecord<V>(a: Record<V>, b: Record<V>) { forall k :: Get(a, k) == Get(b, k) }

  /** Rebasing a section: at every key the draft's answer if the draft differs from its base, else the
      server's; having no such key is an answer too. */
  lemma ThreeWayMerge<V>(base: Record<V>, draft: Record<V>, server: Record<V>, k: string)
    requires IsRecord(base) && IsRecord(draft) && IsRecord(server)
    ensures var out := MergeKeys(server, draft, DiffKeys(base, draft));
            IsRecord(out) && Get(out, k) == if Get(draft, k) != Get(base, k) then Get(draft, k) else Get(server, k)
  {
    hide Get, Put, Delete;
    var ch := DiffKeys(base, draft);
    GetAdopt(server, draft, ch.added + ch.changed, k);
    GetDrop(Adopt(server, draft, ch.added + ch.changed), ch.removed, k);
    GetKeys(base, k);
    GetKeys(draft, k);
  }

  // ---- counting changes ----

  function ToSet(keys: seq<string>): set<string> { set k | k in keys }

  lemma {:induction false} DistinctSize(keys: seq<string>)
    requires Distinct(keys)
    ensures |ToSet(keys)| == |keys|
  {
    if keys != [] {
      var init, last := keys[..|keys| - 1], keys[|keys| - 1];
      assert keys == init + [last];
      DistinctSize(init);
      assert ToSet(keys) == ToSet(init) + {last};
    }
  }

  /** The keys at which two records answer differently. */
  function Differing<V(==)>(a: Record<V>, b: Record<V>): set<string> {
    set k | k in ToSet(KeysOf(a)) + ToSet(KeysOf(b)) && Get(a, k) != Get(b, k)
  }

  lemma DifferingParts<V>(a: Record<V>, b: Record<V>)
    ensures var ch := DiffKeys(a, b);
            var x, y, z := ToSet(ch.added), ToSet(ch.removed), ToSet(ch.changed);
            x !! y && (x + y) !! z && Differing(a, b) == x + y + z
  {
    hide Get, KeysOf;
    forall k ensures (k in KeysOf(a) <==> Get(a, k).Some?) && (k in KeysOf(b) <==> Get(b, k).Some?) {
      GetKeys(a, k);
      GetKeys(b, k);
    }
    var ch := DiffKeys(a, b);
    var x, y, z := ToSet(ch.added), ToSet(ch.removed), ToSet(ch.changed);
    forall k ensures k in Differing(a, b) <==> k in x + y + z { }
  }

  lemma NothingDiffers<V>(a: Record<V>, b: Record<V>)
    ensures Differing(a, b) == {} <==> SameRecord(a, b)
  {
    hide Get, KeysOf;
    forall k ensures k in Differing(a, b) <==> Get(a, k) != Get(b, k) {
      GetKeys(a, k);
      GetKeys(b, k);
    }
    if Differing(a, b) == {} {
      forall k ensures Get(a, k) == Get(b, k) { assert k !in Differing(a, b); }
    }
  }

  /** The summary counts every differing key once. */
  lemma CountIsDiffering<V>(a: Record<V>, b: Record<V>)
    requires IsRecord(a) && IsRecord(b)
    ensures DiffKeys(a, b).Count() == |Differing(a, b)|
    ensures Differing(a, b) == {} <==> SameRecord(a, b)
  {
    hide Get, Differing, SameRecord, ToSet;
    var ch := DiffKeys(a, b);
    DifferingParts(a, b);
    NothingDiffers(a, b);
    DistinctSize(ch.added);
    DistinctSize(ch.removed);
    DistinctSize(ch.changed);
  }

  lemma SubsetSize(a: set<string>, b: set<string>)
    requires a <= b
    ensures |a| <= |b|
  {
    assert b == a + (b - a) && a !! (b - a);
  }

  /** After a rebase no section shows more changes against the new server model than it did before. */
  lemma MergeCount<V>(base: Record<V>, draft: Record<V>, server: Record<V>)
    requires IsRecord(base) && IsRecord(draft) && IsRecord(server)
    ensures var out := MergeKeys(server, draft, DiffKeys(base, draft));
            DiffKeys(server, out).Count() <= DiffKeys(base, draft).Count()
  {
    hide Get, MergeKeys, DiffKeys;
    var out := MergeKeys(server, draft, DiffKeys(base, draft));
    forall k ensures Get(out, k) == if Get(draft, k) != Get(base, k) then Get(draft, k) else Get(server, k) {
      ThreeWayMerge(base, draft, server, k);
    }
    ThreeWayMerge(base, draft, server, "");
    CountIsDiffering(server, out);
    CountIsDiffering(base, draft);
    forall k | k in Differing(server, out) ensures k in Differing(base, draft) {
      GetKeys(base, k);
      GetKeys(draft, k);
    }
    SubsetSize(Differing(server, out), Differing(base, draft));
  }

  /** Rebasing again onto the same server model changes nothing. */
  lemma MergeAgain<V>(base: Record<V>, draft: Record<V>, server: Record<V>)
    requires IsRecord(base) && IsRecord(draft) && IsRecord(server)
    ensures var out := MergeKeys(server, draft, DiffKeys(base, draft));
            SameRecord(MergeKeys(server, out, DiffKeys(server, out)), out)
  {
    hide Get, MergeKeys, DiffKeys;
    var out := MergeKeys(server, draft, DiffKeys(base, draft));
    ThreeWayMerge(base, draft, server, "");
    forall k ensures Get(MergeKeys(server, out, DiffKeys(server, out)), k) == Get(out, k) {
      ThreeWayMerge(server, out, server, k);
    }
  }
}

/** Insertion-ordered key/value collections.
    A JavaScript object's own entries and its Map: assignment keeps an existing key's place, deletion closes the
    gap, collecting a list of entries keeps each key's first place and its last value, and a record is a
    collection without repeated keys. */
module Records {
  import opened Base
  import opened Text

  type Entries<K, V> = seq<(K, V)>

  function KeysOf<K, V>(r: Entries<K, V>): (k: seq<K>)
    ensures |k| == |r| && forall i | 0 <= i < |r| :: k[i] == r[i].0
  {
    seq(|r|, i requires 0 <= i < |r| => r[i].0)
  }

  ghost predicate IsRecord<K, V>(r: Entries<K, V>) { Distinct(KeysOf(r)) }

  function Get<K(==), V>(r: Entries<K, V>, k: K): Option<V> {
    if r == [] then None else if r[0].0 == k then Some(r[0].1) else Get(r[1..], k)
  }

  /** Assigning a key: an existing one keeps its place. */
  function Put<K(==), V>(r: Entries<K, V>, k: K, v: V): Entries<K, V> {
    if r == [] then [(k, v)]
    else if r[0].0 == k then [(k, v)] + r[1..]
    else [r[0]] + Put(r[1..], k, v)
  }

  function Delete<K(==), V>(r: Entries<K, V>, k: K): Entries<K, V> {
    if r == [] then [] else if r[0].0 == k then r[1..] else [r[0]] + Delete(r[1..], k)
  }

  /** `Object.fromEntries` and the Map constructor: a repeated key keeps its first place and its last value. */
  function FromEntries<K(==), V>(entries: seq<(K, V)>): Entries<K, V> {
    if entries == [] then []
    else Put(FromEntries(entries[..|entries| - 1]), entries[|entries| - 1].0, entries[|entries| - 1].1)
  }

  lemma KeysOfFirst<K, V>(r: Entries<K, V>)
    requires r != []
    ensures KeysOf(r) == [r[0].0] + KeysOf(r[1..])
  {
  }

  lemma DistinctFirst<T>(k: T, ks: seq<T>)
    ensures Distinct([k] + ks) <==> Distinct(ks) && k !in ks
  {
    if Distinct([k] + ks) {
      forall i, j | 0 <= i < j < |ks| ensures ks[i] != ks[j] {
        assert ([k] + ks)[i + 1] == ks[i] && ([k] + ks)[j + 1] == ks[j];
      }
      forall i | 0 <= i < |ks| ensures ks[i] != k { assert ([k] + ks)[i + 1] == ks[i] && ([k] + ks)[0] == k; }
    }
  }

  lemma DistinctLast<T>(ks: seq<T>, k: T)
    ensures Distinct(ks + [k]) <==> Distinct(ks) && k !in ks
  {
    if Distinct(ks + [k]) {
      forall i, j | 0 <= i < j < |ks| ensures ks[i] != ks[j] {
        assert (ks + [k])[i] == ks[i] && (ks + [k])[j] == ks[j];
      }
      forall i | 0 <= i < |ks| ensures ks[i] != k { assert (ks + [k])[i] == ks[i] && (ks + [k])[|ks|] == k; }
    }
  }

  lemma {:induction false} GetKeys<K, V>(r: Entries<K, V>, k: K)
    ensures Get(r, k).Some? <==> k in KeysOf(r)
    ensures Get(r, k).Some? ==> (k, Get(r, k).value) in r
  {
    if r != [] {
      KeysOfFirst(r);
      GetKeys(r[1..], k);
    }
  }

  lemma {:induction false} GetEntry<K, V>(r: Entries<K, V>, e: (K, V))
    requires IsRecord(r) && e in r
    ensures Get(r, e.0) == Some(e.1)
  {
    KeysOfFirst(r);
    DistinctFirst(r[0].0, KeysOf(r[1..]));
    if e != r[0] {
      var i :| 0 <= i < |r[1..]| && r[1..][i] == e;
      assert KeysOf(r[1..])[i] == e.0;
      GetEntry(r[1..], e);
    }
  }

  lemma {:induction false} PutKeys<K, V>(r: Entries<K, V>, k: K, v: V)
    ensures KeysOf(Put(r, k, v)) == if k in KeysOf(r) then KeysOf(r) else KeysOf(r) + [k]
  {
    hide KeysOf;
    var out := Put(r, k, v);
    KeysOfFirst(out);
    if r == [] {
      assert out[1..] == r && KeysOf(r) + [k] == [k] + KeysOf(r);
    } else {
      KeysOfFirst(r);
      PutKeys(r[1..], k, v);
    }
  }

  lemma PutRecord<K, V>(r: Entries<K, V>, k: K, v: V)
    requires IsRecord(r)
    ensures IsRecord(Put(r, k, v))
  {
    PutKeys(r, k, v);
    DistinctLast(KeysOf(r), k);
  }

  lemma {:induction false} GetPut<K, V>(r: Entries<K, V>, k: K, v: V, x: K)
    ensures Get(Put(r, k, v), x) == if x == k then Some(v) else Get(r, x)
  {
    if r != [] && r[0].0 != k { GetPut(r[1..], k, v, x); }
  }

  lemma {:induction false} PutNew<K, V>(r: Entries<K, V>, k: K, v: V)
    requires k !in KeysOf(r)
    ensures Put(r, k, v) == r + [(k, v)]
  {
    if r != [] {
      KeysOfFirst(r);
      PutNew(r[1..], k, v);
      assert r == [r[0]] + r[1..];
    }
  }

  lemma {:induction false} DeleteKeys<K, V>(r: Entries<K, V>, k: K)
    requires IsRecord(r)
    ensures IsRecord(Delete(r, k)) && forall x :: x in KeysOf(Delete(r, k)) <==> x in KeysOf(r) && x != k
  {
    hide KeysOf;
    if r != [] {
      KeysOfFirst(r);
      DistinctFirst(r[0].0, KeysOf(r[1..]));
      DeleteKeys(r[1..], k);
      if r[0].0 != k {
        KeysOfFirst(Delete(r, k));
        DistinctFirst(r[0].0, KeysOf(Delete(r[1..], k)));
      }
    } else {
      NoKeys<K, V>();
    }
  }

  lemma NoKeys<K, V>()
    ensures KeysOf<K, V>([]) == []
  {
  }

  lemma {:induction false} GetDelete<K, V>(r: Entries<K, V>, k: K, x: K)
    requires IsRecord(r)
    ensures Get(Delete(r, k), x) == if x == k then None else Get(r, x)
  {
    if r != [] {
      KeysOfFirst(r);
      DistinctFirst(r[0].0, KeysOf(r[1..]));
      if r[0].0 == k { GetKeys(r[1..], k); } else { GetDelete(r[1..], k, x); }
    }
  }

  /** Entries with distinct keys are the record. */
  lemma {:induction false} FromDistinctEntries<K, V>(entries: seq<(K, V)>)
    requires IsRecord(entries)
    ensures FromEntries(entries) == entries
  {
    if entries != [] {
      var init, last := entries[..|entries| - 1], entries[|entries| - 1];
      assert entries == init + [last] && KeysOf(entries) == KeysOf(init) + [last.0];
      DistinctLast(KeysOf(init), last.0);
      FromDistinctEntries(init);
      PutNew(init, last.0, last.1);
    }
  }

  /** Collecting entries keeps every key, and every entry exactly when no key is repeated. */
  lemma {:induction false} FromEntriesSize<K, V>(entries: seq<(K, V)>)
    ensures IsRecord(FromEntries(entries))
    ensures forall x :: x in KeysOf(FromEntries(entries)) <==> x in KeysOf(entries)
    ensures |FromEntries(entries)| <= |entries|
    ensures |FromEntries(entries)| == |entries| <==> IsRecord(entries)
  {
    hide Put;
    if entries != [] {
      var init, last := entries[..|entries| - 1], entries[|entries| - 1];
      assert entries == init + [last] && KeysOf(entries) == KeysOf(init) + [last.0];
      DistinctLast(KeysOf(init), last.0);
      FromEntriesSize(init);
      PutKeys(FromEntries(init), last.0, last.1);
      PutRecord(FromEntries(init), last.0, last.1);
      assert |KeysOf(FromEntries(entries))| == |FromEntries(entries)|;
    }
  }

  lemma {:induction false} PutValues<K, V>(r: Entries<K, V>, k: K, v: V, e: (K, V))
    requires e in Put(r, k, v)
    ensures e == (k, v) || e in r
  {
    if r != [] && r[0].0 != k && e != r[0] { PutValues(r[1..], k, v, e); }
  }

  lemma {:induction false} FromEntriesValues<K, V>(entries: seq<(K, V)>, e: (K, V))
    requires e in FromEntries(entries)
    ensures e in entries
  {
    if entries != [] {
      var init, last := entries[..|entries| - 1], entries[|entries| - 1];
      assert entries == init + [last];
      PutValues(FromEntries(init), last.0, last.1, e);
      if e != last { FromEntriesValues(init, e); }
    }
  }

  lemma AppendEntry<K, V>(r: Entries<K, V>, e: (K, V), x: K)
    ensures KeysOf(r + [e]) == KeysOf(r) + [e.0]
    ensures IsRecord(r + [e]) <==> IsRecord(r) && e.0 !in KeysOf(r)
    ensures e.0 !in KeysOf(r) ==> Get(r + [e], x) == if x == e.0 then Some(e.1) else Get(r, x)
  {
    assert KeysOf(r + [e]) == KeysOf(r) + [e.0];
    DistinctLast(KeysOf(r), e.0);
    if e.0 !in KeysOf(r) {
      PutNew(r, e.0, e.1);
      GetPut(r, e.0, e.1, x);
    }
  }

  // ---- filtering ----

  function Where<T(!new)>(xs: seq<T>, p: T -> bool): (r: seq<T>)
    ensures forall x :: x in r <==> x in xs && p(x)
    ensures Distinct(xs) ==> Distinct(r)
  {
    if xs == [] then []
    else
      var init, last := xs[..|xs| - 1], xs[|xs| - 1];
      assert xs == init + [last];
      assert forall i | 0 <= i < |init| :: init[i] == xs[i];
      Where(init, p) + if p(last) then [last] else []
  }

  lemma WhereAppend<T(!new)>(xs: seq<T>, x: T, p: T -> bool)
    ensures Where(xs + [x], p) == Where(xs, p) + if p(x) then [x] else []
  {
    assert (xs + [x])[..|xs|] == xs;
  }

  lemma {:induction false} WhereConcat<T(!new)>(a: seq<T>, b: seq<T>, p: T -> bool)
    ensures Where(a + b, p) == Where(a, p) + Where(b, p)
  {
    hide Where;
    if b == [] {
      assert a + b == a;
      WhereOfNothing(p);
    } else {
      var init, last := b[..|b| - 1], b[|b| - 1];
      WhereConcat(a, init, p);
      WhereAppend(init, last, p);
      WhereAppend(a + init, last, p);
      assert a + b == a + init + [last] && b == init + [last];
    }
  }

  lemma WhereOfNothing<T(!new)>(p: T -> bool)
    ensures Where([], p) == []
  {
  }

  lemma {:induction false} WhereSame<T(!new)>(xs: seq<T>, p: T -> bool, q: T -> bool)
    requires forall x | x in xs :: p(x) <==> q(x)
    ensures Where(xs, p) == Where(xs, q)
  {
    if xs != [] {
      assert xs[|xs| - 1] in xs && forall x | x in xs[..|xs| - 1] :: x in xs;
      WhereSame(xs[..|xs| - 1], p, q);
    }
  }

  lemma {:induction false} WhereAll<T(!new)>(xs: seq<T>, p: T -> bool)
    requires forall x | x in xs :: p(x)
    ensures Where(xs, p) == xs
  {
    if xs != [] {
      assert xs[|xs| - 1] in xs && forall x | x in xs[..|xs| - 1] :: x in xs;
      WhereAll(xs[..|xs| - 1], p);
      assert xs == xs[..|xs| - 1] + [xs[|xs| - 1]];
    }
  }

  lemma {:induction false} WhereNothing<T(!new)>(xs: seq<T>, p: T -> bool)
    requires forall x | x in xs :: !p(x)
    ensures Where(xs, p) == []
  {
    if xs != [] {
      var init, last := xs[..|xs| - 1], xs[|xs| - 1];
      assert xs == init + [last];
      WhereNothing(init, p);
    }
  }

  lemma {:induction false} WhereTwice<T(!new)>(xs: seq<T>, p: T -> bool, q: T -> bool, both: T -> bool)
    requires forall x | x in xs :: both(x) <==> p(x) && q(x)
    ensures Where(Where(xs, p), q) == Where(xs, both)
  {
    if xs != [] {
      var init, last := xs[..|xs| - 1], xs[|xs| - 1];
      assert last in xs && forall x | x in init :: x in xs;
      WhereTwice(init, p, q, both);
      var w := Where(init, p);
      assert (w + [last])[..|w|] == w && w + [] == w;
    }
  }

  lemma KeyOfEntry<K, V>(r: Entries<K, V>, e: (K, V))
    requires e in r
    ensures e.0 in KeysOf(r)
  {
    var i :| 0 <= i < |r| && r[i] == e;
    assert KeysOf(r)[i] == e.0;
  }

  /** Deleting from a record filters its entries. */
  lemma {:induction false} DeleteIsWhere<K(!new), V(!new)>(r: Entries<K, V>, k: K, p: ((K, V)) -> bool)
    requires IsRecord(r) && forall e | e in r :: p(e) <==> e.0 != k
    ensures Delete(r, k) == Where(r, p)
  {
    hide KeysOf, Where;
    WhereOfNothing(p);
    if r != [] {
      var first, rest := r[0], r[1..];
      assert r == [first] + rest && first in r && forall e | e in rest :: e in r;
      KeysOfFirst(r);
      DistinctFirst(first.0, KeysOf(rest));
      WhereConcat([first], rest, p);
      WhereAppend([], first, p);
      assert [] + [first] == [first];
      if first.0 == k {
        forall e | e in rest ensures p(e) { KeyOfEntry(rest, e); }
        WhereAll(rest, p);
      } else {
        DeleteIsWhere(rest, k, p);
      }
    }
  }
}

/** Longest common subsequences and the array edits read off them (internal/aclmodel/patch.go). */
module Lcs {

  /** The elements of s whose mask entry is true, in order. */
  function Kept<T>(s: seq<T>, mask: seq<bool>): (r: seq<T>)
    requires |s| == |mask|
    ensures |r| <= |s|
  {
    if s == [] then []
    else (if mask[0] then [s[0]] else []) + Kept(s[1..], mask[1..])
  }

  /** c is a common subsequence of a and b: some mask of each selects it. */
  ghost predicate IsCommonSubsequence<T(!new)>(c: seq<T>, a: seq<T>, b: seq<T>) {
    exists ma: seq<bool>, mb: seq<bool> ::
      |ma| == |a| && |mb| == |b| && Kept(a, ma) == c && Kept(b, mb) == c
  }

  /** The recurrence the table solves. */
  function Length<T(==)>(a: seq<T>, b: seq<T>): nat
    decreases |a| + |b|
  {
    if a == [] || b == [] then 0
    else if a[0] == b[0] then 1 + Length(a[1..], b[1..])
    else if Length(a[1..], b) >= Length(a, b[1..]) then Length(a[1..], b)
    else Length(a, b[1..])
  }

  function Nothing(n: nat): (r: seq<bool>)
    ensures |r| == n && forall i | 0 <= i < n :: !r[i]
  {
    seq(n, _ => false)
  }

  /** The masks found by walking the table from its top left corner. */
  function Masks<T(==)>(a: seq<T>, b: seq<T>): (r: (seq<bool>, seq<bool>))
    ensures |r.0| == |a| && |r.1| == |b|
    decreases |a| + |b|
  {
    if a == [] || b == [] then (Nothing(|a|), Nothing(|b|))
    else if a[0] == b[0] then
      var (ka, kb) := Masks(a[1..], b[1..]);
      ([true] + ka, [true] + kb)
    else if Length(a[1..], b) >= Length(a, b[1..]) then
      var (ka, kb) := Masks(a[1..], b);
      ([false] + ka, kb)
    else
      var (ka, kb) := Masks(a, b[1..]);
      (ka, [false] + kb)
  }

  /** The recurrences, read at a cell of the table. */
  lemma AtCell<T>(a: seq<T>, b: seq<T>, i: nat, j: nat)
    requires i < |a| && j < |b|
    ensures Length(a[i..], b[j..]) ==
            if a[i] == b[j] then Length(a[i + 1..], b[j + 1..]) + 1
            else if Length(a[i + 1..], b[j..]) >= Length(a[i..], b[j + 1..]) then Length(a[i + 1..], b[j..])
            else Length(a[i..], b[j + 1..])
    ensures Masks(a[i..], b[j..]) ==
            if a[i] == b[j] then
              ([true] + Masks(a[i + 1..], b[j + 1..]).0, [true] + Masks(a[i + 1..], b[j + 1..]).1)
            else if Length(a[i + 1..], b[j..]) >= Length(a[i..], b[j + 1..]) then
              ([false] + Masks(a[i + 1..], b[j..]).0, Masks(a[i + 1..], b[j..]).1)
            else
              (Masks(a[i..], b[j + 1..]).0, [false] + Masks(a[i..], b[j + 1..]).1)
  {
    assert a[i..][1..] == a[i + 1..] && b[j..][1..] == b[j + 1..];
  }

  /** The table's last row and column, and the end of the walk. */
  lemma AtEdge<T>(a: seq<T>, b: seq<T>, i: nat, j: nat)
    requires i <= |a| && j <= |b| && (i == |a| || j == |b|)
    ensures Length(a[i..], b[j..]) == 0
    ensures Masks(a[i..], b[j..]) == (Nothing(|a| - i), Nothing(|b| - j))
  {
  }

  /** The table: dp[i, j] is the length for the suffixes a[i..] and b[j..]. */
  method Table<T(==)>(a: seq<T>, b: seq<T>) returns (dp: array2<nat>)
    ensures fresh(dp) && dp.Length0 == |a| + 1 && dp.Length1 == |b| + 1
    ensures forall x, y | 0 <= x <= |a| && 0 <= y <= |b| :: dp[x, y] == Length(a[x..], b[y..])
  {
    hide Length;
    var n, m := |a|, |b|;
    forall x, y | 0 <= x <= n && 0 <= y <= m && (x == n || y == m)
      ensures Length(a[x..], b[y..]) == 0
    {
      AtEdge(a, b, x, y);
    }
    dp := new nat[n + 1, m + 1]((i, j) => 0);
    var i := n - 1;
    while i >= 0
      invariant -1 <= i <= n - 1
      invariant forall x, y | i < x <= n && 0 <= y <= m :: dp[x, y] == Length(a[x..], b[y..])
      invariant forall x | 0 <= x <= i :: dp[x, m] == 0
    {
      var j := m - 1;
      while j >= 0
        invariant -1 <= j <= m - 1
        invariant forall x, y | i < x <= n && 0 <= y <= m :: dp[x, y] == Length(a[x..], b[y..])
        invariant forall y | j < y <= m :: dp[i, y] == Length(a[i..], b[y..])
        invariant forall x | 0 <= x < i :: dp[x, m] == 0
      {
        AtCell(a, b, i, j);
        if a[i] == b[j] {
          dp[i, j] := dp[i + 1, j + 1] + 1;
        } else if dp[i + 1, j] >= dp[i, j + 1] {
          dp[i, j] := dp[i + 1, j];
        } else {
          dp[i, j] := dp[i, j + 1];
        }
        j := j - 1;
      }
      i := i - 1;
    }
  }

  /** The marks made before cell (p, q) and the masks from there on are the masks of the whole. */
  ghost predicate Walked<T>(a: seq<T>, b: seq<T>, p: nat, q: nat, doneA: seq<bool>, doneB: seq<bool>) {
    && p <= |a| && q <= |b|
    && Masks(a, b) == (doneA + Masks(a[p..], b[q..]).0, doneB + Masks(a[p..], b[q..]).1)
  }

  lemma WalkStarts<T>(a: seq<T>, b: seq<T>)
    ensures Walked(a, b, 0, 0, [], [])
  {
    hide Masks;
    var m := Masks(a, b);
    assert a[0..] == a && b[0..] == b && [] + m.0 == m.0 && [] + m.1 == m.1;
  }

  lemma WalkStep<T>(a: seq<T>, b: seq<T>, p: nat, q: nat, doneA: seq<bool>, doneB: seq<bool>)
    requires p < |a| && q < |b| && Walked(a, b, p, q, doneA, doneB)
    ensures if a[p] == b[q] then Walked(a, b, p + 1, q + 1, doneA + [true], doneB + [true])
            else if Length(a[p + 1..], b[q..]) >= Length(a[p..], b[q + 1..]) then
              Walked(a, b, p + 1, q, doneA + [false], doneB)
            else Walked(a, b, p, q + 1, doneA, doneB + [false])
  {
    hide Masks, Length;
    AtCell(a, b, p, q);
    MovePast(doneA, a[p] == b[q], Masks(a[p..], b[q..]).0);
    MovePast(doneB, a[p] == b[q], Masks(a[p..], b[q..]).1);
  }

  lemma MovePast(front: seq<bool>, mark: bool, back: seq<bool>)
    ensures back != [] && back[0] == mark ==> (front + [mark]) + back[1..] == front + back
  {
  }

  lemma WalkEnds<T>(a: seq<T>, b: seq<T>, p: nat, q: nat, doneA: seq<bool>, doneB: seq<bool>)
    requires Walked(a, b, p, q, doneA, doneB) && (p == |a| || q == |b|)
    ensures Masks(a, b) == (doneA + Nothing(|a| - p), doneB + Nothing(|b| - q))
  {
    hide Masks, Length;
    AtEdge(a, b, p, q);
  }

  /** Walks the table from its top left corner, marking the elements of one longest common subsequence. */
  method Compute<T(==)>(a: seq<T>, b: seq<T>) returns (keepA: seq<bool>, keepB: seq<bool>)
    ensures (keepA, keepB) == Masks(a, b)
  {
    hide Length, Masks, Walked;
    var n, m := |a|, |b|;
    var dp := Table(a, b);
    var markA := new bool[n](_ => false);
    var markB := new bool[m](_ => false);
    var p, q := 0, 0;
    WalkStarts(a, b);
    assert markA[..0] == [] && markB[..0] == [];
    while p < n && q < m
      invariant 0 <= p <= n && 0 <= q <= m
      invariant Walked(a, b, p, q, markA[..p], markB[..q])
      invariant forall x | p <= x < n :: !markA[x]
      invariant forall y | q <= y < m :: !markB[y]
      invariant forall x, y | 0 <= x <= n && 0 <= y <= m :: dp[x, y] == Length(a[x..], b[y..])
      decreases n - p + m - q
    {
      ghost var doneA, doneB := markA[..p], markB[..q];
      WalkStep(a, b, p, q, doneA, doneB);
      if a[p] == b[q] {
        markA[p], markB[q] := true, true;
        p, q := p + 1, q + 1;
        assert markA[..p] == doneA + [true] && markB[..q] == doneB + [true];
      } else if dp[p + 1, q] >= dp[p, q + 1] {
        p := p + 1;
        assert markA[..p] == doneA + [false];
      } else {
        q := q + 1;
        assert markB[..q] == doneB + [false];
      }
    }
    WalkEnds(a, b, p, q, markA[..p], markB[..q]);
    keepA, keepB := markA[..], markB[..];
    assert keepA == markA[..p] + Nothing(n - p) && keepB == markB[..q] + Nothing(m - q);
  }

  // ---- the walk marks a longest common subsequence ----

  lemma {:induction false} KeptOfNothing<T>(s: seq<T>)
    ensures Kept(s, Nothing(|s|)) == []
  {
    if s != [] {
      assert Nothing(|s|)[1..] == Nothing(|s| - 1);
      KeptOfNothing(s[1..]);
    }
  }

  /** Both masks select the same elements, and as many as the recurrence counts. */
  lemma {:induction false} MasksAgree<T>(a: seq<T>, b: seq<T>)
    ensures Kept(a, Masks(a, b).0) == Kept(b, Masks(a, b).1)
    ensures |Kept(a, Masks(a, b).0)| == Length(a, b)
    decreases |a| + |b|
  {
    if a == [] || b == [] {
      KeptOfNothing(a);
      KeptOfNothing(b);
    } else if a[0] == b[0] {
      MasksAgree(a[1..], b[1..]);
    } else if Length(a[1..], b) >= Length(a, b[1..]) {
      MasksAgree(a[1..], b);
    } else {
      MasksAgree(a, b[1..]);
    }
  }

  /** Dropping the first element of either list costs at most one. */
  lemma {:induction false} DropFirst<T>(a: seq<T>, b: seq<T>)
    ensures a != [] ==> Length(a[1..], b) <= Length(a, b) <= Length(a[1..], b) + 1
    ensures b != [] ==> Length(a, b[1..]) <= Length(a, b) <= Length(a, b[1..]) + 1
    decreases |a| + |b|
  {
    if a != [] && b != [] {
      DropFirst(a[1..], b);
      DropFirst(a, b[1..]);
    }
  }

  lemma {:induction false} NoLongerSelection<T>(a: seq<T>, b: seq<T>, ma: seq<bool>, mb: seq<bool>)
    requires |ma| == |a| && |mb| == |b| && Kept(a, ma) == Kept(b, mb)
    ensures |Kept(a, ma)| <= Length(a, b)
    decreases |a| + |b|
  {
    if a != [] && b != [] {
      DropFirst(a, b);
      if !ma[0] {
        NoLongerSelection(a[1..], b, ma[1..], mb);
      } else if !mb[0] {
        NoLongerSelection(a, b[1..], ma, mb[1..]);
      } else {
        assert Kept(a, ma)[0] == a[0] && Kept(b, mb)[0] == b[0];
        assert Kept(a[1..], ma[1..]) == Kept(a, ma)[1..];
        assert Kept(b[1..], mb[1..]) == Kept(b, mb)[1..];
        NoLongerSelection(a[1..], b[1..], ma[1..], mb[1..]);
      }
    }
  }

  /** What the walk keeps is a common subsequence, and no common subsequence is longer. */
  lemma {:induction false} KeepsLongest<T(!new)>(a: seq<T>, b: seq<T>)
    ensures IsCommonSubsequence(Kept(a, Masks(a, b).0), a, b)
    ensures forall c | IsCommonSubsequence(c, a, b) :: |c| <= |Kept(a, Masks(a, b).0)|
  {
    MasksAgree(a, b);
    forall c | IsCommonSubsequence(c, a, b)
      ensures |c| <= Length(a, b)
    {
      var ma: seq<bool>, mb: seq<bool> :| |ma| == |a| && |mb| == |b| && Kept(a, ma) == c && Kept(b, mb) == c;
      NoLongerSelection(a, b, ma, mb);
    }
  }

  /** Equal lists are kept whole. */
  lemma {:induction false} EqualListsKeptWhole<T>(a: seq<T>)
    ensures Masks(a, a).0 == Masks(a, a).1 == seq(|a|, _ => true)
  {
    if a != [] {
      EqualListsKeptWhole(a[1..]);
    }
  }

  // ---- scripts of single-element edits ----

  /** One array operation of RFC 6902: remove the element at an index, or insert before one. */
  datatype Edit<T> = Remove(i: nat) | Insert(i: nat, x: T)

  datatype Outcome<T> = Done(list: seq<T>) | OutOfBounds

  function RunEdit<T>(s: seq<T>, e: Edit<T>): Outcome<T> {
    match e
    case Remove(i) => if i < |s| then Done(s[..i] + s[i + 1..]) else OutOfBounds
    case Insert(i, x) => if i <= |s| then Done(s[..i] + [x] + s[i..]) else OutOfBounds
  }

  function Run<T>(s: seq<T>, script: seq<Edit<T>>): Outcome<T>
    decreases |script|
  {
    if script == [] then Done(s)
    else
      match RunEdit(s, script[0])
      case OutOfBounds => OutOfBounds
      case Done(s1) => Run(s1, script[1..])
  }

  lemma {:induction false} RunConcat<T>(s: seq<T>, x: seq<Edit<T>>, y: seq<Edit<T>>)
    ensures Run(s, x + y) == match Run(s, x) case OutOfBounds => OutOfBounds case Done(t) => Run(t, y)
    decreases |x|
  {
    if x == [] {
      assert x + y == y;
    } else {
      assert (x + y)[0] == x[0] && (x + y)[1..] == x[1..] + y;
      match RunEdit(s, x[0])
      case OutOfBounds =>
      case Done(s1) => RunConcat(s1, x[1..], y);
    }
  }

  /** Removals of the unmarked positions, from the last to the first. */
  function Removals<T>(keep: seq<bool>): seq<Edit<T>> {
    if keep == [] then []
    else
      var last := |keep| - 1;
      (if keep[last] then [] else [Remove(last)]) + Removals(keep[..last])
  }

  /** Insertions at the unmarked positions from j on, in ascending order. */
  function Insertions<T>(keep: seq<bool>, items: seq<T>, j: nat): seq<Edit<T>>
    requires |keep| == |items| && j <= |keep|
    decreases |keep| - j
  {
    if j == |keep| then []
    else (if keep[j] then [] else [Insert(j, items[j])]) + Insertions(keep, items, j + 1)
  }

  /** The script for an existing array: removals (descending), then insertions (ascending). */
  function Script<K(==), T>(oldIds: seq<K>, curIds: seq<K>, items: seq<T>): seq<Edit<T>>
    requires |items| == |curIds|
  {
    var (keepOld, keepCur) := Masks(oldIds, curIds);
    Removals(keepOld) + Insertions(keepCur, items, 0)
  }

  /** The list the insertions build: marked positions take the next kept element, others the new item. */
  function Weave<T>(keep: seq<bool>, kept: seq<T>, items: seq<T>): (r: seq<T>)
    requires |keep| == |items| && |Kept(keep, keep)| == |kept|
    ensures |r| == |keep|
  {
    if keep == [] then []
    else if keep[0] then [kept[0]] + Weave(keep[1..], kept[1..], items[1..])
    else [items[0]] + Weave(keep[1..], kept, items[1..])
  }

  lemma {:induction false} KeptCount<T>(s: seq<T>, mask: seq<bool>)
    requires |s| == |mask|
    ensures |Kept(s, mask)| == |Kept(mask, mask)|
  {
    if s != [] { KeptCount(s[1..], mask[1..]); }
  }

  lemma {:induction false} KeptAppend<T>(s: seq<T>, x: T, mask: seq<bool>, b: bool)
    requires |s| == |mask|
    ensures Kept(s + [x], mask + [b]) == Kept(s, mask) + (if b then [x] else [])
  {
    if s != [] {
      assert (s + [x])[1..] == s[1..] + [x] && (mask + [b])[1..] == mask[1..] + [b];
      KeptAppend(s[1..], x, mask[1..], b);
    }
  }

  lemma RemoveHere<T>(front: seq<T>, x: T, tail: seq<T>)
    ensures RunEdit(front + [x] + tail, Edit.Remove(|front|)) == Done(front + tail)
  {
    var s := front + [x] + tail;
    assert s[..|front|] == front && s[|front| + 1..] == tail;
  }

  lemma {:induction false} RemovalsRun<T>(prefix: seq<T>, tail: seq<T>, keep: seq<bool>)
    requires |prefix| == |keep|
    ensures Run(prefix + tail, Removals(keep)) == Done(Kept(prefix, keep) + tail)
    decreases |keep|
  {
    if keep == [] {
      assert prefix + tail == tail == Kept(prefix, keep) + tail;
    } else {
      hide RunEdit, Kept;
      var last := |keep| - 1;
      var p, x, k := prefix[..last], prefix[last], keep[..last];
      assert prefix == p + [x] && keep == k + [keep[last]];
      KeptAppend(p, x, k, keep[last]);
      if keep[last] {
        Associates(p, x, tail);
        Associates(Kept(p, k), x, tail);
        assert Removals<T>(keep) == Removals(k);
        RemovalsRun(p, [x] + tail, k);
      } else {
        RemoveHere(p, x, tail);
        RunCons(prefix + tail, Edit.Remove(last), Removals(k), p + tail);
        RemovalsRun(p, tail, k);
        assert Kept(p, k) + [] == Kept(p, k);
      }
    }
  }

  lemma {:induction false} InsertionsRun<T>(front: seq<T>, rest: seq<T>, keep: seq<bool>, items: seq<T>)
    requires |keep| == |items| && |front| <= |keep|
    requires |rest| == |Kept(keep[|front|..], keep[|front|..])|
    ensures Run(front + rest, Insertions(keep, items, |front|))
         == Done(front + Weave(keep[|front|..], rest, items[|front|..]))
    decreases |keep| - |front|
  {
    var j := |front|;
    if j == |keep| {
      assert rest == [];
    } else {
      var x := if keep[j] then rest[0] else items[j];
      var rest1 := if keep[j] then rest[1..] else rest;
      assert keep[j..][1..] == keep[j + 1..] && items[j..][1..] == items[j + 1..];
      assert Weave(keep[j..], rest, items[j..]) == [x] + Weave(keep[j + 1..], rest1, items[j + 1..]);
      Associates(front, x, Weave(keep[j + 1..], rest1, items[j + 1..]));
      InsertionsRun(front + [x], rest1, keep, items);
      if keep[j] {
        Associates(front, x, rest1);
        assert rest == [x] + rest1;
        assert Insertions(keep, items, j) == Insertions(keep, items, j + 1);
      } else {
        InsertHere(front, rest, x);
        RunCons(front + rest, Insert(j, x), Insertions(keep, items, j + 1), front + [x] + rest1);
      }
    }
  }

  lemma RunCons<T>(s: seq<T>, e: Edit<T>, script: seq<Edit<T>>, s1: seq<T>)
    requires RunEdit(s, e) == Done(s1)
    ensures Run(s, [e] + script) == Run(s1, script)
  {
    assert ([e] + script)[1..] == script;
  }

  lemma Associates<T>(front: seq<T>, x: T, tail: seq<T>)
    ensures front + [x] + tail == front + ([x] + tail)
  {
  }

  lemma InsertHere<T>(front: seq<T>, rest: seq<T>, x: T)
    ensures RunEdit(front + rest, Insert(|front|, x)) == Done(front + [x] + rest)
  {
    var s := front + rest;
    assert s[..|front|] == front && s[|front|..] == rest;
  }

  /** What an array holds after the script ran. */
  function Rebuilt<K(==), T>(oldIds: seq<K>, curIds: seq<K>, prior: seq<T>, items: seq<T>): (r: seq<T>)
    requires |oldIds| == |prior| && |curIds| == |items|
    ensures |r| == |curIds|
  {
    MasksAgree(oldIds, curIds);
    var (keepOld, keepCur) := Masks(oldIds, curIds);
    KeptCount(oldIds, keepOld);
    KeptCount(curIds, keepCur);
    KeptCount(prior, keepOld);
    Weave(keepCur, Kept(prior, keepOld), items)
  }

  /** The script never leaves the bounds of the array and rebuilds it as `Rebuilt` says. */
  lemma ScriptRuns<K, T>(oldIds: seq<K>, curIds: seq<K>, prior: seq<T>, items: seq<T>)
    requires |oldIds| == |prior| && |curIds| == |items|
    ensures Run(prior, Script(oldIds, curIds, items)) == Done(Rebuilt(oldIds, curIds, prior, items))
  {
    MasksAgree(oldIds, curIds);
    var (keepOld, keepCur) := Masks(oldIds, curIds);
    KeptCount(oldIds, keepOld);
    KeptCount(curIds, keepCur);
    KeptCount(prior, keepOld);
    var kept := Kept(prior, keepOld);
    assert prior + [] == prior && kept + [] == kept && [] + kept == kept;
    RemovalsRun(prior, [], keepOld);
    assert keepCur[0..] == keepCur && items[0..] == items;
    InsertionsRun([], kept, keepCur, items);
    RunConcat(prior, Removals(keepOld), Insertions(keepCur, items, 0));
  }

  lemma {:induction false} WeaveAt<T>(keep: seq<bool>, kept: seq<T>, items: seq<T>)
    requires |keep| == |items| && |Kept(keep, keep)| == |kept|
    ensures Kept(Weave(keep, kept, items), keep) == kept
    ensures forall j | 0 <= j < |keep| && !keep[j] :: Weave(keep, kept, items)[j] == items[j]
  {
    if keep != [] {
      if keep[0] {
        WeaveAt(keep[1..], kept[1..], items[1..]);
        assert kept == [kept[0]] + kept[1..];
      } else {
        WeaveAt(keep[1..], kept, items[1..]);
      }
      var r := Weave(keep, kept, items);
      assert r[1..] == if keep[0] then Weave(keep[1..], kept[1..], items[1..]) else Weave(keep[1..], kept, items[1..]);
      forall j | 0 <= j < |keep| && !keep[j]
        ensures r[j] == items[j]
      {
        if j > 0 { assert !keep[1..][j - 1] && r[j] == r[1..][j - 1] && items[j] == items[1..][j - 1]; }
      }
    }
  }

  /** Kept positions hold the original elements in their original order; the others hold the new items. */
  lemma {:induction false} RebuiltKeepsOriginals<K, T>(oldIds: seq<K>, curIds: seq<K>, prior: seq<T>, items: seq<T>)
    requires |oldIds| == |prior| && |curIds| == |items|
    ensures var (keepOld, keepCur) := Masks(oldIds, curIds);
            Kept(Rebuilt(oldIds, curIds, prior, items), keepCur) == Kept(prior, keepOld)
    ensures forall j | 0 <= j < |items| && !Masks(oldIds, curIds).1[j] ::
            Rebuilt(oldIds, curIds, prior, items)[j] == items[j]
  {
    MasksAgree(oldIds, curIds);
    var (keepOld, keepCur) := Masks(oldIds, curIds);
    KeptCount(oldIds, keepOld);
    KeptCount(curIds, keepCur);
    KeptCount(prior, keepOld);
    WeaveAt(keepCur, Kept(prior, keepOld), items);
  }

  lemma {:induction false} KeptRelated<T, K>(s: seq<T>, ids: seq<K>, rel: (T, K) -> bool, mask: seq<bool>)
    requires |s| == |ids| == |mask| && forall i | 0 <= i < |s| :: rel(s[i], ids[i])
    ensures |Kept(s, mask)| == |Kept(ids, mask)|
    ensures forall i | 0 <= i < |Kept(s, mask)| :: rel(Kept(s, mask)[i], Kept(ids, mask)[i])
  {
    if s != [] {
      KeptRelated(s[1..], ids[1..], rel, mask[1..]);
    }
  }

  lemma {:induction false} WeaveRelated<T, K>(keep: seq<bool>, kept: seq<T>, items: seq<T>, rel: (T, K) -> bool,
                                              ids: seq<K>)
    requires |keep| == |items| == |ids| && |Kept(keep, keep)| == |kept|
    requires |Kept(ids, keep)| == |kept| && forall i | 0 <= i < |kept| :: rel(kept[i], Kept(ids, keep)[i])
    requires forall j | 0 <= j < |items| :: rel(items[j], ids[j])
    ensures forall j | 0 <= j < |ids| :: rel(Weave(keep, kept, items)[j], ids[j])
  {
    if keep != [] {
      var r := Weave(keep, kept, items);
      if keep[0] {
        forall i | 0 <= i < |kept[1..]| ensures rel(kept[1..][i], Kept(ids[1..], keep[1..])[i]) {
          assert Kept(ids, keep)[i + 1] == Kept(ids[1..], keep[1..])[i];
        }
        WeaveRelated(keep[1..], kept[1..], items[1..], rel, ids[1..]);
      } else {
        assert Kept(ids, keep) == Kept(ids[1..], keep[1..]);
        WeaveRelated(keep[1..], kept, items[1..], rel, ids[1..]);
      }
      forall j | 0 <= j < |ids| ensures rel(r[j], ids[j]) {
        if j > 0 { assert r[j] == r[1..][j - 1] && ids[j] == ids[1..][j - 1]; }
      }
    }
  }

  /** When rel ties an element to its identity, the rebuilt array has exactly the new identities. */
  lemma RebuiltIds<K, T>(oldIds: seq<K>, curIds: seq<K>, prior: seq<T>, items: seq<T>, rel: (T, K) -> bool)
    requires |oldIds| == |prior| && forall i | 0 <= i < |prior| :: rel(prior[i], oldIds[i])
    requires |curIds| == |items| && forall j | 0 <= j < |items| :: rel(items[j], curIds[j])
    ensures forall j | 0 <= j < |curIds| :: rel(Rebuilt(oldIds, curIds, prior, items)[j], curIds[j])
  {
    MasksAgree(oldIds, curIds);
    var (keepOld, keepCur) := Masks(oldIds, curIds);
    KeptCount(oldIds, keepOld);
    KeptCount(curIds, keepCur);
    KeptCount(prior, keepOld);
    KeptRelated(prior, oldIds, rel, keepOld);
    WeaveRelated(keepCur, Kept(prior, keepOld), items, rel, curIds);
  }

  lemma {:induction false} RemovalsOfAll<T>(keep: seq<bool>)
    requires forall i | 0 <= i < |keep| :: keep[i]
    ensures Removals<T>(keep) == []
  {
    if keep != [] { RemovalsOfAll<T>(keep[..|keep| - 1]); }
  }

  lemma {:induction false} InsertionsOfAll<T>(keep: seq<bool>, items: seq<T>, j: nat)
    requires |keep| == |items| && j <= |keep| && forall i | 0 <= i < |keep| :: keep[i]
    ensures Insertions(keep, items, j) == []
    decreases |keep| - j
  {
    if j < |keep| { InsertionsOfAll(keep, items, j + 1); }
  }

  /** Lists with the same identities need no edits. */
  lemma ScriptOfEqualLists<K, T>(ids: seq<K>, items: seq<T>)
    requires |ids| == |items|
    ensures Script(ids, ids, items) == []
  {
    EqualListsKeptWhole(ids);
    RemovalsOfAll<T>(Masks(ids, ids).0);
    InsertionsOfAll(Masks(ids, ids).1, items, 0);
  }

  // ---- no shorter script exists ----

  /** Taking any one element out of s changes the count by at most one, and never raises it. */
  lemma {:induction false} TakeOut<T>(s: seq<T>, i: nat, t: seq<T>)
    requires i < |s|
    ensures Length(s[..i] + s[i + 1..], t) <= Length(s, t) <= Length(s[..i] + s[i + 1..], t) + 1
    decreases |s| + |t|
  {
    var s1 := s[..i] + s[i + 1..];
    if i == 0 {
      assert s1 == s[1..];
      DropFirst(s, t);
    } else if t != [] {
      assert s1[1..] == s[1..][..i - 1] + s[1..][i..];
      assert s1[0] == s[0];
      if s[0] == t[0] {
        TakeOut(s[1..], i - 1, t[1..]);
      } else {
        TakeOut(s[1..], i - 1, t);
        TakeOut(s, i, t[1..]);
      }
    }
  }

  function Distance<T(==)>(s: seq<T>, t: seq<T>): int {
    |s| + |t| - 2 * Length(s, t)
  }

  lemma {:induction false} DistanceToSelf<T>(s: seq<T>)
    ensures Distance(s, s) == 0
  {
    if s != [] { DistanceToSelf(s[1..]); }
  }

  lemma {:induction false} ScriptsAreLong<T>(s: seq<T>, t: seq<T>, script: seq<Edit<T>>)
    requires Run(s, script) == Done(t)
    ensures |script| >= Distance(s, t)
    decreases |script|
  {
    if script == [] {
      DistanceToSelf(s);
    } else {
      var s1 := RunEdit(s, script[0]).list;
      ScriptsAreLong(s1, t, script[1..]);
      match script[0]
      case Remove(i) => TakeOut(s, i, t);
      case Insert(i, x) =>
        assert s1[..i] + s1[i + 1..] == s;
        TakeOut(s1, i, t);
    }
  }

  lemma {:induction false} RemovalsLength<T>(keep: seq<bool>)
    ensures |Removals<T>(keep)| == |keep| - |Kept(keep, keep)|
  {
    if keep != [] {
      var last := |keep| - 1;
      RemovalsLength<T>(keep[..last]);
      assert keep == keep[..last] + [keep[last]];
      KeptAppend(keep[..last], keep[last], keep[..last], keep[last]);
    }
  }

  lemma {:induction false} InsertionsLength<T>(keep: seq<bool>, items: seq<T>, j: nat)
    requires |keep| == |items| && j <= |keep|
    ensures |Insertions(keep, items, j)| == |keep| - j - |Kept(keep[j..], keep[j..])|
    decreases |keep| - j
  {
    if j < |keep| {
      assert keep[j..][1..] == keep[j + 1..];
      InsertionsLength(keep, items, j + 1);
    }
  }

  /** No script of single removes and inserts that turns the old list into the new one is shorter. */
  lemma {:induction false} ScriptIsShortest<T>(prior: seq<T>, cur: seq<T>, other: seq<Edit<T>>)
    requires Run(prior, other) == Done(cur)
    ensures Run(prior, Script(prior, cur, cur)) == Done(cur)
    ensures |Script(prior, cur, cur)| == Distance(prior, cur) <= |other|
  {
    ScriptRuns(prior, cur, prior, cur);
    RebuiltIds(prior, cur, prior, cur, (x, y) => x == y);
    assert Rebuilt(prior, cur, prior, cur) == cur;
    MasksAgree(prior, cur);
    var (keepOld, keepCur) := Masks(prior, cur);
    KeptCount(prior, keepOld);
    KeptCount(cur, keepCur);
    RemovalsLength<T>(keepOld);
    assert keepCur[0..] == keepCur;
    InsertionsLength(keepCur, cur, 0);
    ScriptsAreLong(prior, cur, other);
  }
}

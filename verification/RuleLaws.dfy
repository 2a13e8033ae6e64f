/** What a rebase of the rule list keeps (frontend/src/pages/acls/model.ts). */
module RuleLaws {
  import opened Base
  import opened Text
  import opened Records
  import opened DraftModel
  import opened RuleMerge

  /** Every rule has a nonempty id, and rules with one id read the same: a policy may list a rule twice. */
  ghost predicate ProperIds(rules: seq<ModelRule>) {
    "" !in Ids(rules) && forall a, b | a in rules && b in rules && a.id == b.id :: a == b
  }

  // ---- lookups by id ----

  function IdEntries(rules: seq<ModelRule>): (r: Entries<string, ModelRule>)
    ensures |r| == |rules| && forall i | 0 <= i < |r| :: r[i] == (rules[i].id, rules[i])
  {
    seq(|rules|, i requires 0 <= i < |rules| => (rules[i].id, rules[i]))
  }

  lemma ByIdKeys(rules: seq<ModelRule>, id: string)
    ensures Get(ById(rules), id).Some? <==> id in Ids(rules)
  {
    assert ById(rules) == FromEntries(IdEntries(rules)) && KeysOf(IdEntries(rules)) == Ids(rules);
    FromEntriesSize(IdEntries(rules));
    GetKeys(ById(rules), id);
  }

  lemma {:induction false} GetIsEntry<V>(r: Entries<string, V>, k: string)
    requires Get(r, k).Some?
    ensures (k, Get(r, k).value) in r
  {
    if r[0].0 != k { GetIsEntry(r[1..], k); }
  }

  lemma ByIdHolds(rules: seq<ModelRule>, id: string)
    ensures var r := Get(ById(rules), id); r.Some? ==> r.value in rules && r.value.id == id
  {
    hide Get, FromEntries;
    var entries := IdEntries(rules);
    assert ById(rules) == FromEntries(entries);
    if Get(ById(rules), id).Some? {
      var e := (id, Get(ById(rules), id).value);
      GetIsEntry(ById(rules), id);
      FromEntriesValues(entries, e);
      var i :| 0 <= i < |entries| && entries[i] == e;
    }
  }

  lemma ByIdFinds(rules: seq<ModelRule>, j: nat)
    requires ProperIds(rules) && j < |rules|
    ensures Get(ById(rules), rules[j].id) == Some(rules[j])
  {
    hide ById, Get;
    assert Ids(rules)[j] == rules[j].id && rules[j] in rules;
    ByIdKeys(rules, rules[j].id);
    ByIdHolds(rules, rules[j].id);
  }

  // ---- the kept rules ----

  lemma {:induction false} KeptIds(server: seq<ModelRule>, removed: set<string>, changed: RuleMap, n: nat)
    requires n <= |server| && ProperIds(server)
    ensures MyIds(KeptRules(server, removed, changed, n)) == (set id | id in Ids(server[..n]) && id !in removed)
  {
    hide ById, ProperIds, Merged, MyIds;
    if n == 0 {
      assert Ids(server[..0]) == [];
      NoIds();
    } else {
      var j := n - 1;
      KeptIds(server, removed, changed, j);
      assert Ids(server[..n]) == Ids(server[..j]) + [server[j].id];
      var before := KeptRules(server, removed, changed, j);
      MergedTwin(server, changed, j);
      MyIdsStep(before, Merged(server, changed, j));
      assert before + [] == before;
    }
  }

  /** No kept rule counts as added. */
  lemma {:induction false} KeptAreNotAdded(server: seq<ModelRule>, removed: set<string>, changed: RuleMap, n: nat)
    requires n <= |server| && ProperIds(server)
    ensures AddedRules(ById(server), KeptRules(server, removed, changed, n)) == []
  {
    hide ById, ProperIds, Merged, Where;
    var lone := (r: DraftRule) => Twin(ById(server), r).None?;
    if n == 0 {
      WhereOfNothing(lone);
    } else {
      KeptAreNotAdded(server, removed, changed, n - 1);
      MergedTwin(server, changed, n - 1);
      var before := KeptRules(server, removed, changed, n - 1);
      var r := Merged(server, changed, n - 1);
      assert before + [] == before;
      WhereAppend(before, r, lone);
    }
  }

  lemma NoIds()
    ensures MyIds([]) == {}
  {
  }

  lemma MyIdsStep(rules: seq<DraftRule>, r: DraftRule)
    ensures MyIds(rules + [r]) == MyIds(rules) + if r.OnServer() then {r.serverId.value} else {}
  {
  }

  lemma MergedTwin(server: seq<ModelRule>, changed: RuleMap, j: nat)
    requires j < |server| && ProperIds(server)
    ensures var r := Merged(server, changed, j);
            r.OnServer() && r.serverId.value == server[j].id && Twin(ById(server), r) == Some(server[j])
    ensures var e := if server[j].id in Ids(server[..j]) then None else Get(changed, server[j].id);
            Merged(server, changed, j).text == if e.Some? then e.value.text else server[j].text
  {
    hide ById, Get;
    assert server[j].id == Ids(server)[j] && server[j].id in Ids(server);
    ByIdFinds(server, j);
  }

  /** The kept rules that differ from the server's are reported under their ids, each once. */
  lemma {:induction false} KeptChangesRecord(server: seq<ModelRule>, removed: set<string>, changed: RuleMap, n: nat,
                                             x: string)
    requires n <= |server| && ProperIds(server)
    ensures var entries := ChangeEntries(ChangedRules(ById(server), KeptRules(server, removed, changed, n)));
            IsRecord(entries) && (x in KeysOf(entries) ==> x in Ids(server[..n]) && x !in removed)
  {
    hide ById, ProperIds, Merged, IsRecord, Get, KeysOf, ChangedRules, KeptRules;
    if n == 0 {
      NothingIn("");
      NoChanges(server, removed, changed);
    } else {
      var j := n - 1;
      var id := server[j].id;
      KeptChangesRecord(server, removed, changed, j, x);
      KeptChangesRecord(server, removed, changed, j, id);
      assert Ids(server[..n]) == Ids(server[..j]) + [id];
      KeptChangesStep(server, removed, changed, j);
      var entries := ChangeEntries(ChangedRules(ById(server), KeptRules(server, removed, changed, j)));
      assert entries + [] == entries;
      AppendEntry(entries, (id, Merged(server, changed, j)), x);
    }
  }

  /** The first copy of a rule is reported when it differs. */
  lemma {:induction false} KeptChange(server: seq<ModelRule>, removed: set<string>, changed: RuleMap, n: nat, i: nat)
    requires i < n <= |server| && ProperIds(server) && server[i].id !in removed
    requires server[i].id !in Ids(server[..i])
    ensures Get(ChangeEntries(ChangedRules(ById(server), KeptRules(server, removed, changed, n))), server[i].id) ==
            if Merged(server, changed, i).text != server[i].text then Some(Merged(server, changed, i)) else None
  {
    hide ById, ProperIds, Merged, IsRecord, Get, KeysOf, ChangedRules, KeptRules;
    var j := n - 1;
    var id := server[j].id;
    KeptChangesStep(server, removed, changed, j);
    var entries := ChangeEntries(ChangedRules(ById(server), KeptRules(server, removed, changed, j)));
    assert entries + [] == entries;
    KeptChangesRecord(server, removed, changed, j, id);
    AppendEntry(entries, (id, Merged(server, changed, j)), server[i].id);
    GetKeys(entries, id);
    if i < j {
      KeptChange(server, removed, changed, j, i);
      assert server[i].id == Ids(server[..j])[i];
    }
  }

  // ---- counting edits ----

  /** The recorded edit still has to be made: its server rule is gone, is removed, or does not read like it yet. */
  predicate StillToMake(server: seq<ModelRule>, seen: seq<string>, removed: set<string>, e: (string, DraftRule)) {
    e.0 !in seen || e.0 in removed || LooksOther(server, e)
  }

  predicate LooksOther(server: seq<ModelRule>, e: (string, DraftRule)) {
    var twin := Get(ById(server), e.0); twin.Some? && twin.value.text != e.1.text
  }

  /** The edits the server has not already made. */
  function EditsLeft(server: seq<ModelRule>, removed: set<string>, changed: RuleMap): RuleMap {
    Where(changed, (e: (string, DraftRule)) => StillToMake(server, Ids(server), removed, e))
  }

  /** Every edit still to make is reported as a change or waits. */
  lemma {:induction false} ChangesAndWaiting(server: seq<ModelRule>, removed: set<string>, changed: RuleMap, n: nat)
    requires n <= |server| && ProperIds(server) && IsRecord(changed)
    ensures |ChangedRules(ById(server), KeptRules(server, removed, changed, n))| +
            |Waiting(changed, removed, Ids(server[..n]))| ==
            |Where(changed, (e: (string, DraftRule)) => StillToMake(server, Ids(server[..n]), removed, e))|
  {
    hide ById, ProperIds, Merged, IsRecord, Get, Waiting, ChangedRules, KeptRules, ChangeEntries, LooksOther;
    if n == 0 {
      assert Ids(server[..0]) == [];
      AllWaiting(changed, removed);
      NoChanges(server, removed, changed);
      WhereAll(changed, (e: (string, DraftRule)) => StillToMake(server, [], removed, e));
    } else {
      var j := n - 1;
      var id, seen := server[j].id, Ids(server[..j]);
      ChangesAndWaiting(server, removed, changed, j);
      assert Ids(server[..n]) == seen + [id];
      KeptChangesStep(server, removed, changed, j);
      WaitingStepCount(changed, removed, seen, id);
      EditsStep(server, seen, removed, changed, id);
      MergedTwin(server, changed, j);
      ByIdFinds(server, j);
      if Get(changed, id).Some? { LooksLike(server, (id, Get(changed, id).value), server[j]); }
    }
  }

  lemma LooksLike(server: seq<ModelRule>, e: (string, DraftRule), twin: ModelRule)
    requires Get(ById(server), e.0) == Some(twin)
    ensures LooksOther(server, e) <==> twin.text != e.1.text
  {
  }

  /** Passing one more server rule settles its edit, unless that is still to make. */
  lemma EditsStep(server: seq<ModelRule>, seen: seq<string>, removed: set<string>, changed: RuleMap, id: string)
    requires IsRecord(changed)
    ensures var e := Get(changed, id);
            |Where(changed, (e: (string, DraftRule)) => StillToMake(server, seen + [id], removed, e))| +
            (if id !in seen && id !in removed && e.Some? && !LooksOther(server, (id, e.value)) then 1 else 0) ==
            |Where(changed, (e: (string, DraftRule)) => StillToMake(server, seen, removed, e))|
  {
    hide IsRecord, Get, LooksOther;
    var p := (e: (string, DraftRule)) => StillToMake(server, seen, removed, e);
    var q := (e: (string, DraftRule)) => StillToMake(server, seen + [id], removed, e);
    WhereBut(changed, p, q, id);
  }

  lemma {:induction false} WhereBut(r: RuleMap, p: ((string, DraftRule)) -> bool, q: ((string, DraftRule)) -> bool,
                                    id: string)
    requires IsRecord(r) && forall e | e in r && e.0 != id :: p(e) <==> q(e)
    ensures var v := Get(r, id);
            |Where(r, q)| + (if v.Some? && p((id, v.value)) then 1 else 0) ==
            |Where(r, p)| + if v.Some? && q((id, v.value)) then 1 else 0
  {
    hide IsRecord, KeysOf, Get;
    if r == [] {
      NothingIn(id);
    } else {
      var init, last := r[..|r| - 1], r[|r| - 1];
      assert r == init + [last];
      AppendEntry(init, last, id);
      WhereBut(init, p, q, id);
      GetKeys(init, id);
    }
  }

  lemma NoChanges(server: seq<ModelRule>, removed: set<string>, changed: RuleMap)
    ensures ChangedRules(ById(server), KeptRules(server, removed, changed, 0)) == [] && ChangeEntries([]) == []
  {
  }

  lemma IdNotEmpty(server: seq<ModelRule>, j: nat)
    requires j < |server| && ProperIds(server)
    ensures server[j].id != ""
  {
    assert server[j].id == Ids(server)[j];
  }

  lemma KeptChangesStep(server: seq<ModelRule>, removed: set<string>, changed: RuleMap, j: nat)
    requires j < |server| && ProperIds(server)
    ensures var before := ChangedRules(ById(server), KeptRules(server, removed, changed, j));
            var after := ChangedRules(ById(server), KeptRules(server, removed, changed, j + 1));
            var r := Merged(server, changed, j);
            var differs := server[j].id !in removed && r.text != server[j].text;
            after == before + (if differs then [RuleChange(server[j], r)] else []) &&
            ChangeEntries(after) == ChangeEntries(before) + (if differs then [(server[j].id, r)] else []) &&
            (differs ==> server[j].id !in Ids(server[..j]) && Get(changed, server[j].id).Some?) &&
            (server[j].id !in Ids(server[..j]) && Get(changed, server[j].id).Some? ==>
               r.text == Get(changed, server[j].id).value.text)
  {
    hide ById, ProperIds, Merged, Get;
    MergedTwin(server, changed, j);
    var kept := KeptRules(server, removed, changed, j);
    var r := Merged(server, changed, j);
    assert (kept + [r])[..|kept|] == kept && kept + [] == kept;
  }

  /** Passing a kept server rule takes its edit off the waiting list. */
  lemma WaitingStepCount(changed: RuleMap, removed: set<string>, seen: seq<string>, id: string)
    requires IsRecord(changed)
    ensures |Waiting(changed, removed, seen + [id])| +
            (if id !in seen && id !in removed && Get(changed, id).Some? then 1 else 0) ==
            |Waiting(changed, removed, seen)|
  {
    hide IsRecord, Get, Waiting, Delete;
    WaitingStep(changed, removed, seen, id);
    GetWaiting(changed, removed, seen, id);
    DeleteLength(Waiting(changed, removed, seen), id);
  }

  lemma {:induction false} DeleteLength(r: RuleMap, id: string)
    ensures |Delete(r, id)| + (if Get(r, id).Some? then 1 else 0) == |r|
  {
    if r != [] { DeleteLength(r[1..], id); }
  }

  // ---- the summary of a rebased list ----

  predicate AllUnlinked(rules: seq<DraftRule>) { forall r | r in rules :: r.serverId.None? }

  lemma {:induction false} ChangedConcat(byId: Entries<string, ModelRule>, a: seq<DraftRule>, b: seq<DraftRule>)
    ensures ChangedRules(byId, a + b) == ChangedRules(byId, a) + ChangedRules(byId, b)
  {
    hide Twin;
    if b == [] {
      assert a + b == a;
    } else {
      ChangedConcat(byId, a, b[..|b| - 1]);
      assert (a + b)[..|a + b| - 1] == a + b[..|b| - 1];
    }
  }

  lemma {:induction false} UnlinkedChangeNothing(byId: Entries<string, ModelRule>, rules: seq<DraftRule>)
    requires AllUnlinked(rules)
    ensures ChangedRules(byId, rules) == [] && AddedRules(byId, rules) == rules && MyIds(rules) == {}
  {
    WhereAll(rules, (r: DraftRule) => Twin(byId, r).None?);
    if rules != [] {
      assert rules[|rules| - 1] in rules && forall r | r in rules[..|rules| - 1] :: r in rules;
      UnlinkedChangeNothing(byId, rules[..|rules| - 1]);
    }
  }

  lemma MyIdsConcat(a: seq<DraftRule>, b: seq<DraftRule>)
    ensures MyIds(a + b) == MyIds(a) + MyIds(b)
  {
  }

  /** The rules of a rebased list that stand alone: orphaned edits and the user's own rules. */
  function Alone(server: seq<ModelRule>, ch: RuleChanges, keys: nat -> string): (r: seq<DraftRule>)
    ensures AllUnlinked(r)
  {
    Orphans(Waiting(ChangedMap(ch), RemovedIds(ch), Ids(server)), keys) + Unlinked(ch.added)
  }

  lemma RebasedRules(server: seq<ModelRule>, ch: RuleChanges, keys: nat -> string)
    requires ProperIds(server)
    ensures var kept := KeptRules(server, RemovedIds(ch), ChangedMap(ch), |server|);
            var alone := Alone(server, ch, keys);
            var again := DiffRules(server, RebaseRules(server, ch, keys));
            RebaseRules(server, ch, keys) == kept + alone &&
            again.added == alone && again.changed == ChangedRules(ById(server), kept) &&
            again.removed == Where(server, (r: ModelRule) => r.id in RemovedIds(ch))
  {
    hide ById, ProperIds, KeptRules, MyIds, RemovedIds, ChangedMap, ChangedRules, Alone, Twin;
    var removed, changed := RemovedIds(ch), ChangedMap(ch);
    var kept := KeptRules(server, removed, changed, |server|);
    var alone := Alone(server, ch, keys);
    SplitRebase(server, ch, keys);
    KeptIds(server, removed, changed, |server|);
    KeptAreNotAdded(server, removed, changed, |server|);
    UnlinkedChangeNothing(ById(server), alone);
    ChangedConcat(ById(server), kept, alone);
    MyIdsConcat(kept, alone);
    WhereConcat(kept, alone, (r: DraftRule) => Twin(ById(server), r).None?);
    var ids := MyIds(kept + alone);
    assert server[..|server|] == server;
    forall r | r in server ensures r.id !in ids <==> r.id in removed { IdIsListed(server, r); }
    WhereSame(server, (r: ModelRule) => r.id !in ids, (r: ModelRule) => r.id in removed);
  }

  lemma {:induction false} SplitRebase(server: seq<ModelRule>, ch: RuleChanges, keys: nat -> string)
    ensures RebaseRules(server, ch, keys) ==
            KeptRules(server, RemovedIds(ch), ChangedMap(ch), |server|) + Alone(server, ch, keys)
  {
    hide KeptRules, Waiting, RemovedIds, ChangedMap;
    var kept := KeptRules(server, RemovedIds(ch), ChangedMap(ch), |server|);
    var orphans := Orphans(Waiting(ChangedMap(ch), RemovedIds(ch), Ids(server)), keys);
    assert kept + orphans + Unlinked(ch.added) == kept + (orphans + Unlinked(ch.added));
  }

  lemma IdIsListed(server: seq<ModelRule>, r: ModelRule)
    requires r in server
    ensures r.id in Ids(server)
  {
    var i :| 0 <= i < |server| && server[i] == r;
    assert Ids(server)[i] == r.id;
  }

  // ---- counting ----

  lemma {:induction false} RemovedAtMost(server: seq<ModelRule>, removed: set<string>)
    requires Distinct(Ids(server))
    ensures |Where(server, (r: ModelRule) => r.id in removed)| <= |removed|
  {
    if server != [] {
      var init, last := server[..|server| - 1], server[|server| - 1];
      assert server == init + [last] && Ids(server) == Ids(init) + [last.id];
      DistinctLast(Ids(init), last.id);
      if last.id in removed {
        var fewer := removed - {last.id};
        RemovedAtMost(init, fewer);
        forall r | r in init ensures r.id in removed <==> r.id in fewer { IdIsListed(init, r); }
        WhereSame(init, (r: ModelRule) => r.id in removed, (r: ModelRule) => r.id in fewer);
      } else {
        RemovedAtMost(init, removed);
      }
    }
  }

  lemma {:induction false} IdSetSize(rules: seq<ModelRule>)
    ensures |set r | r in rules :: r.id| <= |rules|
  {
    if rules != [] {
      var init, last := rules[..|rules| - 1], rules[|rules| - 1];
      assert rules == init + [last];
      IdSetSize(init);
      assert (set r | r in rules :: r.id) == (set r | r in init :: r.id) + {last.id};
    }
  }

  /** The server's rules with the given ids, copies included. */
  function Copies(server: seq<ModelRule>, ids: set<string>): seq<ModelRule> {
    Where(server, (r: ModelRule) => r.id in ids)
  }

  /** What a rebased rule list shows against the new server model: the user's own rules, every copy of a removed
      rule, and the edits the server has not made. So it shows no more than before exactly when the last two are no
      more than the rules removed and changed. */
  lemma RuleCount(server: seq<ModelRule>, ch: RuleChanges, keys: nat -> string)
    requires ProperIds(server)
    ensures var after := DiffRules(server, RebaseRules(server, ch, keys)).Count();
            var copies, edits := |Copies(server, RemovedIds(ch))|, |EditsLeft(server, RemovedIds(ch), ChangedMap(ch))|;
            && after == |ch.added| + copies + edits
            && (after <= ch.Count() <==> copies + edits <= |ch.removed| + |ch.changed|)
            && edits <= |ch.changed|
  {
    hide ById, KeptRules, MyIds, ChangedRules, DiffRules, RebaseRules, Twin, Waiting, FromEntries, StillToMake;
    var removed, changed := RemovedIds(ch), ChangedMap(ch);
    RebasedRules(server, ch, keys);
    FromEntriesSize(ChangeEntries(ch.changed));
    ChangesAndWaiting(server, removed, changed, |server|);
    assert server[..|server|] == server;
    WhereFewer(changed, (e: (string, DraftRule)) => StillToMake(server, Ids(server), removed, e));
  }

  lemma {:induction false} WhereFewer(r: RuleMap, p: ((string, DraftRule)) -> bool)
    ensures |Where(r, p)| <= |r|
  {
    if r != [] { WhereFewer(r[..|r| - 1], p); }
  }

  /** A server that lists no rule twice never makes the number of changes rise. */
  lemma DistinctNeverRises(server: seq<ModelRule>, ch: RuleChanges)
    requires Distinct(Ids(server))
    ensures |Copies(server, RemovedIds(ch))| <= |ch.removed|
  {
    RemovedAtMost(server, RemovedIds(ch));
    IdSetSize(ch.removed);
  }

  /** A rule that the user removed and the server now lists twice: one change before the rebase, two after. */
  lemma RepeatedRuleRaises(x: ModelRule, keys: nat -> string)
    requires x.id != ""
    ensures var ch := DiffRules([x], []);
            ch.Count() == 1 && DiffRules([x, x], RebaseRules([x, x], ch, keys)).Count() == 2
  {
    hide ById, RebaseRules, DiffRules, EditsLeft, Copies, RemovedIds;
    OneRemoved(x);
    var ch := RuleChanges([], [x], []);
    TwoCopies(x);
    TwoProper(x);
    RuleCount([x, x], ch, keys);
  }

  lemma TwoProper(x: ModelRule)
    requires x.id != ""
    ensures ProperIds([x, x])
  {
    assert Ids([x, x]) == [x.id, x.id];
  }

  lemma TwoCopies(x: ModelRule)
    ensures Copies([x, x], RemovedIds(RuleChanges([], [x], []))) == [x, x]
  {
    var ch := RuleChanges([], [x], []);
    assert x in ch.removed && RemovedIds(ch) == {x.id};
    WhereAll([x, x], (r: ModelRule) => r.id in RemovedIds(ch));
  }

  lemma OneRemoved(x: ModelRule)
    ensures DiffRules([x], []) == RuleChanges([], [x], [])
  {
    hide ById;
    NoIds();
    WhereOfNothing((r: DraftRule) => Twin(ById([x]), r).None?);
    WhereAll([x], (r: ModelRule) => r.id !in MyIds([]));
  }

  // ---- rebasing again ----

  lemma {:induction false} SameKept(server: seq<ModelRule>, removed: set<string>, changed: RuleMap,
                                    removed2: set<string>, n: nat)
    requires n <= |server| && ProperIds(server)
    requires forall r | r in server :: r.id in removed2 <==> r.id in removed
    ensures var changed2 :=
            FromEntries(ChangeEntries(ChangedRules(ById(server), KeptRules(server, removed, changed, |server|))));
            KeptRules(server, removed2, changed2, n) == KeptRules(server, removed, changed, n)
  {
    hide ById, ProperIds, IsRecord, Get, ChangedRules, ChangeEntries, Merged, FromEntries;
    if n > 0 {
      var j := n - 1;
      var entries := ChangeEntries(ChangedRules(ById(server), KeptRules(server, removed, changed, |server|)));
      SameKept(server, removed, changed, removed2, j);
      KeptChangesRecord(server, removed, changed, |server|, "");
      FromDistinctEntries(entries);
      assert server[j] in server;
      if server[j].id !in removed && server[j].id !in Ids(server[..j]) {
        KeptChange(server, removed, changed, |server|, j);
        MergedTwin(server, changed, j);
        MergedTwin(server, entries, j);
      } else if server[j].id !in removed {
        MergedTwin(server, changed, j);
        MergedTwin(server, entries, j);
      }
      MergedShape(server, changed, j);
      MergedShape(server, entries, j);
    }
  }

  lemma MergedShape(server: seq<ModelRule>, changed: RuleMap, j: nat)
    requires j < |server|
    ensures Merged(server, changed, j) == DraftRule(server[j].id, Some(server[j].id), Merged(server, changed, j).text)
  {
  }

  /** Rebasing the rebased rules onto the same server rules gives them back. */
  lemma RulesAgain(server: seq<ModelRule>, ch: RuleChanges, keys: nat -> string, keys2: nat -> string)
    requires ProperIds(server)
    ensures var out := RebaseRules(server, ch, keys);
            RebaseRules(server, DiffRules(server, out), keys2) == out
  {
    hide ById, ProperIds, KeptRules, MyIds, ChangedRules, DiffRules, RebaseRules, Twin, FromEntries, Alone, Waiting,
         Get, IsRecord, KeysOf, RemovedIds;
    var removed, changed := RemovedIds(ch), ChangedMap(ch);
    var out := RebaseRules(server, ch, keys);
    var again := DiffRules(server, out);
    RebasedRules(server, ch, keys);
    var removed2, changed2 := RemovedIds(again), ChangedMap(again);
    var entries := ChangeEntries(again.changed);
    SameRemoved(server, removed, again);
    SameKept(server, removed, changed, removed2, |server|);
    KeptChangesRecord(server, removed, changed, |server|, "");
    FromDistinctEntries(entries);
    assert changed2 == entries;
    assert server[..|server|] == server;
    forall e | e in entries ensures e.0 in Ids(server) && e.0 !in removed2 {
      KeptChangesRecord(server, removed, changed, |server|, e.0);
      GetEntry(entries, e);
      GetKeys(entries, e.0);
      ListedIsRule(server, e.0);
    }
    NoneWaiting(server, removed2, entries);
    SplitRebase(server, again, keys2);
    var alone := Alone(server, ch, keys);
    AloneAgain(server, again, alone, keys2);
  }

  lemma NoneWaiting(server: seq<ModelRule>, removed: set<string>, entries: RuleMap)
    requires forall e | e in entries :: e.0 in Ids(server) && e.0 !in removed
    ensures Waiting(entries, removed, Ids(server)) == []
  {
    WhereNothing(entries, (e: (string, DraftRule)) => e.0 !in Ids(server) || e.0 in removed);
  }

  lemma AloneAgain(server: seq<ModelRule>, again: RuleChanges, alone: seq<DraftRule>, keys: nat -> string)
    requires again.added == alone && AllUnlinked(alone) &&
             Waiting(ChangedMap(again), RemovedIds(again), Ids(server)) == []
    ensures Alone(server, again, keys) == alone
  {
    hide Waiting, ChangedMap, RemovedIds;
    forall i | 0 <= i < |alone| ensures alone[i].(serverId := None) == alone[i] { assert alone[i] in alone; }
    assert Unlinked(alone) == alone && Orphans([], keys) == [];
    assert [] + alone == alone;
  }

  lemma SameRemoved(server: seq<ModelRule>, removed: set<string>, again: RuleChanges)
    requires again.removed == Where(server, (r: ModelRule) => r.id in removed)
    ensures forall r | r in server :: r.id in RemovedIds(again) <==> r.id in removed
  {
    forall r | r in server && r.id in removed ensures r.id in RemovedIds(again) { assert r in again.removed; }
  }

  lemma ListedIsRule(server: seq<ModelRule>, id: string)
    requires id in Ids(server)
    ensures exists r :: r in server && r.id == id
  {
    var i :| 0 <= i < |server| && Ids(server)[i] == id;
    assert server[i] in server;
  }

  // ---- the three-way law ----

  /** The texts of the rules that stand for a server rule, in order. */
  function LinkedTexts(rules: seq<DraftRule>, id: string): seq<RuleText> {
    if rules == [] then []
    else
      var last := rules[|rules| - 1];
      LinkedTexts(rules[..|rules| - 1], id) + if last.OnServer() && last.serverId.value == id then [last.text] else []
  }

  /** The last of some texts that is not the given one. */
  function LastOther(texts: seq<RuleText>, t: RuleText): Option<RuleText> {
    if texts == [] then None
    else if texts[|texts| - 1] != t then Some(texts[|texts| - 1])
    else LastOther(texts[..|texts| - 1], t)
  }

  lemma {:induction false} LinkedIsMine(rules: seq<DraftRule>, id: string)
    requires id != ""
    ensures LinkedTexts(rules, id) != [] <==> id in MyIds(rules)
  {
    if rules != [] {
      var init, last := rules[..|rules| - 1], rules[|rules| - 1];
      assert rules == init + [last];
      LinkedIsMine(init, id);
      MyIdsStep(init, last);
    } else {
      NoIds();
    }
  }

  lemma {:induction false} LinkedConcat(a: seq<DraftRule>, b: seq<DraftRule>, id: string)
    requires AllUnlinked(b)
    ensures LinkedTexts(a + b, id) == LinkedTexts(a, id)
  {
    if b == [] {
      assert a + b == a;
    } else {
      assert b[|b| - 1] in b && forall r | r in b[..|b| - 1] :: r in b;
      LinkedConcat(a, b[..|b| - 1], id);
      assert (a + b)[..|a + b| - 1] == a + b[..|b| - 1];
    }
  }

  /** A text, and then another one as often as there are further copies. */
  function CopyTexts(first: RuleText, other: RuleText, copies: nat): seq<RuleText> {
    if copies == 0 then [] else [first] + seq(copies - 1, _ => other)
  }

  lemma CopyStep(first: RuleText, other: RuleText, copies: nat)
    ensures CopyTexts(first, other, copies + 1) ==
            CopyTexts(first, other, copies) + [if copies == 0 then first else other]
  {
  }

  lemma KeptTextsStep(server: seq<ModelRule>, removed: set<string>, changed: RuleMap, k: nat, id: string)
    requires k < |server| && ProperIds(server)
    ensures LinkedTexts(KeptRules(server, removed, changed, k + 1), id) ==
            LinkedTexts(KeptRules(server, removed, changed, k), id) +
            if server[k].id == id && id !in removed then [Merged(server, changed, k).text] else []
  {
    hide ById, Merged, Get, ProperIds;
    var before, r := KeptRules(server, removed, changed, k), Merged(server, changed, k);
    MergedTwin(server, changed, k);
    assert (before + [r])[..|before|] == before && before + [] == before;
    var texts := LinkedTexts(before, id);
    assert texts + [] == texts;
  }

  lemma CopiesStep(server: seq<ModelRule>, k: nat, id: string)
    requires k < |server|
    ensures |Copies(server[..k + 1], {id})| == |Copies(server[..k], {id})| + if server[k].id == id then 1 else 0
    ensures Ids(server[..k + 1]) == Ids(server[..k]) + [server[k].id]
  {
    assert server[..k + 1] == server[..k] + [server[k]];
    WhereAppend(server[..k], server[k], (r: ModelRule) => r.id in {id});
  }

  /** Among the kept rules the first copy of a rule carries its edit, the others are the server's. */
  lemma {:induction false} KeptTexts(server: seq<ModelRule>, removed: set<string>, changed: RuleMap, n: nat, j: nat)
    requires n <= |server| && j < |server| && ProperIds(server)
    ensures var id := server[j].id;
            var e := Get(changed, id);
            LinkedTexts(KeptRules(server, removed, changed, n), id) ==
            (if id in removed then []
             else CopyTexts(if e.Some? then e.value.text else server[j].text, server[j].text,
                            |Copies(server[..n], {id})|)) &&
            (|Copies(server[..n], {id})| == 0 <==> id !in Ids(server[..n]))
  {
    hide ById, Merged, Get, CopyTexts, LinkedTexts, KeptRules, Copies;
    var id := server[j].id;
    var first := if Get(changed, id).Some? then Get(changed, id).value.text else server[j].text;
    if n == 0 {
      NothingKept(server, removed, changed, id);
      NoCopies(first, server[j].text);
    } else {
      var k := n - 1;
      KeptTexts(server, removed, changed, k, j);
      KeptTextsStep(server, removed, changed, k, id);
      CopiesStep(server, k, id);
      MergedTwin(server, changed, k);
      if server[k].id == id {
        assert server[k] in server && server[j] in server;
        CopyStep(first, server[j].text, |Copies(server[..k], {id})|);
      }
    }
  }

  lemma NothingKept(server: seq<ModelRule>, removed: set<string>, changed: RuleMap, id: string)
    ensures LinkedTexts(KeptRules(server, removed, changed, 0), id) == []
    ensures Copies(server[..0], {id}) == [] && Ids(server[..0]) == []
  {
    WhereOfNothing((r: ModelRule) => r.id in {id});
    assert server[..0] == [];
  }

  lemma NoCopies(first: RuleText, other: RuleText)
    ensures CopyTexts(first, other, 0) == []
  {
  }

  /** The edit recorded for a base rule is the last of the draft's texts for it that differs. */
  lemma {:induction false} EditOf(base: seq<ModelRule>, mine: seq<DraftRule>, id: string)
    requires id != ""
    ensures var e := Get(FromEntries(ChangeEntries(ChangedRules(ById(base), mine))), id);
            var b := Get(ById(base), id);
            var t := if b.Some? then LastOther(LinkedTexts(mine, id), b.value.text) else None;
            if t.Some? then e.Some? && e.value.text == t.value else e.None?
  {
    hide ById, Get, MyIds, Put, LinkedTexts, LastOther, FromEntries, ChangeEntries;
    if mine == [] {
      NothingIn(id);
      NoEdit(id);
    } else {
      var init, last := mine[..|mine| - 1], mine[|mine| - 1];
      assert mine == init + [last];
      EditOf(base, init, id);
      var before := ChangedRules(ById(base), init);
      var twin := Twin(ById(base), last);
      LinkedStep(init, last, id);
      LastOtherStep(LinkedTexts(init, id), last.text);
      if twin.Some? && twin.value.text != last.text {
        var change := RuleChange(twin.value, last);
        EntriesStep(before, change);
        GetPut(FromEntries(ChangeEntries(before)), last.serverId.value, last, id);
      } else {
        assert before + [] == before;
      }
    }
  }

  lemma NoEdit(id: string)
    ensures LinkedTexts([], id) == [] && FromEntries(ChangeEntries([])) == [] && forall t :: LastOther([], t) == None
  {
  }

  lemma LinkedStep(init: seq<DraftRule>, last: DraftRule, id: string)
    ensures LinkedTexts(init + [last], id) ==
            if last.OnServer() && last.serverId.value == id then LinkedTexts(init, id) + [last.text]
            else LinkedTexts(init, id)
  {
    assert (init + [last])[..|init|] == init;
  }

  lemma LastOtherStep(texts: seq<RuleText>, last: RuleText)
    ensures forall t :: LastOther(texts + [last], t) == if last != t then Some(last) else LastOther(texts, t)
  {
    assert (texts + [last])[..|texts|] == texts;
  }

  lemma EntriesStep(before: seq<RuleChange>, change: RuleChange)
    ensures FromEntries(ChangeEntries(before + [change])) ==
            Put(FromEntries(ChangeEntries(before)), change.after.serverId.GetOr(""), change.after)
  {
    var entries := ChangeEntries(before + [change]);
    assert entries[..|before|] == ChangeEntries(before);
  }

  /** Rebasing rules, for any base and any draft: a server rule the base also had goes with all its copies if the
      draft has no rule for it; else its first copy reads as the last of the draft's rules for it that differs from
      the base, if one does, and every other copy stays as the server has it. A rule the base lacked stays. */
  lemma ThreeWayRules(base: seq<ModelRule>, mine: seq<DraftRule>, server: seq<ModelRule>, keys: nat -> string, j: nat)
    requires ProperIds(server) && j < |server|
    ensures var id, text := server[j].id, server[j].text;
            var was, texts := Get(ById(base), id), LinkedTexts(mine, id);
            var edit := if was.Some? then LastOther(texts, was.value.text) else None;
            LinkedTexts(RebaseRules(server, DiffRules(base, mine), keys), id) ==
            if was.Some? && texts == [] then []
            else CopyTexts(edit.GetOr(text), text, |Copies(server, {id})|)
  {
    hide ById, Get, MyIds, KeptRules, Alone, ProperIds, LinkedTexts, ChangedRules, RebaseRules, FromEntries,
         CopyTexts, Copies, LastOther;
    var id := server[j].id;
    var ch := DiffRules(base, mine);
    IdNotEmpty(server, j);
    SplitRebase(server, ch, keys);
    LinkedConcat(KeptRules(server, RemovedIds(ch), ChangedMap(ch), |server|), Alone(server, ch, keys), id);
    KeptTexts(server, RemovedIds(ch), ChangedMap(ch), |server|, j);
    assert server[..|server|] == server;
    EditOf(base, mine, id);
    LinkedIsMine(mine, id);
    ByIdKeys(base, id);
    RemovedIsGone(base, mine, id);
  }

  lemma RemovedIsGone(base: seq<ModelRule>, mine: seq<DraftRule>, id: string)
    ensures id in RemovedIds(DiffRules(base, mine)) <==> id in Ids(base) && id !in MyIds(mine)
  {
    hide MyIds, ChangedRules, AddedRules, ById;
    if id in RemovedIds(DiffRules(base, mine)) {
      var r :| r in DiffRules(base, mine).removed && r.id == id;
      IdIsListed(base, r);
    }
    if id in Ids(base) && id !in MyIds(mine) {
      ListedIsRule(base, id);
      var r :| r in base && r.id == id;
      assert r in DiffRules(base, mine).removed;
    }
  }
}

/** The change summary of a whole draft and its rebase after a conflict (frontend/src/pages/acls/model.ts). */
module Rebase {
  import opened Base
  import opened CanonicalJson
  import opened Records
  import opened DraftModel
  import opened KeyMerge
  import opened ExtrasMerge
  import RuleMerge
  import ExtrasLaws
  import RuleLaws

  datatype Summary = Summary(
    rules: RuleMerge.RuleChanges, groups: KeyChanges, tagOwners: KeyChanges, hosts: KeyChanges,
    extras: Lists<ListChanges>, routes: KeyChanges, exitNode: bool, randomize: bool)
  {
    /** The number of changes shown to the user. */
    function Count(): nat {
      rules.Count() + groups.Count() + tagOwners.Count() + hosts.Count() + routes.Count() +
      extras.grants.Count() + extras.ssh.Count() + extras.nodeAttrs.Count() + extras.tests.Count() +
      extras.sshTests.Count() +
      (if exitNode then 1 else 0) + if randomize then 1 else 0
    }
  }

  function DiffLists(server: Lists<seq<CVal>>, mine: Lists<seq<Item>>): Lists<ListChanges> {
    Lists(DiffExtras(server.grants, mine.grants), DiffExtras(server.ssh, mine.ssh),
          DiffExtras(server.nodeAttrs, mine.nodeAttrs), DiffExtras(server.tests, mine.tests),
          DiffExtras(server.sshTests, mine.sshTests))
  }

  /** `diffDraft`. */
  function DiffDraft(server: PolicyModel, d: Draft): Summary {
    Summary(
      RuleMerge.DiffRules(server.rules, d.rules), DiffKeys(server.groups, d.groups),
      DiffKeys(server.tagOwners, d.tagOwners), DiffKeys(server.hosts, d.hosts), DiffLists(server.lists, d.extras),
      DiffKeys(server.routes, d.routes), server.exitNode != d.exitNode, server.randomize != d.randomize)
  }

  method DiffDraftLoop(server: PolicyModel, d: Draft) returns (s: Summary)
    ensures s == DiffDraft(server, d)
  {
    var rules := RuleMerge.DiffRulesLoop(server.rules, d.rules);
    var groups := DiffKeysLoop(server.groups, d.groups);
    var tagOwners := DiffKeysLoop(server.tagOwners, d.tagOwners);
    var hosts := DiffKeysLoop(server.hosts, d.hosts);
    var grants := DiffExtrasLoop(server.lists.grants, d.extras.grants);
    var ssh := DiffExtrasLoop(server.lists.ssh, d.extras.ssh);
    var nodeAttrs := DiffExtrasLoop(server.lists.nodeAttrs, d.extras.nodeAttrs);
    var tests := DiffExtrasLoop(server.lists.tests, d.extras.tests);
    var sshTests := DiffExtrasLoop(server.lists.sshTests, d.extras.sshTests);
    var routes := DiffKeysLoop(server.routes, d.routes);
    s := Summary(rules, groups, tagOwners, hosts, Lists(grants, ssh, nodeAttrs, tests, sshTests), routes,
                 server.exitNode != d.exitNode, server.randomize != d.randomize);
  }

  /** One list section: left as loaded when the user did not touch it. */
  function RebaseList(
    changes: ListChanges, base: Option<Lists<seq<CVal>>>, l: ExtraList, items: seq<Item>, server: seq<CVal>,
    keys: nat -> string)
    : seq<Item>
  {
    if changes.Count() == 0 || base.None? then LoadItems(server, keys)
    else RebaseExtras(base.value.Of(l), items, server, keys)
  }

  method RebaseListLoop(
    changes: ListChanges, base: Option<Lists<seq<CVal>>>, l: ExtraList, items: seq<Item>, server: seq<CVal>,
    keys: nat -> string)
    returns (out: seq<Item>)
    ensures out == RebaseList(changes, base, l, items, server, keys)
  {
    if changes.Count() == 0 || base.None? {
      out := LoadItems(server, keys);
    } else {
      out := RebaseExtrasLoop(base.value.Of(l), items, server, keys);
    }
  }

  function BaseLists(d: Draft): Option<Lists<seq<CVal>>> {
    if d.base.Some? then Some(d.base.value.lists) else None
  }

  /** `rebaseDraft`. */
  function RebaseDraft(d: Draft, server: PolicyModel, s: Summary, ruleKeys: nat -> string, keys: KeySupply): Draft {
    var base := BaseLists(d);
    Draft(
      server.hash, Some(server),
      MergeKeys(server.groups, d.groups, s.groups), MergeKeys(server.tagOwners, d.tagOwners, s.tagOwners),
      MergeKeys(server.hosts, d.hosts, s.hosts), RuleMerge.RebaseRules(server.rules, s.rules, ruleKeys),
      Lists(
        RebaseList(s.extras.grants, base, GrantList, d.extras.grants, server.lists.grants, KeysFor(keys, GrantList)),
        RebaseList(s.extras.ssh, base, SshList, d.extras.ssh, server.lists.ssh, KeysFor(keys, SshList)),
        RebaseList(s.extras.nodeAttrs, base, NodeAttrList, d.extras.nodeAttrs, server.lists.nodeAttrs,
                   KeysFor(keys, NodeAttrList)),
        RebaseList(s.extras.tests, base, TestList, d.extras.tests, server.lists.tests, KeysFor(keys, TestList)),
        RebaseList(s.extras.sshTests, base, SshTestList, d.extras.sshTests, server.lists.sshTests,
                   KeysFor(keys, SshTestList))),
      MergeKeys(server.routes, d.routes, s.routes),
      if s.exitNode then d.exitNode else server.exitNode,
      if s.randomize then d.randomize else server.randomize)
  }

  method RebaseDraftLoop(d: Draft, server: PolicyModel, s: Summary, ruleKeys: nat -> string, keys: KeySupply)
      returns (out: Draft)
    ensures out == RebaseDraft(d, server, s, ruleKeys, keys)
  {
    var base := BaseLists(d);
    var rules := RuleMerge.RebaseRulesLoop(server.rules, s.rules, ruleKeys);
    var groups := MergeKeysLoop(server.groups, d.groups, s.groups);
    var tagOwners := MergeKeysLoop(server.tagOwners, d.tagOwners, s.tagOwners);
    var hosts := MergeKeysLoop(server.hosts, d.hosts, s.hosts);
    var grants := RebaseListLoop(s.extras.grants, base, GrantList, d.extras.grants, server.lists.grants,
                                 KeysFor(keys, GrantList));
    var ssh := RebaseListLoop(s.extras.ssh, base, SshList, d.extras.ssh, server.lists.ssh, KeysFor(keys, SshList));
    var nodeAttrs := RebaseListLoop(
      s.extras.nodeAttrs, base, NodeAttrList, d.extras.nodeAttrs, server.lists.nodeAttrs, KeysFor(keys, NodeAttrList));
    var tests := RebaseListLoop(s.extras.tests, base, TestList, d.extras.tests, server.lists.tests,
                                KeysFor(keys, TestList));
    var sshTests := RebaseListLoop(
      s.extras.sshTests, base, SshTestList, d.extras.sshTests, server.lists.sshTests, KeysFor(keys, SshTestList));
    var routes := MergeKeysLoop(server.routes, d.routes, s.routes);
    out := Draft(
      server.hash, Some(server), groups, tagOwners, hosts, rules,
      Lists(grants, ssh, nodeAttrs, tests, sshTests), routes,
      if s.exitNode then d.exitNode else server.exitNode, if s.randomize then d.randomize else server.randomize);
  }

  // ---- laws ----

  /** Draft if it differs from its base, else server. */
  function ThreeWay<V(==)>(base: V, draft: V, server: V): V { if draft != base then draft else server }

  /** Every keyed section, the exit-node approvers and the port switch obey the three-way law. */
  lemma RebaseIsThreeWay(d: Draft, server: PolicyModel, ruleKeys: nat -> string, keys: KeySupply, k: string)
    requires WellFormed(d) && WellFormedModel(server) && d.base.Some? && WellFormedModel(d.base.value)
    ensures var base := d.base.value;
            var out := RebaseDraft(d, server, DiffDraft(base, d), ruleKeys, keys);
            WellFormed(out) && out.base == Some(server) && out.baseHash == server.hash &&
            Get(out.groups, k) == ThreeWay(Get(base.groups, k), Get(d.groups, k), Get(server.groups, k)) &&
            Get(out.tagOwners, k) == ThreeWay(Get(base.tagOwners, k), Get(d.tagOwners, k), Get(server.tagOwners, k)) &&
            Get(out.hosts, k) == ThreeWay(Get(base.hosts, k), Get(d.hosts, k), Get(server.hosts, k)) &&
            Get(out.routes, k) == ThreeWay(Get(base.routes, k), Get(d.routes, k), Get(server.routes, k)) &&
            out.exitNode == ThreeWay(base.exitNode, d.exitNode, server.exitNode) &&
            out.randomize == ThreeWay(base.randomize, d.randomize, server.randomize)
  {
    hide MergeKeys, DiffKeys, Get, IsRecord, RuleMerge.RebaseRules, RuleMerge.DiffRules, RebaseList, DiffLists;
    var base := d.base.value;
    ThreeWayMerge(base.groups, d.groups, server.groups, k);
    ThreeWayMerge(base.tagOwners, d.tagOwners, server.tagOwners, k);
    ThreeWayMerge(base.hosts, d.hosts, server.hosts, k);
    ThreeWayMerge(base.routes, d.routes, server.routes, k);
  }

  /** Skipping the merge of an untouched list makes no difference. */
  lemma ListIsRebased(base: Lists<seq<CVal>>, l: ExtraList, items: seq<Item>, server: seq<CVal>, keys: nat -> string)
    ensures RebaseList(DiffExtras(base.Of(l), items), Some(base), l, items, server, keys) ==
            RebaseExtras(base.Of(l), items, server, keys)
  {
    hide DiffExtras, RebaseExtras, LoadItems;
    ExtrasLaws.UnchangedIsLoaded(base.Of(l), items, server, keys);
  }

  lemma ListCount(base: Lists<seq<CVal>>, l: ExtraList, items: seq<Item>, server: seq<CVal>, keys: nat -> string)
    ensures var before := DiffExtras(base.Of(l), items);
            DiffExtras(server, RebaseList(before, Some(base), l, items, server, keys)).Count() <= before.Count()
  {
    hide DiffExtras, RebaseExtras, RebaseList;
    ListIsRebased(base, l, items, server, keys);
    ExtrasLaws.RebaseCount(base.Of(l), items, server, keys);
  }

  lemma ListAgain(
    base: Lists<seq<CVal>>, fetched: Lists<seq<CVal>>, l: ExtraList, items: seq<Item>, keys: nat -> string,
    keys2: nat -> string)
    ensures var out := RebaseList(DiffExtras(base.Of(l), items), Some(base), l, items, fetched.Of(l), keys);
            var again := RebaseList(DiffExtras(fetched.Of(l), out), Some(fetched), l, out, fetched.Of(l), keys2);
            ExtrasLaws.Bare(again) == ExtrasLaws.Bare(out)
  {
    hide DiffExtras, RebaseExtras, RebaseList, ExtrasLaws.Bare;
    var server := fetched.Of(l);
    ListIsRebased(base, l, items, server, keys);
    var out := RebaseExtras(base.Of(l), items, server, keys);
    ListIsRebased(fetched, l, out, server, keys2);
    ExtrasLaws.RebaseAgain(base.Of(l), items, server, keys, keys2);
  }

  /** A rebase never raises the number of changes shown, unless the server lists the rules that the draft removed
      more often than the base did. */
  lemma RebaseNeverAddsChanges(d: Draft, server: PolicyModel, ruleKeys: nat -> string, keys: KeySupply)
    requires WellFormed(d) && WellFormedModel(server) && d.base.Some? && WellFormedModel(d.base.value)
    requires RuleLaws.ProperIds(server.rules)
    requires var ch := RuleMerge.DiffRules(d.base.value.rules, d.rules);
             |RuleLaws.Copies(server.rules, RuleMerge.RemovedIds(ch))| <= |ch.removed|
    ensures var before := DiffDraft(d.base.value, d);
            DiffDraft(server, RebaseDraft(d, server, before, ruleKeys, keys)).Count() <= before.Count()
  {
    hide MergeKeys, DiffKeys, IsRecord, RuleMerge.RebaseRules, RuleMerge.DiffRules, RebaseList, DiffExtras, KeysFor,
      RuleMerge.RuleChanges.Count, KeyChanges.Count, ListChanges.Count;
    var base := d.base.value;
    RuleLaws.RuleCount(server.rules, RuleMerge.DiffRules(base.rules, d.rules), ruleKeys);
    MergeCount(base.groups, d.groups, server.groups);
    MergeCount(base.tagOwners, d.tagOwners, server.tagOwners);
    MergeCount(base.hosts, d.hosts, server.hosts);
    MergeCount(base.routes, d.routes, server.routes);
    ListCount(base.lists, GrantList, d.extras.grants, server.lists.grants, KeysFor(keys, GrantList));
    ListCount(base.lists, SshList, d.extras.ssh, server.lists.ssh, KeysFor(keys, SshList));
    ListCount(base.lists, NodeAttrList, d.extras.nodeAttrs, server.lists.nodeAttrs, KeysFor(keys, NodeAttrList));
    ListCount(base.lists, TestList, d.extras.tests, server.lists.tests, KeysFor(keys, TestList));
    ListCount(base.lists, SshTestList, d.extras.sshTests, server.lists.sshTests, KeysFor(keys, SshTestList));
  }

  /** Equal drafts, up to the order of record entries and the client-side keys of list elements. */
  ghost predicate SameDraft(a: Draft, b: Draft) {
    && a.baseHash == b.baseHash && a.base == b.base
    && SameRecord(a.groups, b.groups) && SameRecord(a.tagOwners, b.tagOwners)
    && SameRecord(a.hosts, b.hosts) && SameRecord(a.routes, b.routes)
    && a.rules == b.rules
    && (forall l :: ExtrasLaws.Bare(a.extras.Of(l)) == ExtrasLaws.Bare(b.extras.Of(l)))
    && a.exitNode == b.exitNode && a.randomize == b.randomize
  }

  /** Rebasing a rebased draft onto the same server model changes nothing. */
  lemma RebaseIsIdempotent(
    d: Draft, server: PolicyModel, ruleKeys: nat -> string, keys: KeySupply, ruleKeys2: nat -> string, keys2: KeySupply)
    requires WellFormed(d) && WellFormedModel(server) && d.base.Some? && WellFormedModel(d.base.value)
    requires RuleLaws.ProperIds(server.rules)
    ensures var out := RebaseDraft(d, server, DiffDraft(d.base.value, d), ruleKeys, keys);
            SameDraft(RebaseDraft(out, server, DiffDraft(server, out), ruleKeys2, keys2), out)
  {
    hide MergeKeys, DiffKeys, IsRecord, SameRecord, RuleMerge.RebaseRules, RuleMerge.DiffRules, RebaseList,
         DiffExtras, KeysFor, ExtrasLaws.Bare;
    var base := d.base.value;
    RuleLaws.RulesAgain(server.rules, RuleMerge.DiffRules(base.rules, d.rules), ruleKeys, ruleKeys2);
    MergeAgain(base.groups, d.groups, server.groups);
    MergeAgain(base.tagOwners, d.tagOwners, server.tagOwners);
    MergeAgain(base.hosts, d.hosts, server.hosts);
    MergeAgain(base.routes, d.routes, server.routes);
    ListAgain(base.lists, server.lists, GrantList, d.extras.grants, KeysFor(keys, GrantList),
              KeysFor(keys2, GrantList));
    ListAgain(base.lists, server.lists, SshList, d.extras.ssh, KeysFor(keys, SshList), KeysFor(keys2, SshList));
    ListAgain(base.lists, server.lists, NodeAttrList, d.extras.nodeAttrs, KeysFor(keys, NodeAttrList),
              KeysFor(keys2, NodeAttrList));
    ListAgain(base.lists, server.lists, TestList, d.extras.tests, KeysFor(keys, TestList), KeysFor(keys2, TestList));
    ListAgain(base.lists, server.lists, SshTestList, d.extras.sshTests, KeysFor(keys, SshTestList),
              KeysFor(keys2, SshTestList));
  }

  lemma {:induction false} ChangesNothing(byId: Entries<string, ModelRule>, mine: seq<DraftRule>)
    ensures RuleMerge.ChangedRules(byId, mine) == [] <==>
            forall r | r in mine :: var t := RuleMerge.Twin(byId, r); t.Some? ==> t.value.text == r.text
  {
    hide RuleMerge.Twin;
    if mine != [] {
      var init, last := mine[..|mine| - 1], mine[|mine| - 1];
      assert mine == init + [last];
      ChangesNothing(byId, init);
      var before := RuleMerge.ChangedRules(byId, init);
      assert before + [] == before;
    }
  }

  /** Loaded rules show no change exactly when their ids are proper: a rule listed twice must read the same. */
  lemma LoadedRulesUnchanged(rules: seq<ModelRule>)
    ensures RuleMerge.DiffRules(rules, LoadRules(rules)).Count() == 0 <==> RuleLaws.ProperIds(rules)
  {
    hide RuleMerge.ById, Get, RuleMerge.ChangedRules;
    var mine, byId := LoadRules(rules), RuleMerge.ById(rules);
    ChangesNothing(byId, mine);
    LoadedAdded(rules);
    if RuleLaws.ProperIds(rules) {
      forall r | r in mine ensures RuleMerge.Twin(byId, r).Some? && RuleMerge.Twin(byId, r).value.text == r.text {
        var i :| 0 <= i < |mine| && mine[i] == r;
        RuleLaws.ByIdFinds(rules, i);
        RuleLaws.IdNotEmpty(rules, i);
      }
    }
    if RuleMerge.DiffRules(rules, mine).Count() == 0 {
      forall i | 0 <= i < |rules| ensures rules[i].id != "" && Get(byId, rules[i].id) == Some(rules[i]) {
        assert mine[i] in mine;
        assert RuleMerge.Ids(rules)[i] == rules[i].id;
        RuleLaws.ByIdKeys(rules, rules[i].id);
        RuleLaws.ByIdHolds(rules, rules[i].id);
      }
      assert forall i | 0 <= i < |rules| :: RuleMerge.Ids(rules)[i] == rules[i].id;
      forall a, b | a in rules && b in rules && a.id == b.id ensures a == b {
        var i :| 0 <= i < |rules| && rules[i] == a;
        var j :| 0 <= j < |rules| && rules[j] == b;
      }
    }
  }

  /** Loading adds no rule exactly when no id is empty, and then removes none. */
  lemma LoadedAdded(rules: seq<ModelRule>)
    ensures RuleMerge.AddedRules(RuleMerge.ById(rules), LoadRules(rules)) == [] <==> "" !in RuleMerge.Ids(rules)
    ensures "" !in RuleMerge.Ids(rules) ==>
              RuleMerge.RemovedRules(rules, RuleMerge.MyIds(LoadRules(rules))) == []
  {
    hide RuleMerge.ById, Get;
    var mine, byId := LoadRules(rules), RuleMerge.ById(rules);
    var added := RuleMerge.AddedRules(byId, mine);
    forall i | 0 <= i < |rules| ensures mine[i] in added <==> rules[i].id == "" {
      assert RuleMerge.Ids(rules)[i] == rules[i].id && mine[i] in mine;
      RuleLaws.ByIdKeys(rules, rules[i].id);
    }
    if added != [] {
      assert added[0] in added && added[0] in mine;
      var i :| 0 <= i < |mine| && mine[i] == added[0];
      assert RuleMerge.Ids(rules)[i] == "";
    }
    if "" in RuleMerge.Ids(rules) {
      var i :| 0 <= i < |rules| && RuleMerge.Ids(rules)[i] == "";
      assert mine[i] in added;
    } else {
      forall r | r in rules ensures r.id in RuleMerge.MyIds(mine) {
        var i :| 0 <= i < |rules| && rules[i] == r;
        assert RuleMerge.Ids(rules)[i] == r.id && mine[i] in mine;
      }
      WhereNothing(rules, (r: ModelRule) => r.id !in RuleMerge.MyIds(mine));
    }
  }

  lemma LoadedListUnchanged(elements: seq<CVal>, keys: nat -> string)
    ensures DiffExtras(elements, LoadItems(elements, keys)).Count() == 0
  {
    hide LoadItems, RebaseExtras;
    assert Used([], 0) == {};
    assert DiffExtras([], []).Count() == 0;
    ExtrasLaws.UnchangedIsLoaded([], [], elements, keys);
    ExtrasLaws.RebaseCount([], [], elements, keys);
  }

  /** A draft just loaded shows no changes exactly when the rules' ids are proper. */
  lemma LoadedShowsNothing(m: PolicyModel, keys: KeySupply)
    requires WellFormedModel(m)
    ensures DiffDraft(m, Load(m, keys)).Count() == 0 <==> RuleLaws.ProperIds(m.rules)
  {
    hide DiffKeys, DiffExtras, LoadItems, RuleMerge.DiffRules, RuleLaws.ProperIds, IsRecord, Differing, SameRecord,
      RuleMerge.RuleChanges.Count, KeyChanges.Count, ListChanges.Count;
    LoadedRulesUnchanged(m.rules);
    SameShowsNothing(m.groups);
    SameShowsNothing(m.tagOwners);
    SameShowsNothing(m.hosts);
    SameShowsNothing(m.routes);
    LoadedListUnchanged(m.lists.grants, KeysFor(keys, GrantList));
    LoadedListUnchanged(m.lists.ssh, KeysFor(keys, SshList));
    LoadedListUnchanged(m.lists.nodeAttrs, KeysFor(keys, NodeAttrList));
    LoadedListUnchanged(m.lists.tests, KeysFor(keys, TestList));
    LoadedListUnchanged(m.lists.sshTests, KeysFor(keys, SshTestList));
  }

  lemma SameShowsNothing<V>(r: Record<V>)
    requires IsRecord(r)
    ensures DiffKeys(r, r).Count() == 0
  {
    CountIsDiffering(r, r);
    assert Differing(r, r) == {};
  }
}

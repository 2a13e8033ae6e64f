/** The change summary and the rebase of the rule list (frontend/src/pages/acls/model.ts). */
module RuleMerge {
  import opened Base
  import opened Records
  import opened DraftModel

  datatype RuleChange = RuleChange(before: ModelRule, after: DraftRule)

  datatype RuleChanges = RuleChanges(added: seq<DraftRule>, removed: seq<ModelRule>, changed: seq<RuleChange>)
  {
    function Count(): nat { |added| + |removed| + |changed| }
  }

  type RuleMap = Entries<string, DraftRule>

  function Ids(rules: seq<ModelRule>): (r: seq<string>)
    ensures |r| == |rules| && forall i | 0 <= i < |r| :: r[i] == rules[i].id
  {
    seq(|rules|, i requires 0 <= i < |rules| => rules[i].id)
  }

  function ById(rules: seq<ModelRule>): Entries<string, ModelRule> {
    FromEntries(seq(|rules|, i requires 0 <= i < |rules| => (rules[i].id, rules[i])))
  }

  /** The server rules the draft's rules stand for. */
  function MyIds(rules: seq<DraftRule>): set<string> { set r | r in rules && r.OnServer() :: r.serverId.value }

  /** The server rule a draft rule stands for, if the server still has it. */
  function Twin(byId: Entries<string, ModelRule>, r: DraftRule): Option<ModelRule> {
    if r.OnServer() then Get(byId, r.serverId.value) else None
  }

  function AddedRules(byId: Entries<string, ModelRule>, mine: seq<DraftRule>): seq<DraftRule> {
    Where(mine, (r: DraftRule) => Twin(byId, r).None?)
  }

  function ChangedRules(byId: Entries<string, ModelRule>, mine: seq<DraftRule>): seq<RuleChange> {
    if mine == [] then []
    else
      var last := mine[|mine| - 1];
      var twin := Twin(byId, last);
      ChangedRules(byId, mine[..|mine| - 1]) +
      if twin.Some? && twin.value.text != last.text then [RuleChange(twin.value, last)] else []
  }

  function RemovedRules(server: seq<ModelRule>, ids: set<string>): seq<ModelRule> {
    Where(server, (r: ModelRule) => r.id !in ids)
  }

  /** The rule part of `diffDraft`. */
  function DiffRules(server: seq<ModelRule>, mine: seq<DraftRule>): RuleChanges {
    RuleChanges(AddedRules(ById(server), mine), RemovedRules(server, MyIds(mine)), ChangedRules(ById(server), mine))
  }

  method DiffRulesLoop(server: seq<ModelRule>, mine: seq<DraftRule>) returns (out: RuleChanges)
    ensures out == DiffRules(server, mine)
  {
    hide ById, Twin, MyIds;
    var byId := ById(server);
    var added: seq<DraftRule>, changed: seq<RuleChange> := [], [];
    for i := 0 to |mine|
      invariant added == AddedRules(byId, mine[..i]) && changed == ChangedRules(byId, mine[..i])
    {
      var r := mine[i];
      assert mine[..i + 1][..i] == mine[..i];
      var before := Twin(byId, r);
      if before.None? { added := added + [r]; }
      else if before.value.text != r.text { changed := changed + [RuleChange(before.value, r)]; }
    }
    assert mine[..|mine|] == mine;
    var ids := MyIds(mine);
    var removed: seq<ModelRule> := [];
    for i := 0 to |server|
      invariant removed == RemovedRules(server[..i], ids)
    {
      assert server[..i + 1][..i] == server[..i];
      if server[i].id !in ids { removed := removed + [server[i]]; }
    }
    assert server[..|server|] == server;
    out := RuleChanges(added, removed, changed);
  }

  // ---- the rebase ----

  function RemovedIds(ch: RuleChanges): set<string> { set r | r in ch.removed :: r.id }

  /** The edited rules by the id of the rule they edit. */
  function ChangeEntries(changes: seq<RuleChange>): (r: RuleMap)
    ensures |r| == |changes|
    ensures forall i | 0 <= i < |r| :: r[i] == (changes[i].after.serverId.GetOr(""), changes[i].after)
  {
    seq(|changes|, i requires 0 <= i < |changes| => (changes[i].after.serverId.GetOr(""), changes[i].after))
  }

  function ChangedMap(ch: RuleChanges): RuleMap {
    FromEntries(ChangeEntries(ch.changed))
  }

  /** What server rule j becomes: the user's version at its first appearance, else itself. */
  function Merged(server: seq<ModelRule>, changed: RuleMap, j: nat): DraftRule
    requires j < |server|
  {
    var id := server[j].id;
    var edited := if id in Ids(server[..j]) then None else Get(changed, id);
    DraftRule(id, Some(id), if edited.Some? then edited.value.text else server[j].text)
  }

  function KeptRules(server: seq<ModelRule>, removed: set<string>, changed: RuleMap, n: nat): seq<DraftRule>
    requires n <= |server|
  {
    if n == 0 then []
    else
      KeptRules(server, removed, changed, n - 1) +
      if server[n - 1].id in removed then [] else [Merged(server, changed, n - 1)]
  }

  /** Edits whose server rule has not shown up. */
  function Waiting(changed: RuleMap, removed: set<string>, seen: seq<string>): RuleMap {
    Where(changed, (e: (string, DraftRule)) => e.0 !in seen || e.0 in removed)
  }

  function Orphans(changed: RuleMap, keys: nat -> string): (r: seq<DraftRule>)
    ensures |r| == |changed| && forall i | 0 <= i < |r| :: r[i] == DraftRule(keys(i), None, changed[i].1.text)
  {
    seq(|changed|, i requires 0 <= i < |changed| => DraftRule(keys(i), None, changed[i].1.text))
  }

  function Unlinked(rules: seq<DraftRule>): (r: seq<DraftRule>)
    ensures |r| == |rules| && forall i | 0 <= i < |r| :: r[i] == rules[i].(serverId := None)
  {
    seq(|rules|, i requires 0 <= i < |rules| => rules[i].(serverId := None))
  }

  /** The rule part of `rebaseDraft`. */
  function RebaseRules(server: seq<ModelRule>, ch: RuleChanges, keys: nat -> string): seq<DraftRule> {
    var removed, changed := RemovedIds(ch), ChangedMap(ch);
    KeptRules(server, removed, changed, |server|) + Orphans(Waiting(changed, removed, Ids(server)), keys) +
      Unlinked(ch.added)
  }

  lemma GetWaiting(changed: RuleMap, removed: set<string>, seen: seq<string>, id: string)
    requires IsRecord(changed)
    ensures IsRecord(Waiting(changed, removed, seen))
    ensures Get(Waiting(changed, removed, seen), id) == if id !in seen || id in removed then Get(changed, id) else None
  {
    WhereRecord(changed, (e: (string, DraftRule)) => e.0 !in seen || e.0 in removed, id);
    GetKeys(changed, id);
  }

  /** Filtering a record's entries. */
  lemma {:induction false} WhereRecord(r: RuleMap, p: ((string, DraftRule)) -> bool, id: string)
    requires IsRecord(r)
    ensures IsRecord(Where(r, p))
    ensures forall k :: k in KeysOf(Where(r, p)) ==> k in KeysOf(r)
    ensures Get(Where(r, p), id) == if Get(r, id).Some? && p((id, Get(r, id).value)) then Get(r, id) else None
  {
    hide IsRecord, KeysOf, Get;
    if r == [] {
      NothingIn(id);
    } else {
      var init, last := r[..|r| - 1], r[|r| - 1];
      assert r == init + [last];
      AppendEntry(init, last, id);
      WhereRecord(init, p, id);
      GetKeys(init, id);
      var w := Where(init, p);
      assert w + [] == w;
      AppendEntry(w, last, id);
    }
  }

  lemma NothingIn(id: string)
    ensures IsRecord<string, DraftRule>([]) && KeysOf<string, DraftRule>([]) == [] &&
            Get<string, DraftRule>([], id) == None
  {
  }

  lemma {:induction false} WaitingStep(changed: RuleMap, removed: set<string>, seen: seq<string>, id: string)
    requires IsRecord(changed)
    ensures var w := Waiting(changed, removed, seen);
            Waiting(changed, removed, seen + [id]) == if id in removed then w else Delete(w, id)
  {
    hide IsRecord, Delete;
    var p := (e: (string, DraftRule)) => e.0 !in seen || e.0 in removed;
    var q := (e: (string, DraftRule)) => e.0 != id;
    var both := (e: (string, DraftRule)) => e.0 !in seen + [id] || e.0 in removed;
    if id in removed {
      WhereSame(changed, p, both);
    } else {
      GetWaiting(changed, removed, seen, id);
      DeleteIsWhere(Waiting(changed, removed, seen), id, q);
      WhereTwice(changed, p, q, both);
    }
  }

  method RebaseRulesLoop(server: seq<ModelRule>, ch: RuleChanges, keys: nat -> string) returns (out: seq<DraftRule>)
    ensures out == RebaseRules(server, ch, keys)
  {
    hide IsRecord, Get, Delete, Waiting, FromEntries, RemovedIds;
    var removed, changed := RemovedIds(ch), ChangedMap(ch);
    ghost var edits := changed;
    FromEntriesSize(ChangeEntries(ch.changed));
    assert Ids(server[..0]) == [];
    AllWaiting(edits, removed);
    out := [];
    for j := 0 to |server|
      invariant changed == Waiting(edits, removed, Ids(server[..j]))
      invariant out == KeptRules(server, removed, edits, j)
    {
      var r := server[j];
      assert Ids(server[..j + 1]) == Ids(server[..j]) + [r.id];
      WaitingStep(edits, removed, Ids(server[..j]), r.id);
      GetWaiting(edits, removed, Ids(server[..j]), r.id);
      if r.id !in removed {
        var edited := Get(changed, r.id);
        out := out + [DraftRule(r.id, Some(r.id), if edited.Some? then edited.value.text else r.text)];
        changed := Delete(changed, r.id);
      }
    }
    assert server[..|server|] == server;
    ghost var kept, orphans := out, Orphans(changed, keys);
    for i := 0 to |changed|
      invariant out == kept + orphans[..i]
    {
      out := out + [DraftRule(keys(i), None, changed[i].1.text)];
    }
    assert orphans[..|changed|] == orphans;
    out := out + Unlinked(ch.added);
  }

  lemma AllWaiting(changed: RuleMap, removed: set<string>)
    ensures Waiting(changed, removed, []) == changed
  {
    WhereAll(changed, (e: (string, DraftRule)) => e.0 !in [] || e.0 in removed);
  }
}

/** The rule list with disabled rules (internal/policy/model.go, internal/store/aclmeta.go). */
module RuleList {
  import opened Base
  import opened AclModel

  /** The rule_json column. Encoding a rule and decoding it again gives the rule. */
  datatype RuleJson = NoJson | Garbled | Encodes(rule: Rule)

  /** One row of the table, keyed by fingerprint. */
  datatype RuleMeta = RuleMeta(
    fingerprint: Rule, name: string, description: string, enabled: bool, ruleJson: RuleJson, position: int)

  type Table = map<Rule, RuleMeta>

  /** One rule as the editor shows it. */
  datatype ModelRule = ModelRule(id: Rule, rule: Rule, name: string, description: string, enabled: bool)

  // ---- rows of a saved list ----

  function RowOf(r: InputRule, position: int): RuleMeta {
    RuleMeta(Fingerprint(r.AsRule()), r.name, r.description, r.enabled, Encodes(r.AsRule()), position)
  }

  predicate NeedsRow(r: InputRule) { !r.enabled || r.name != "" || r.description != "" }

  function RowIndex(rows: seq<RuleMeta>, fp: Rule): (r: Option<nat>)
    ensures r.Some? ==> r.value < |rows| && rows[r.value].fingerprint == fp
    ensures r.None? ==> forall i | 0 <= i < |rows| :: rows[i].fingerprint != fp
  {
    if rows == [] then None
    else if rows[|rows| - 1].fingerprint == fp then Some(|rows| - 1)
    else RowIndex(rows[..|rows| - 1], fp)
  }

  /** Submitted rules as rows; identical rules share one row, the last one wins. */
  function MetaRows(rules: seq<InputRule>): seq<RuleMeta> {
    if rules == [] then []
    else
      var rows := MetaRows(rules[..|rules| - 1]);
      var r := rules[|rules| - 1];
      if !NeedsRow(r) then rows
      else
        var row := RowOf(r, |rules| - 1);
        match RowIndex(rows, row.fingerprint)
        case Some(i) => rows[i := row]
        case None => rows + [row]
  }

  predicate RowsDistinct(rows: seq<RuleMeta>) {
    forall i, j | 0 <= i < j < |rows| :: rows[i].fingerprint != rows[j].fingerprint
  }

  lemma {:induction false} MetaRowsDistinct(rules: seq<InputRule>)
    ensures RowsDistinct(MetaRows(rules))
  {
    if rules != [] { MetaRowsDistinct(rules[..|rules| - 1]); }
  }

  /** `seen` tells for every fingerprint the one row that carries it. */
  ghost predicate Indexed(seen: map<Rule, nat>, rows: seq<RuleMeta>) {
    && (forall fp | fp in seen :: seen[fp] < |rows| && rows[seen[fp]].fingerprint == fp)
    && (forall x | 0 <= x < |rows| :: rows[x].fingerprint in seen && seen[rows[x].fingerprint] == x)
  }

  lemma IndexedFinds(seen: map<Rule, nat>, rows: seq<RuleMeta>, row: RuleMeta)
    requires Indexed(seen, rows)
    ensures var fp := row.fingerprint;
            RowIndex(rows, fp) == (if fp in seen then Some(seen[fp]) else None) &&
            if fp in seen then Indexed(seen, rows[seen[fp] := row]) else Indexed(seen[fp := |rows|], rows + [row])
  {
    hide RowIndex;
  }

  lemma NothingIndexed()
    ensures Indexed(map[], [])
  {
  }

  /** `metaRows`, with its index of fingerprints already seen. */
  method CollectRows(rules: seq<InputRule>) returns (rows: seq<RuleMeta>)
    ensures rows == MetaRows(rules)
  {
    hide RowOf, Indexed, RowIndex;
    rows := [];
    var seen: map<Rule, nat> := map[];
    NothingIndexed();
    for i := 0 to |rules|
      invariant rows == MetaRows(rules[..i])
      invariant Indexed(seen, rows)
    {
      assert rules[..i + 1][..i] == rules[..i];
      var r := rules[i];
      if !r.enabled || r.name != "" || r.description != "" {
        var row := RowOf(r, i);
        IndexedFinds(seen, rows, row);
        if row.fingerprint in seen {
          rows := rows[seen[row.fingerprint] := row];
        } else {
          seen := seen[row.fingerprint := |rows|];
          rows := rows + [row];
        }
      }
    }
    assert rules[..|rules|] == rules;
  }

  // ---- the table ----

  /** The table after inserting rows in order, each replacing a row with the same fingerprint. */
  function TableOf(rows: seq<RuleMeta>): Table {
    if rows == [] then map[]
    else TableOf(rows[..|rows| - 1])[rows[|rows| - 1].fingerprint := rows[|rows| - 1]]
  }

  /** Every row is stored under its own fingerprint. */
  predicate Keyed(table: Table) { forall fp | fp in table :: table[fp].fingerprint == fp }

  predicate SortedByPosition(rows: seq<RuleMeta>) {
    forall i, j | 0 <= i < j < |rows| :: rows[i].position <= rows[j].position
  }

  /** The rows of a table in position order, rows at one position in any order. */
  predicate Listing(table: Table, rows: seq<RuleMeta>) {
    && SortedByPosition(rows) && RowsDistinct(rows)
    && (forall i | 0 <= i < |rows| :: rows[i].fingerprint in table && table[rows[i].fingerprint] == rows[i])
    && (forall fp | fp in table :: table[fp] in rows)
  }

  /** The order of the query: by position, then by fingerprint. `rank` is a fingerprint's place in text order. */
  predicate Sooner(a: RuleMeta, b: RuleMeta, rank: Rule -> int) {
    a.position < b.position || (a.position == b.position && rank(a.fingerprint) <= rank(b.fingerprint))
  }

  /** Different fingerprints have different places. */
  ghost predicate TellsApart(rank: Rule -> int) { forall f, g :: rank(f) == rank(g) ==> f == g }

  predicate Ascending(rows: seq<RuleMeta>, rank: Rule -> int) {
    forall i, j | 0 <= i < j < |rows| :: Sooner(rows[i], rows[j], rank) && !Sooner(rows[j], rows[i], rank)
  }

  class Store {
    var table: Table
    const rank: Rule -> int

    constructor (order: Rule -> int)
      ensures table == map[] && rank == order
    {
      table, rank := map[], order;
    }

    /** Replaces the whole table in one transaction; a failing one changes nothing. */
    method ReplaceRuleMeta(rows: seq<RuleMeta>, commits: bool) returns (ok: bool)
      modifies this
      ensures ok == commits
      ensures table == if commits then TableOf(rows) else old(table)
    {
      var next: Table := map[];
      for i := 0 to |rows|
        invariant next == TableOf(rows[..i])
      {
        assert rows[..i + 1][..i] == rows[..i];
        next := next[rows[i].fingerprint := rows[i]];
      }
      assert rows[..|rows|] == rows;
      if commits { table := next; }
      ok := commits;
    }

    /** All rows ordered by position and fingerprint. */
    method ListRuleMeta() returns (rows: seq<RuleMeta>)
      requires Keyed(table)
      ensures Listing(table, rows)
      ensures TellsApart(rank) ==> Ascending(rows, rank)
    {
      hide Listed, Sooner, TellsApart;
      rows := [];
      var rest := table;
      NothingListed(table, rank);
      while |rest| > 0
        invariant Listed(table, rows, rest, rank)
        decreases |rest|
      {
        EarliestExists(rest, rank);
        var fp :| fp in rest && forall k | k in rest :: Sooner(rest[fp], rest[k], rank);
        ListNext(table, rows, rest, rank, fp);
        RemoveSmaller(rest, fp);
        rows := rows + [rest[fp]];
        rest := rest - {fp};
      }
      AllListed(table, rows, rest, rank);
    }
  }

  /** rows lists what was taken out of the table so far, the earliest first. */
  predicate Listed(table: Table, rows: seq<RuleMeta>, rest: Table, rank: Rule -> int) {
    && Keyed(table) && RowsDistinct(rows)
    && (forall i, j | 0 <= i < j < |rows| :: Sooner(rows[i], rows[j], rank))
    && (forall fp | fp in rest :: fp in table && rest[fp] == table[fp])
    && (forall i | 0 <= i < |rows| ::
          rows[i].fingerprint in table && table[rows[i].fingerprint] == rows[i] && rows[i].fingerprint !in rest)
    && (forall i, fp | 0 <= i < |rows| && fp in rest :: Sooner(rows[i], rest[fp], rank))
    && (forall fp | fp in table :: fp in rest || table[fp] in rows)
  }

  lemma NothingListed(table: Table, rank: Rule -> int)
    requires Keyed(table)
    ensures Listed(table, [], table, rank)
  {
  }

  lemma AllListed(table: Table, rows: seq<RuleMeta>, rest: Table, rank: Rule -> int)
    requires Listed(table, rows, rest, rank) && |rest| == 0
    ensures Listing(table, rows)
    ensures TellsApart(rank) ==> Ascending(rows, rank)
  {
    assert rest == map[];
    assert SortedByPosition(rows);
  }

  lemma ListNext(table: Table, rows: seq<RuleMeta>, rest: Table, rank: Rule -> int, fp: Rule)
    requires Listed(table, rows, rest, rank) && fp in rest && forall k | k in rest :: Sooner(rest[fp], rest[k], rank)
    ensures Listed(table, rows + [rest[fp]], rest - {fp}, rank)
  {
    hide Sooner;
    var next, left := rows + [rest[fp]], rest - {fp};
    assert next[|rows|] == rest[fp] && forall i | 0 <= i < |rows| :: next[i] == rows[i];
    forall k | k in table ensures k in left || table[k] in next {
      if k == fp { assert next[|rows|] in next; } else if k !in rest { assert table[k] in rows; }
    }
  }

  lemma RemoveSmaller(t: Table, fp: Rule)
    requires fp in t
    ensures |t - {fp}| < |t|
  {
    assert t.Keys == (t - {fp}).Keys + {fp};
    assert |t.Keys| == |(t - {fp}).Keys| + 1;
  }

  lemma {:induction false} EarliestExists(t: Table, rank: Rule -> int)
    requires |t| > 0
    ensures exists fp :: fp in t && forall k | k in t :: Sooner(t[fp], t[k], rank)
    decreases |t|
  {
    hide Sooner;
    var fp := FindEarliest(t, rank);
  }

  lemma {:induction false} FindEarliest(t: Table, rank: Rule -> int) returns (fp: Rule)
    requires |t| > 0
    ensures fp in t && forall k | k in t :: Sooner(t[fp], t[k], rank)
    decreases |t|
  {
    var a :| a in t;
    var rest := t - {a};
    RemoveSmaller(t, a);
    assert forall k | k in t :: k == a || k in rest;
    if |rest| == 0 {
      assert rest == map[];
      fp := a;
    } else {
      var b := FindEarliest(rest, rank);
      fp := if Sooner(t[a], t[b], rank) then a else b;
    }
  }

  // ---- the list shown ----

  function LiveRule(r: Rule, table: Table): ModelRule {
    var fp := Fingerprint(r);
    if fp in table then ModelRule(fp, r, table[fp].name, table[fp].description, true)
    else ModelRule(fp, r, "", "", true)
  }

  function LiveRules(acls: seq<Rule>, table: Table): (r: seq<ModelRule>)
    ensures |r| == |acls| && forall i | 0 <= i < |r| :: r[i] == LiveRule(acls[i], table)
  {
    seq(|acls|, i requires 0 <= i < |acls| => LiveRule(acls[i], table))
  }

  /** A row that is re-inserted: disabled, not live, and with a rule that decodes. */
  predicate Shown(row: RuleMeta, live: set<Rule>) {
    !row.enabled && row.fingerprint !in live && row.ruleJson.Encodes?
  }

  function DisabledRule(row: RuleMeta): ModelRule
    requires row.ruleJson.Encodes?
  {
    ModelRule(row.fingerprint, row.ruleJson.rule, row.name, row.description, false)
  }

  /** Where a row goes in a list of n rules. */
  function Slot(position: int, n: nat): (p: nat)
    ensures p <= n
  {
    if position > n then n else if position < 0 then 0 else position
  }

  function InsertRow(rules: seq<ModelRule>, row: RuleMeta): seq<ModelRule>
    requires row.ruleJson.Encodes?
  {
    var p := Slot(row.position, |rules|);
    rules[..p] + [DisabledRule(row)] + rules[p..]
  }

  function InsertRows(rules: seq<ModelRule>, rows: seq<RuleMeta>, live: set<Rule>): seq<ModelRule> {
    if rows == [] then rules
    else
      var before := InsertRows(rules, rows[..|rows| - 1], live);
      var row := rows[|rows| - 1];
      if Shown(row, live) then InsertRow(before, row) else before
  }

  function LiveSet(acls: seq<Rule>): set<Rule> { set r | r in acls :: Fingerprint(r) }

  /** The merged list. */
  function ModelRules(acls: seq<Rule>, rows: seq<RuleMeta>): seq<ModelRule> {
    InsertRows(LiveRules(acls, TableOf(rows)), rows, LiveSet(acls))
  }

  /** `modelState`: live rules first, then every shown row inserted at its remembered position. */
  method ModelState(acls: seq<Rule>, rows: seq<RuleMeta>) returns (rules: seq<ModelRule>)
    ensures rules == ModelRules(acls, rows)
  {
    hide Fingerprint, InsertRow, LiveRule;
    var byFp: Table := map[];
    for i := 0 to |rows|
      invariant byFp == TableOf(rows[..i])
    {
      assert rows[..i + 1][..i] == rows[..i];
      byFp := byFp[rows[i].fingerprint := rows[i]];
    }
    assert rows[..|rows|] == rows;
    rules := [];
    var live: set<Rule> := {};
    for i := 0 to |acls|
      invariant rules == LiveRules(acls[..i], byFp) && live == LiveSet(acls[..i])
    {
      LiveSetStep(acls, i);
      rules := rules + [LiveRule(acls[i], byFp)];
      live := live + {Fingerprint(acls[i])};
    }
    assert acls[..|acls|] == acls;
    ghost var start := rules;
    for i := 0 to |rows|
      invariant rules == InsertRows(start, rows[..i], live)
    {
      assert rows[..i + 1][..i] == rows[..i];
      if rows[i].enabled || rows[i].fingerprint in live || !rows[i].ruleJson.Encodes? {
        continue;
      }
      rules := InsertRow(rules, rows[i]);
    }
  }

  lemma LiveSetStep(acls: seq<Rule>, i: nat)
    requires i < |acls|
    ensures LiveSet(acls[..i + 1]) == LiveSet(acls[..i]) + {Fingerprint(acls[i])}
  {
    hide Fingerprint;
    assert acls[..i + 1] == acls[..i] + [acls[i]];
    forall x | x in LiveSet(acls[..i]) + {Fingerprint(acls[i])} ensures x in LiveSet(acls[..i + 1]) {
      if x != Fingerprint(acls[i]) {
        var r :| r in acls[..i] && x == Fingerprint(r);
        assert r in acls[..i + 1];
      }
    }
  }

  // ---- what the list shows, for any document and any table ----

  function Enabled(rules: seq<ModelRule>): seq<ModelRule> {
    if rules == [] then []
    else Enabled(rules[..|rules| - 1]) + (if rules[|rules| - 1].enabled then [rules[|rules| - 1]] else [])
  }

  function Disabled(rules: seq<ModelRule>): seq<ModelRule> {
    if rules == [] then []
    else Disabled(rules[..|rules| - 1]) + (if rules[|rules| - 1].enabled then [] else [rules[|rules| - 1]])
  }

  lemma {:induction false} SplitsConcat(a: seq<ModelRule>, b: seq<ModelRule>)
    ensures Enabled(a + b) == Enabled(a) + Enabled(b) && Disabled(a + b) == Disabled(a) + Disabled(b)
  {
    if b == [] {
      assert a + b == a;
    } else {
      assert (a + b)[..|a + b| - 1] == a + b[..|b| - 1];
      SplitsConcat(a, b[..|b| - 1]);
    }
  }

  lemma SplitsOne(x: ModelRule)
    ensures Enabled([x]) == (if x.enabled then [x] else []) && Disabled([x]) == (if x.enabled then [] else [x])
  {
    assert [x][..0] == [];
  }

  function ShownRows(rows: seq<RuleMeta>, live: set<Rule>): (r: seq<RuleMeta>)
    ensures forall x | x in r :: Shown(x, live) && x in rows
  {
    if rows == [] then []
    else ShownRows(rows[..|rows| - 1], live) + (if Shown(rows[|rows| - 1], live) then [rows[|rows| - 1]] else [])
  }

  function DisabledRules(rows: seq<RuleMeta>): (r: seq<ModelRule>)
    requires forall x | x in rows :: x.ruleJson.Encodes?
    ensures |r| == |rows| && forall i | 0 <= i < |r| :: r[i] == DisabledRule(rows[i])
  {
    seq(|rows|, i requires 0 <= i < |rows| => DisabledRule(rows[i]))
  }

  lemma SplitsAround(a: seq<ModelRule>, x: ModelRule, b: seq<ModelRule>)
    requires !x.enabled
    ensures Enabled(a + [x] + b) == Enabled(a) + Enabled(b)
    ensures Disabled(a + [x] + b) == Disabled(a) + [x] + Disabled(b)
  {
    hide Enabled, Disabled;
    SplitsConcat(a + [x], b);
    SplitsConcat(a, [x]);
    SplitsOne(x);
    assert Enabled(a) + [] == Enabled(a);
  }

  lemma {:induction false} InsertSplits(rules: seq<ModelRule>, row: RuleMeta)
    requires row.ruleJson.Encodes?
    ensures Enabled(InsertRow(rules, row)) == Enabled(rules)
    ensures var p := Slot(row.position, |rules|);
            Disabled(InsertRow(rules, row)) == Disabled(rules[..p]) + [DisabledRule(row)] + Disabled(rules[p..])
    ensures var p := Slot(row.position, |rules|); Disabled(rules) == Disabled(rules[..p]) + Disabled(rules[p..])
  {
    hide Enabled, Disabled, Slot;
    var p := Slot(row.position, |rules|);
    SplitsAround(rules[..p], DisabledRule(row), rules[p..]);
    SplitsConcat(rules[..p], rules[p..]);
    assert rules == rules[..p] + rules[p..];
  }

  lemma {:induction false} AllLive(acls: seq<Rule>, table: Table)
    ensures Enabled(LiveRules(acls, table)) == LiveRules(acls, table) && Disabled(LiveRules(acls, table)) == []
  {
    if acls != [] {
      var init := acls[..|acls| - 1];
      var rs := LiveRules(acls, table);
      assert rs[..|rs| - 1] == LiveRules(init, table);
      AllLive(init, table);
    }
  }

  /** Whatever the table holds, the enabled rules shown are the document's, in document order, and each shown
      row appears exactly once. */
  lemma {:induction false} EveryRuleShownOnce(acls: seq<Rule>, table: Table, rows: seq<RuleMeta>)
    ensures var shown := InsertRows(LiveRules(acls, table), rows, LiveSet(acls));
            && Enabled(shown) == LiveRules(acls, table)
            && multiset(Disabled(shown)) == multiset(DisabledRules(ShownRows(rows, LiveSet(acls))))
  {
    hide InsertRow, LiveRules, Fingerprint, Enabled, Disabled, LiveSet, Slot;
    var live := LiveSet(acls);
    AllLive(acls, table);
    if rows == [] {
      assert DisabledRules(ShownRows(rows, live)) == [];
    } else {
      var init, row := rows[..|rows| - 1], rows[|rows| - 1];
      EveryRuleShownOnce(acls, table, init);
      if Shown(row, live) {
        var before := InsertRows(LiveRules(acls, table), init, live);
        InsertSplits(before, row);
        assert DisabledRules(ShownRows(rows, live)) == DisabledRules(ShownRows(init, live)) + [DisabledRule(row)];
      } else {
        assert ShownRows(rows, live) == ShownRows(init, live);
      }
    }
  }

  // ---- save, then load ----

  /** The submitted rules have pairwise distinct identities. */
  predicate RulesDistinct(rules: seq<InputRule>) {
    forall i, j | 0 <= i < j < |rules| :: Fingerprint(rules[i].AsRule()) != Fingerprint(rules[j].AsRule())
  }

  /** A shown rule is the submitted one: same name, description and flag, contents equal up to normalization. */
  predicate Shows(m: ModelRule, r: InputRule) {
    && m.id == Fingerprint(r.AsRule()) && Fingerprint(m.rule) == Fingerprint(r.AsRule())
    && m.name == r.name && m.description == r.description && m.enabled == r.enabled
  }

  /** Every row describes the submitted rule at its position. */
  lemma {:induction false} RowsDescribe(rules: seq<InputRule>)
    ensures forall row | row in MetaRows(rules) ::
              0 <= row.position < |rules| && NeedsRow(rules[row.position]) &&
                row == RowOf(rules[row.position], row.position)
  {
    hide RowOf, RowIndex, NeedsRow;
    if rules != [] {
      var init, r := rules[..|rules| - 1], rules[|rules| - 1];
      RowsDescribe(init);
      PositionOf(r, |init|);
      forall row | row in MetaRows(rules)
        ensures 0 <= row.position < |rules| && NeedsRow(rules[row.position]) &&
                row == RowOf(rules[row.position], row.position)
      {
        if row in MetaRows(init) { assert rules[row.position] == init[row.position]; }
      }
    }
  }

  lemma PositionOf(r: InputRule, i: int)
    ensures RowOf(r, i).position == i && RowOf(r, i).fingerprint == Fingerprint(r.AsRule())
  {
  }

  lemma MetaRowsStep(rules: seq<InputRule>)
    requires rules != []
    ensures var rows, r := MetaRows(rules[..|rules| - 1]), rules[|rules| - 1];
            var row := RowOf(r, |rules| - 1);
            MetaRows(rules) == if !NeedsRow(r) then rows else
              match RowIndex(rows, row.fingerprint) case Some(i) => rows[i := row] case None => rows + [row]
  {
    hide RowOf, RowIndex, NeedsRow;
  }

  /** With distinct rules no row is ever replaced. */
  lemma RowsAppend(rules: seq<InputRule>)
    requires RulesDistinct(rules) && rules != []
    ensures MetaRows(rules) ==
            MetaRows(rules[..|rules| - 1]) +
              (if NeedsRow(rules[|rules| - 1]) then [RowOf(rules[|rules| - 1], |rules| - 1)] else [])
  {
    hide Fingerprint, RowOf, NeedsRow, MetaRows, InputRule.AsRule, RowIndex, RulesDistinct;
    var init, r := rules[..|rules| - 1], rules[|rules| - 1];
    var rows, row := MetaRows(init), RowOf(r, |init|);
    PositionOf(r, |init|);
    MetaRowsStep(rules);
    var found := RowIndex(rows, row.fingerprint);
    if found.Some? {
      RowsDescribe(init);
      var other := rows[found.value];
      assert other in rows && rules[other.position] == init[other.position];
      PositionOf(init[other.position], other.position);
      DistinctAt(rules, other.position, |init|);
      assert false;
    }
    assert rows + [] == rows;
  }

  lemma DistinctAt(rules: seq<InputRule>, i: nat, j: nat)
    requires RulesDistinct(rules) && i < j < |rules|
    ensures Fingerprint(rules[i].AsRule()) != Fingerprint(rules[j].AsRule())
  {
    hide Fingerprint, InputRule.AsRule;
  }

  /** Every rule of a distinct list that needs a row has its own. */
  lemma {:induction false} OwnRow(rules: seq<InputRule>, i: nat)
    requires RulesDistinct(rules) && i < |rules| && NeedsRow(rules[i])
    ensures RowOf(rules[i], i) in MetaRows(rules)
  {
    hide Fingerprint, RowOf, NeedsRow, MetaRows, InputRule.AsRule;
    RowsAppend(rules);
    if i < |rules| - 1 { OwnRow(rules[..|rules| - 1], i); }
  }

  lemma {:induction false} RowsAscend(rules: seq<InputRule>, rank: Rule -> int)
    requires RulesDistinct(rules)
    ensures Ascending(MetaRows(rules), rank)
  {
    hide Fingerprint, RowOf, NeedsRow, MetaRows, InputRule.AsRule;
    if rules == [] {
      NoRows();
    } else {
      var init, r := rules[..|rules| - 1], rules[|rules| - 1];
      RowsAppend(rules);
      RowsAscend(init, rank);
      RowsDescribe(init);
      PositionOf(r, |init|);
      assert forall x | 0 <= x < |MetaRows(init)| :: MetaRows(init)[x] in MetaRows(init);
    }
  }

  lemma NoRows()
    ensures MetaRows([]) == []
  {
  }

  lemma RowIs(r: InputRule, i: int)
    ensures RowOf(r, i).fingerprint == Fingerprint(r.AsRule())
  {
  }

  lemma SameLast(a: seq<RuleMeta>, b: seq<RuleMeta>, rank: Rule -> int)
    requires Ascending(a, rank) && Ascending(b, rank) && a != [] && b != []
    requires a[|a| - 1] in b && b[|b| - 1] in a
    ensures a[|a| - 1] == b[|b| - 1]
  {
    hide Sooner;
    var i :| 0 <= i < |a| && a[i] == b[|b| - 1];
    var j :| 0 <= j < |b| && b[j] == a[|a| - 1];
  }

  lemma InitMembers(a: seq<RuleMeta>, rank: Rule -> int)
    requires Ascending(a, rank) && a != []
    ensures Ascending(a[..|a| - 1], rank)
    ensures forall x :: x in a[..|a| - 1] <==> x in a && x != a[|a| - 1]
  {
    var init, last := a[..|a| - 1], a[|a| - 1];
    assert a == init + [last];
    assert forall i | 0 <= i < |init| :: init[i] == a[i] && !Sooner(last, a[i], rank);
  }

  /** Two ascending lists of the same rows are equal. */
  lemma {:induction false} SameListing(a: seq<RuleMeta>, b: seq<RuleMeta>, rank: Rule -> int)
    requires Ascending(a, rank) && Ascending(b, rank)
    requires forall x :: x in a <==> x in b
    ensures a == b
  {
    hide Ascending;
    assert b != [] ==> b[|b| - 1] in b;
    if a != [] {
      assert a[|a| - 1] in a;
      SameLast(a, b, rank);
      InitMembers(a, rank);
      InitMembers(b, rank);
      var a1, b1, last := a[..|a| - 1], b[..|b| - 1], a[|a| - 1];
      forall x ensures x in a1 <==> x in b1 {
        assert x in a1 <==> x in a && x != last;
        assert x in b1 <==> x in b && x != last;
      }
      SameListing(a1, b1, rank);
      assert a == a[..|a| - 1] + [a[|a| - 1]] && b == b[..|b| - 1] + [b[|b| - 1]];
    }
  }

  lemma ListedRows(table: Table, rows: seq<RuleMeta>, x: RuleMeta)
    requires Keyed(table) && Listing(table, rows)
    ensures x in rows <==> x.fingerprint in table && table[x.fingerprint] == x
  {
    if x in rows { var i :| 0 <= i < |rows| && rows[i] == x; }
  }

  /** A table has one listing in the order of the query. */
  lemma ListingIsUnique(table: Table, a: seq<RuleMeta>, b: seq<RuleMeta>, rank: Rule -> int)
    requires Keyed(table) && Listing(table, a) && Listing(table, b) && Ascending(a, rank) && Ascending(b, rank)
    ensures a == b
  {
    hide Ascending, Listing, Keyed;
    forall x ensures x in a <==> x in b {
      ListedRows(table, a, x);
      ListedRows(table, b, x);
    }
    SameListing(a, b, rank);
  }

  lemma {:induction false} TableOfRows(rows: seq<RuleMeta>)
    requires RowsDistinct(rows)
    ensures Keyed(TableOf(rows))
    ensures forall x :: x in rows <==> x.fingerprint in TableOf(rows) && TableOf(rows)[x.fingerprint] == x
  {
    if rows != [] {
      var init, row := rows[..|rows| - 1], rows[|rows| - 1];
      TableOfRows(init);
      assert rows == init + [row];
      forall x | x in init ensures x.fingerprint != row.fingerprint { var k :| 0 <= k < |init| && init[k] == x; }
    }
  }

  /** Listed rows of distinct rules have distinct positions. */
  lemma ListedApart(rules: seq<InputRule>, rows: seq<RuleMeta>, x: nat, y: nat)
    requires RulesDistinct(rules) && Listing(TableOf(MetaRows(rules)), rows) && x < y < |rows|
    ensures rows[x].position < rows[y].position
  {
    hide MetaRows, TableOf, Fingerprint;
    MetaRowsDistinct(rules);
    TableOfRows(MetaRows(rules));
    RowsDescribe(rules);
    assert rows[x] in MetaRows(rules) && rows[y] in MetaRows(rules);
  }

  /** What a table written from distinct rules lists is exactly the rows written. */
  lemma ListedIsWritten(rules: seq<InputRule>, rows: seq<RuleMeta>)
    requires RulesDistinct(rules) && Listing(TableOf(MetaRows(rules)), rows)
    ensures rows == MetaRows(rules)
  {
    hide MetaRows, RulesDistinct, TableOf;
    var written := MetaRows(rules);
    MetaRowsDistinct(rules);
    var rank := (fp: Rule) => 0;
    RowsAscend(rules, rank);
    TableOfRows(written);
    var t := TableOf(written);
    forall x, y | 0 <= x < y < |rows| ensures rows[x].position < rows[y].position {
      ListedApart(rules, rows, x, y);
    }
    forall x ensures x in written <==> x in rows {
      if x in written { assert t[x.fingerprint] in rows; }
      if x in rows { var i :| 0 <= i < |rows| && rows[i] == x; }
    }
    SameListing(written, rows, rank);
  }

  function CountEnabled(rules: seq<InputRule>): nat { |EnabledRules(rules)| }

  /** The list a load should show: live rules for the enabled ones, stored rows for the others. */
  function Expected(rules: seq<InputRule>, acls: seq<Rule>, table: Table): (s: seq<ModelRule>)
    requires |acls| == CountEnabled(rules)
    ensures |s| == |rules|
  {
    if rules == [] then []
    else
      var r := rules[|rules| - 1];
      if r.enabled then Expected(rules[..|rules| - 1], acls[..|acls| - 1], table) + [LiveRule(acls[|acls| - 1], table)]
      else Expected(rules[..|rules| - 1], acls, table) + [DisabledRule(RowOf(r, |rules| - 1))]
  }

  lemma EnabledStep(rules: seq<InputRule>, k: nat)
    requires k < |rules|
    ensures CountEnabled(rules[..k + 1]) == CountEnabled(rules[..k]) + if rules[k].enabled then 1 else 0
  {
    assert rules[..k + 1][..k] == rules[..k];
  }

  lemma {:induction false} EnabledPrefix(rules: seq<InputRule>, k: nat)
    requires k <= |rules|
    ensures CountEnabled(rules[..k]) <= CountEnabled(rules)
    decreases |rules| - k
  {
    if k == |rules| {
      assert rules[..k] == rules;
    } else {
      EnabledStep(rules, k);
      EnabledPrefix(rules, k + 1);
    }
  }

  lemma ExpectedStep(rules: seq<InputRule>, acls: seq<Rule>, table: Table, j: nat)
    requires j < |rules| && CountEnabled(rules[..j + 1]) <= |acls| &&
             CountEnabled(rules[..j]) <= CountEnabled(rules[..j + 1])
    ensures var (e, e') := (CountEnabled(rules[..j]), CountEnabled(rules[..j + 1]));
            Expected(rules[..j + 1], acls[..e'], table) ==
            Expected(rules[..j], acls[..e], table) +
            [if rules[j].enabled then LiveRule(acls[e' - 1], table) else DisabledRule(RowOf(rules[j], j))]
    ensures CountEnabled(rules[..j + 1]) == CountEnabled(rules[..j]) + if rules[j].enabled then 1 else 0
  {
    hide LiveRule, RowOf, EnabledRules;
    EnabledStep(rules, j);
    var e, e' := CountEnabled(rules[..j]), CountEnabled(rules[..j + 1]);
    assert rules[..j + 1][..j] == rules[..j];
    assert rules[j].enabled ==> acls[..e'][..e] == acls[..e];
  }

  /** After the rows of the first k rules are re-inserted, the first k shown rules are as expected and the
      remaining live rules follow. */
  lemma {:induction false} Reinserted(rules: seq<InputRule>, acls: seq<Rule>, table: Table, live: set<Rule>, k: nat)
    requires RulesDistinct(rules) && k <= |rules| && |acls| == CountEnabled(rules)
    requires forall i | 0 <= i < |rules| && !rules[i].enabled :: Fingerprint(rules[i].AsRule()) !in live
    ensures CountEnabled(rules[..k]) <= |acls|
    ensures var e := CountEnabled(rules[..k]);
            InsertRows(LiveRules(acls, table), MetaRows(rules[..k]), live) ==
            Expected(rules[..k], acls[..e], table) + LiveRules(acls[e..], table)
  {
    hide Fingerprint, LiveRule, CountEnabled, MetaRows, Expected, InsertRows, InsertRow, RulesDistinct, RowOf,
         NeedsRow, DisabledRule;
    EnabledPrefix(rules, k);
    if k == 0 {
      NothingInserted(rules, acls, table, live);
    } else {
      var j := k - 1;
      var r := rules[j];
      Reinserted(rules, acls, table, live, j);
      EnabledPrefix(rules, j);
      EnabledStep(rules, j);
      assert rules[..k][..j] == rules[..j] && rules[..k][j] == r;
      PrefixDistinct(rules, k);
      RowsAppend(rules[..k]);
      var e := CountEnabled(rules[..j]);
      var front := Expected(rules[..j], acls[..e], table);
      ExpectedStep(rules, acls, table, j);
      OneMoreRow(LiveRules(acls, table), MetaRows(rules[..j]), MetaRows(rules[..k]), r, j, live);
      if r.enabled {
        assert LiveRules(acls[e..], table) == [LiveRule(acls[e], table)] + LiveRules(acls[e + 1..], table);
        Regroup(front, LiveRule(acls[e], table), LiveRules(acls[e + 1..], table));
      } else {
        PositionOf(r, j);
        RowEncodes(r, j);
        InsertAtEnd(front, LiveRules(acls[e..], table), RowOf(r, j));
      }
    }
  }

  lemma PrefixDistinct(rules: seq<InputRule>, k: nat)
    requires RulesDistinct(rules) && k <= |rules|
    ensures RulesDistinct(rules[..k])
  {
    hide Fingerprint;
  }

  lemma RowEncodes(r: InputRule, i: int)
    ensures RowOf(r, i).ruleJson.Encodes?
  {
  }

  lemma NothingInserted(rules: seq<InputRule>, acls: seq<Rule>, table: Table, live: set<Rule>)
    requires |acls| == CountEnabled(rules)
    ensures CountEnabled(rules[..0]) == 0
    ensures InsertRows(LiveRules(acls, table), MetaRows(rules[..0]), live) ==
            Expected(rules[..0], acls[..0], table) + LiveRules(acls[0..], table)
  {
    assert rules[..0] == [] && acls[0..] == acls;
  }

  lemma Regroup<T>(a: seq<T>, x: T, b: seq<T>)
    ensures a + ([x] + b) == a + [x] + b
  {
  }

  lemma InsertAtEnd(front: seq<ModelRule>, back: seq<ModelRule>, row: RuleMeta)
    requires row.ruleJson.Encodes? && row.position == |front|
    ensures InsertRow(front + back, row) == front + [DisabledRule(row)] + back
  {
    assert (front + back)[..|front|] == front && (front + back)[|front|..] == back;
  }

  lemma OneMoreRow(start: seq<ModelRule>, rows: seq<RuleMeta>, rows': seq<RuleMeta>, r: InputRule, j: nat,
                   live: set<Rule>)
    requires rows' == rows + (if NeedsRow(r) then [RowOf(r, j)] else [])
    requires !r.enabled ==> Fingerprint(r.AsRule()) !in live
    ensures InsertRows(start, rows', live) ==
            if r.enabled then InsertRows(start, rows, live) else InsertRow(InsertRows(start, rows, live), RowOf(r, j))
  {
    hide Fingerprint, InsertRow;
    RowIs(r, j);
    if NeedsRow(r) {
      assert rows'[..|rows'| - 1] == rows;
    } else {
      assert rows' == rows;
    }
  }

  /** Without its last rule a list's enabled rules are still the live ones, less the last if that was enabled. */
  lemma EnabledInit(rules: seq<InputRule>, acls: seq<Rule>)
    requires rules != [] && Fingerprints(acls) == Fingerprints(EnabledRules(rules))
    ensures var init, r := rules[..|rules| - 1], rules[|rules| - 1];
            if r.enabled then
              && acls != [] && Fingerprint(acls[|acls| - 1]) == Fingerprint(r.AsRule())
              && Fingerprints(acls[..|acls| - 1]) == Fingerprints(EnabledRules(init))
            else Fingerprints(acls) == Fingerprints(EnabledRules(init))
  {
    hide Fingerprint, InputRule.AsRule;
    var init, r := rules[..|rules| - 1], rules[|rules| - 1];
    var es, fs := EnabledRules(init), EnabledRules(rules);
    assert |Fingerprints(acls)| == |acls| && |Fingerprints(fs)| == |fs|;
    if r.enabled {
      assert fs == es + [r.AsRule()];
      assert Fingerprints(acls)[|es|] == Fingerprints(fs)[|es|];
      forall x | 0 <= x < |es| ensures Fingerprint(acls[x]) == Fingerprint(es[x]) {
        assert Fingerprints(acls)[x] == Fingerprints(fs)[x];
      }
    } else {
      assert fs == es + [] == es;
    }
  }

  /** Rule i is shown as submitted when the table holds its row, or no row if it needs none. */
  lemma {:induction false} ExpectedShows(rules: seq<InputRule>, acls: seq<Rule>, table: Table, i: nat)
    requires |acls| == CountEnabled(rules) && Fingerprints(acls) == Fingerprints(EnabledRules(rules)) && i < |rules|
    requires var fp := Fingerprint(rules[i].AsRule());
             if NeedsRow(rules[i]) then fp in table && table[fp] == RowOf(rules[i], i) else fp !in table
    ensures Shows(Expected(rules, acls, table)[i], rules[i])
  {
    hide Fingerprint, InputRule.AsRule, EnabledRules;
    var last := |rules| - 1;
    var init, r := rules[..last], rules[last];
    EnabledStep(rules, last);
    assert rules[..last + 1] == rules;
    EnabledInit(rules, acls);
    if i == last {
      PositionOf(r, last);
    } else {
      assert init[i] == rules[i];
      ExpectedShows(init, if r.enabled then acls[..|acls| - 1] else acls, table, i);
    }
  }

  lemma {:induction false} EnabledSource(rules: seq<InputRule>, r: Rule)
    requires r in EnabledRules(rules)
    ensures exists j :: 0 <= j < |rules| && rules[j].enabled && rules[j].AsRule() == r
  {
    var init, last := rules[..|rules| - 1], rules[|rules| - 1];
    if r in EnabledRules(init) {
      EnabledSource(init, r);
      var j :| 0 <= j < |init| && init[j].enabled && init[j].AsRule() == r;
      assert rules[j] == init[j];
    } else {
      assert rules[|rules| - 1].AsRule() == r;
    }
  }

  lemma DisabledNotLive(rules: seq<InputRule>, acls: seq<Rule>, i: nat)
    requires RulesDistinct(rules) && Fingerprints(acls) == Fingerprints(EnabledRules(rules))
    requires i < |rules| && !rules[i].enabled
    ensures Fingerprint(rules[i].AsRule()) !in LiveSet(acls)
  {
    hide Fingerprint;
    var es := EnabledRules(rules);
    assert |Fingerprints(acls)| == |Fingerprints(es)|;
    forall x | 0 <= x < |acls| ensures Fingerprint(acls[x]) != Fingerprint(rules[i].AsRule()) {
      assert Fingerprints(acls)[x] == Fingerprints(es)[x];
      assert es[x] in es;
      EnabledSource(rules, es[x]);
      var j :| 0 <= j < |rules| && rules[j].enabled && rules[j].AsRule() == es[x];
    }
  }

  /** Loading after a save shows the submitted list: the same rules in the same order, each with its name,
      description and flag. The live policy holds the enabled rules, the table the rows written. */
  lemma SavedListIsShown(rules: seq<InputRule>, acls: seq<Rule>, rows: seq<RuleMeta>)
    requires RulesDistinct(rules) && Fingerprints(acls) == Fingerprints(EnabledRules(rules))
    requires Listing(TableOf(MetaRows(rules)), rows)
    ensures |ModelRules(acls, rows)| == |rules|
    ensures forall i | 0 <= i < |rules| :: Shows(ModelRules(acls, rows)[i], rules[i])
  {
    hide Fingerprint, LiveRule, MetaRows, RulesDistinct, TableOf, EnabledRules, Expected, InsertRows, LiveSet,
         NeedsRow, RowOf;
    ListedIsWritten(rules, rows);
    var table := TableOf(rows);
    assert |Fingerprints(acls)| == |Fingerprints(EnabledRules(rules))|;
    forall i | 0 <= i < |rules| && !rules[i].enabled ensures Fingerprint(rules[i].AsRule()) !in LiveSet(acls) {
      DisabledNotLive(rules, acls, i);
    }
    Reinserted(rules, acls, table, LiveSet(acls), |rules|);
    assert rules[..|rules|] == rules && acls[..|acls|] == acls && acls[|acls|..] == [];
    assert LiveRules([], table) == [];
    forall i | 0 <= i < |rules| ensures Shows(ModelRules(acls, rows)[i], rules[i]) {
      TableHoldsRows(rules, i);
      ExpectedShows(rules, acls, table, i);
    }
  }

  lemma TableHoldsRows(rules: seq<InputRule>, j: nat)
    requires RulesDistinct(rules) && j < |rules|
    ensures var t := TableOf(MetaRows(rules));
            var fp := Fingerprint(rules[j].AsRule());
            if NeedsRow(rules[j]) then fp in t && t[fp] == RowOf(rules[j], j) else fp !in t
  {
    hide Fingerprint, MetaRows, TableOf;
    var rows := MetaRows(rules);
    MetaRowsDistinct(rules);
    TableOfRows(rows);
    var t := TableOf(rows);
    var fp := Fingerprint(rules[j].AsRule());
    RowIs(rules[j], j);
    if NeedsRow(rules[j]) {
      OwnRow(rules, j);
    } else {
      RowsDescribe(rules);
      forall row | row in rows ensures row.fingerprint != fp { RowIs(rules[row.position], row.position); }
    }
  }
}

/** In which order disabled rules come back (internal/policy/model.go). */
module RuleOrder {
  import opened AclModel
  import opened RuleList

  /** Each shown row lands after the one shown before it, the list growing from n rules by one row each time. */
  predicate SlotsApart(rows: seq<RuleMeta>, n: nat) {
    forall i | 0 <= i && i + 1 < |rows| :: Slot(rows[i].position, n + i) < Slot(rows[i + 1].position, n + i + 1)
  }

  /** Rows at different positions that are not negative always land apart, however large the positions are. */
  lemma PositionsSuffice(rows: seq<RuleMeta>, n: nat)
    requires SortedByPosition(rows)
    requires forall i | 0 <= i && i + 1 < |rows| :: 0 <= rows[i].position && rows[i].position != rows[i + 1].position
    ensures SlotsApart(rows, n)
  {
    forall i | 0 <= i && i + 1 < |rows| ensures Slot(rows[i].position, n + i) < Slot(rows[i + 1].position, n + i + 1) {
      assert rows[i].position <= rows[i + 1].position;
    }
  }

  /** No disabled rule sits at or after index p. */
  predicate NoneFrom(rules: seq<ModelRule>, p: int) {
    forall i | 0 <= i < |rules| && p <= i :: rules[i].enabled
  }

  lemma {:induction false} NoDisabledTail(rules: seq<ModelRule>)
    requires NoneFrom(rules, 0)
    ensures Disabled(rules) == []
  {
    if rules != [] { NoDisabledTail(rules[..|rules| - 1]); }
  }

  lemma {:induction false} InsertAfterAll(rules: seq<ModelRule>, row: RuleMeta)
    requires row.ruleJson.Encodes? && NoneFrom(rules, Slot(row.position, |rules|))
    ensures Disabled(InsertRow(rules, row)) == Disabled(rules) + [DisabledRule(row)]
    ensures NoneFrom(InsertRow(rules, row), Slot(row.position, |rules|) + 1)
  {
    hide Disabled, Enabled, Slot;
    InsertSplits(rules, row);
    var p := Slot(row.position, |rules|);
    assert forall i | 0 <= i < |rules[p..]| :: rules[p..][i] == rules[p + i];
    NoDisabledTail(rules[p..]);
    var r := InsertRow(rules, row);
    assert forall i | p + 1 <= i < |r| :: r[i] == rules[i - 1];
  }

  lemma ShownStep(rules: seq<ModelRule>, rows: seq<RuleMeta>, live: set<Rule>)
    requires rows != []
    ensures var init, row := rows[..|rows| - 1], rows[|rows| - 1];
            var t, before := ShownRows(init, live), InsertRows(rules, init, live);
            if Shown(row, live)
            then ShownRows(rows, live) == t + [row] && InsertRows(rules, rows, live) == InsertRow(before, row)
            else ShownRows(rows, live) == t && InsertRows(rules, rows, live) == before
  {
    hide InsertRow;
  }

  /** The list grows by the shown rows. */
  lemma {:induction false} InsertedCount(rules: seq<ModelRule>, rows: seq<RuleMeta>, live: set<Rule>)
    ensures |InsertRows(rules, rows, live)| == |rules| + |ShownRows(rows, live)|
  {
    if rows != [] {
      hide ShownRows, InsertRows;
      ShownStep(rules, rows, live);
      InsertedCount(rules, rows[..|rows| - 1], live);
    }
  }

  /** The last row shown is where it was put. */
  lemma {:induction false} LastInserted(rules: seq<ModelRule>, rows: seq<RuleMeta>, live: set<Rule>)
    requires ShownRows(rows, live) != []
    ensures var s, out := ShownRows(rows, live), InsertRows(rules, rows, live);
            var last := s[|s| - 1];
            |out| == |rules| + |s| && last in s && out[Slot(last.position, |out| - 1)] == DisabledRule(last)
  {
    hide ShownRows, InsertRows, InsertRow, DisabledRule, Slot;
    InsertedCount(rules, rows, live);
    if rows == [] {
      NoRowsShown(live);
    } else {
      var init, row := rows[..|rows| - 1], rows[|rows| - 1];
      ShownStep(rules, rows, live);
      if Shown(row, live) {
        InsertedThere(InsertRows(rules, init, live), row);
      } else {
        LastInserted(rules, init, live);
      }
    }
  }

  lemma NoRowsShown(live: set<Rule>)
    ensures ShownRows([], live) == []
  {
  }

  lemma InsertedThere(rules: seq<ModelRule>, row: RuleMeta)
    requires row.ruleJson.Encodes?
    ensures var out := InsertRow(rules, row);
            |out| == |rules| + 1 && out[Slot(row.position, |rules|)] == DisabledRule(row)
  {
  }

  /** What a list built from shown rows keeps while they land apart. */
  ghost predicate InOrder(out: seq<ModelRule>, s: seq<RuleMeta>)
    requires forall x | x in s :: x.ruleJson.Encodes?
  {
    && Disabled(out) == DisabledRules(s)
    && NoneFrom(out, if s == [] then 0 else Slot(s[|s| - 1].position, |out| - 1) + 1)
  }

  lemma {:induction false} InOrderStep(before: seq<ModelRule>, t: seq<RuleMeta>, row: RuleMeta, n: nat)
    requires row.ruleJson.Encodes? && forall x | x in t :: x.ruleJson.Encodes?
    requires InOrder(before, t) && |before| == n + |t| && SlotsApart(t + [row], n)
    ensures InOrder(InsertRow(before, row), t + [row])
  {
    hide Disabled, NoneFrom, DisabledRule, SlotsApart, Slot;
    var s := t + [row];
    SlotsApartInit(t, row, n);
    NoneFromLater(
      before, if t == [] then 0 else Slot(t[|t| - 1].position, |before| - 1) + 1, Slot(row.position, |before|));
    InsertAfterAll(before, row);
    assert DisabledRules(s) == DisabledRules(t) + [DisabledRule(row)];
  }

  lemma {:induction false} OrderKept(rules: seq<ModelRule>, rows: seq<RuleMeta>, live: set<Rule>)
    requires NoneFrom(rules, 0) && SlotsApart(ShownRows(rows, live), |rules|)
    ensures InOrder(InsertRows(rules, rows, live), ShownRows(rows, live))
  {
    hide InsertRow, Disabled, Slot, NoneFrom, DisabledRule, SlotsApart, InOrder;
    if rows == [] {
      NothingInOrder(rules);
    } else {
      var init, row := rows[..|rows| - 1], rows[|rows| - 1];
      var t := ShownRows(init, live);
      InsertedCount(rules, init, live);
      if Shown(row, live) {
        assert ShownRows(rows, live) == t + [row];
        SlotsApartInit(t, row, |rules|);
        OrderKept(rules, init, live);
        InOrderStep(InsertRows(rules, init, live), t, row, |rules|);
      } else {
        assert ShownRows(rows, live) == t + [] == t;
        OrderKept(rules, init, live);
      }
    }
  }

  lemma NothingInOrder(rules: seq<ModelRule>)
    requires NoneFrom(rules, 0)
    ensures InOrder(rules, [])
  {
    hide Disabled;
    NoDisabledTail(rules);
  }

  lemma SlotsApartInit(t: seq<RuleMeta>, row: RuleMeta, n: nat)
    requires SlotsApart(t + [row], n)
    ensures SlotsApart(t, n)
    ensures t != [] ==> Slot(t[|t| - 1].position, n + |t| - 1) < Slot(row.position, n + |t|)
  {
    hide Slot;
    var s := t + [row];
    assert forall i | 0 <= i < |t| :: s[i] == t[i];
    if t != [] { assert s[|t| - 1] == t[|t| - 1] && s[|t| - 1 + 1] == row; }
  }

  lemma NoneFromLater(rules: seq<ModelRule>, p: int, q: int)
    requires NoneFrom(rules, p) && p <= q
    ensures NoneFrom(rules, q)
  {
  }

  /** a stands before b. */
  ghost predicate Before(s: seq<ModelRule>, a: ModelRule, b: ModelRule) {
    exists i, j :: 0 <= i < j < |s| && s[i] == a && s[j] == b
  }

  lemma BeforeInWhole(x: seq<ModelRule>, m: seq<ModelRule>, y: seq<ModelRule>, a: ModelRule, b: ModelRule)
    requires Before(x + y, a, b)
    ensures Before(x + m + y, a, b)
  {
    var s, t := x + y, x + m + y;
    var i, j :| 0 <= i < j < |s| && s[i] == a && s[j] == b;
    var i', j' := if i < |x| then i else i + |m|, if j < |x| then j else j + |m|;
    assert t[i'] == a && t[j'] == b;
  }

  lemma {:induction false} BeforeStays(rules: seq<ModelRule>, rows: seq<RuleMeta>, live: set<Rule>, k: nat,
                                       a: ModelRule, b: ModelRule)
    requires k <= |rows| && Before(Disabled(InsertRows(rules, rows[..k], live)), a, b)
    ensures Before(Disabled(InsertRows(rules, rows, live)), a, b)
    decreases |rows|
  {
    hide InsertRow, Disabled, Before;
    if k < |rows| {
      var init, row := rows[..|rows| - 1], rows[|rows| - 1];
      assert init[..k] == rows[..k];
      BeforeStays(rules, init, live, k, a, b);
      if Shown(row, live) {
        var before := InsertRows(rules, init, live);
        InsertSplits(before, row);
        var p := Slot(row.position, |before|);
        BeforeInWhole(Disabled(before[..p]), [DisabledRule(row)], Disabled(before[p..]), a, b);
      }
    } else {
      assert rows[..k] == rows;
    }
  }

  /** Where the shown row j stands among all rows. */
  lemma {:induction false} ShownPrefix(rows: seq<RuleMeta>, live: set<Rule>, j: nat) returns (y: nat)
    requires j < |ShownRows(rows, live)|
    ensures y < |rows| && rows[y] == ShownRows(rows, live)[j] &&
            ShownRows(rows[..y], live) == ShownRows(rows, live)[..j]
  {
    var init := rows[..|rows| - 1];
    var s, t := ShownRows(rows, live), ShownRows(init, live);
    if j < |t| {
      y := ShownPrefix(init, live, j);
      assert init[..y] == rows[..y] && s[..j] == t[..j];
    } else {
      y := |rows| - 1;
      assert s[..j] == t;
    }
  }

  lemma {:induction false} ShownDistinct(rows: seq<RuleMeta>, live: set<Rule>)
    requires RowsDistinct(rows)
    ensures RowsDistinct(ShownRows(rows, live))
  {
    if rows != [] {
      var init, row := rows[..|rows| - 1], rows[|rows| - 1];
      ShownDistinct(init, live);
      forall r | r in ShownRows(init, live) ensures r.fingerprint != row.fingerprint {
        var k :| 0 <= k < |init| && init[k] == r;
      }
    }
  }

  lemma FrontIsBefore(x: ModelRule, s: seq<ModelRule>, y: ModelRule)
    requires y in s
    ensures Before([x] + s, x, y)
  {
    var k :| 0 <= k < |s| && s[k] == y;
    assert ([x] + s)[0] == x && ([x] + s)[k + 1] == y;
  }

  /** A disabled rule at or after the place a row is put comes to stand behind it. */
  lemma {:induction false} PutInFront(rules: seq<ModelRule>, row: RuleMeta, i: nat)
    requires row.ruleJson.Encodes? && Slot(row.position, |rules|) <= i < |rules| && !rules[i].enabled
    ensures Before(Disabled(InsertRow(rules, row)), DisabledRule(row), rules[i])
  {
    hide Disabled, Before, Slot;
    var p := Slot(row.position, |rules|);
    InsertSplits(rules, row);
    var front, back := Disabled(rules[..p]), Disabled(rules[p..]);
    DisabledHolds(rules[p..], i - p);
    FrontIsBefore(DisabledRule(row), back, rules[i]);
    BeforeAfter(front, [DisabledRule(row)] + back, DisabledRule(row), rules[i]);
    assert front + ([DisabledRule(row)] + back) == front + [DisabledRule(row)] + back;
  }

  lemma {:induction false} DisabledHolds(rules: seq<ModelRule>, i: nat)
    requires i < |rules| && !rules[i].enabled
    ensures rules[i] in Disabled(rules)
  {
    if i < |rules| - 1 { DisabledHolds(rules[..|rules| - 1], i); }
  }

  lemma BeforeAfter(x: seq<ModelRule>, y: seq<ModelRule>, a: ModelRule, b: ModelRule)
    requires Before(y, a, b)
    ensures Before(x + y, a, b)
  {
    var i, j :| 0 <= i < j < |y| && y[i] == a && y[j] == b;
    assert (x + y)[|x| + i] == a && (x + y)[|x| + j] == b;
  }

  /** When a shown row does not land after the one before it, it lands in front of it. */
  lemma {:induction false} OrderLost(rules: seq<ModelRule>, rows: seq<RuleMeta>, live: set<Rule>, i: nat)
    requires RowsDistinct(rows) && i + 1 < |ShownRows(rows, live)|
    requires var s := ShownRows(rows, live);
             Slot(s[i].position, |rules| + i) >= Slot(s[i + 1].position, |rules| + i + 1)
    ensures Disabled(InsertRows(rules, rows, live)) != DisabledRules(ShownRows(rows, live))
  {
    hide InsertRow, Disabled, Before, ShownRows, RowsDistinct, Slot;
    var s := ShownRows(rows, live);
    var y := ShownPrefix(rows, live, i + 1);
    var a, b := s[i], s[i + 1];
    var upTo := rows[..y + 1];
    assert upTo[..|upTo| - 1] == rows[..y] && upTo[|upTo| - 1] == b;
    var before := InsertRows(rules, rows[..y], live);
    assert s[..i + 1][i] == a && b in s && a in s;
    LastInserted(rules, rows[..y], live);
    assert before[Slot(a.position, |rules| + i)] == DisabledRule(a);
    PutInFront(before, b, Slot(a.position, |rules| + i));
    assert InsertRows(rules, upTo, live) == InsertRow(before, b);
    BeforeStays(rules, rows, live, y + 1, DisabledRule(b), DisabledRule(a));
    ShownDistinct(rows, live);
    NotBefore(s, i, i + 1);
  }

  lemma NotBefore(s: seq<RuleMeta>, i: nat, j: nat)
    requires RowsDistinct(s) && i < j < |s| && forall x | x in s :: x.ruleJson.Encodes?
    ensures !Before(DisabledRules(s), DisabledRule(s[j]), DisabledRule(s[i]))
  {
  }

  /** Whatever the table holds and however equal positions are listed, the disabled rules appear in stored order
      exactly when each lands after the one before it. */
  lemma {:induction false} StoredOrderShown(acls: seq<Rule>, rows: seq<RuleMeta>)
    requires RowsDistinct(rows)
    ensures Disabled(ModelRules(acls, rows)) == DisabledRules(ShownRows(rows, LiveSet(acls)))
            <==> SlotsApart(ShownRows(rows, LiveSet(acls)), |acls|)
  {
    hide Disabled, LiveRules, LiveSet, InsertRows, ShownRows, DisabledRules, SlotsApart, TableOf, RowsDistinct;
    var table := TableOf(rows);
    LiveAreEnabled(acls, table);
    InsertedInOrder(LiveRules(acls, table), rows, LiveSet(acls));
  }

  lemma InsertedInOrder(rules: seq<ModelRule>, rows: seq<RuleMeta>, live: set<Rule>)
    requires RowsDistinct(rows) && NoneFrom(rules, 0)
    ensures Disabled(InsertRows(rules, rows, live)) == DisabledRules(ShownRows(rows, live))
            <==> SlotsApart(ShownRows(rows, live), |rules|)
  {
    hide Disabled, InsertRows, ShownRows, DisabledRules, Slot, RowsDistinct, NoneFrom;
    var s := ShownRows(rows, live);
    if SlotsApart(s, |rules|) {
      OrderKept(rules, rows, live);
    } else {
      var i :| 0 <= i && i + 1 < |s| && Slot(s[i].position, |rules| + i) >= Slot(s[i + 1].position, |rules| + i + 1);
      OrderLost(rules, rows, live, i);
    }
  }

  lemma LiveAreEnabled(acls: seq<Rule>, table: Table)
    ensures NoneFrom(LiveRules(acls, table), 0)
  {
  }

  /** Two disabled rules stored at positions -2 and -1, listed in that order, come back in the other. */
  lemma NegativePositionsSwap(x: RuleMeta, y: RuleMeta)
    requires x.position == -2 && y.position == -1 && x.fingerprint != y.fingerprint
    requires !x.enabled && !y.enabled && x.ruleJson.Encodes? && y.ruleJson.Encodes?
    ensures ModelRules([], [x, y]) == [DisabledRule(y), DisabledRule(x)]
  {
    var rows := [x, y];
    var live := LiveSet([]);
    assert live == {} && LiveRules([], TableOf(rows)) == [];
    assert rows[..1] == [x] && rows[..1][..0] == [];
    assert InsertRows([], rows[..1], live) == [DisabledRule(x)];
    assert InsertRows([], rows, live) == [DisabledRule(y)] + [DisabledRule(x)];
  }
}

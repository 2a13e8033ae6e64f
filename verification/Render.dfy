/** Rendering new document parts (internal/aclmodel/patch.go, "rendering"), and the proof that
    decoding undoes it. */
module Render {
  import opened Base
  import opened Text
  import opened Tree
  import opened AclModel
  import opened CanonicalJson

  function Plain(v: Value): Node { Node("", v, None) }

  function Text1(s: string): Node { Plain(Str(s)) }

  /** A value that follows ": " or ", ". */
  function Spaced(n: Node): Node { n.(before := " ") }

  function OwnLine(n: Node, indent: string): Node { n.(before := "\n" + indent) }

  /** Elements on one line. */
  function Inline(items: seq<Node>): Node {
    Plain(Arr(seq(|items|, i requires 0 <= i < |items| => if i == 0 then items[i] else Spaced(items[i])), ""))
  }

  function RenderStrings(ss: seq<string>): Node {
    Inline(seq(|ss|, i requires 0 <= i < |ss| => Text1(ss[i])))
  }

  /** One entry per line, in key order; ind is the indentation of the object's own key. */
  function RenderBlock<T>(m: map<string, T>, render: T -> Node, ind: string, unit: string): Node {
    var ks := Sorted(m.Keys);
    Plain(Obj(
      seq(|ks|, i requires 0 <= i < |ks| =>
        assert ks[i] in ks; Member("\n" + ind + unit, ks[i], "", Spaced(render(m[ks[i]])))),
      "\n" + ind))
  }

  /** One element per line. */
  function RenderList(items: seq<Node>, ind: string, unit: string): Node {
    Plain(Arr(seq(|items|, i requires 0 <= i < |items| => OwnLine(items[i], ind + unit)), "\n" + ind))
  }

  function RenderApprovers(routes: ListMap, exitNode: seq<string>, ind: string, unit: string): Node {
    Plain(Obj(
      (if |routes| > 0 then
         [Member("\n" + ind + unit, "routes", "", Spaced(RenderBlock(routes, RenderStrings, ind + unit, unit)))]
       else []) +
      (if exitNode != [] then [Member("\n" + ind + unit, "exitNode", "", Spaced(RenderStrings(exitNode)))] else []),
      "\n" + ind))
  }

  function RenderRule(rule: Rule): Node {
    var r := Normalize(rule);
    Plain(Obj(
      [Member("", "action", "", Spaced(Text1(r.action)))] +
      (if r.proto != "" then [Member(" ", "proto", "", Spaced(Text1(r.proto)))] else []) +
      [Member(" ", "src", "", Spaced(RenderStrings(r.src))), Member(" ", "dst", "", Spaced(RenderStrings(r.dst)))],
      ""))
  }

  const PREFERRED_KEY_ORDER: seq<string> := [
    "action", "checkPeriod", "src", "dst", "target", "ip", "proto", "users",
    "attr", "ipPool", "via", "app", "acceptEnv", "accept", "deny", "check"
  ]

  /** Members spelled like a preferred key, in preference order. */
  function PreferredNames(names: set<string>, order: seq<string>): seq<string> {
    if order == [] then []
    else Sorted(set k | k in names && EqualFold(k, order[0])) + PreferredNames(names, order[1..])
  }

  function RenderKeys(names: set<string>, top: bool): seq<string> {
    var first := if top then PreferredNames(names, PREFERRED_KEY_ORDER) else [];
    first + Sorted(names - (set k | k in first))
  }

  predicate FoldApart(order: seq<string>) {
    forall i, j | 0 <= i < j < |order| :: !EqualFold(order[i], order[j])
  }

  lemma {:induction false} PreferredNamesOnce(names: set<string>, order: seq<string>)
    requires FoldApart(order)
    ensures Distinct(PreferredNames(names, order))
    ensures forall k | k in PreferredNames(names, order) ::
              k in names && exists i :: 0 <= i < |order| && EqualFold(k, order[i])
  {
    if order != [] {
      var head := Sorted(set k | k in names && EqualFold(k, order[0]));
      var tail := PreferredNames(names, order[1..]);
      PreferredNamesOnce(names, order[1..]);
      forall k | k in tail
        ensures k in names && !EqualFold(k, order[0]) && exists i :: 0 <= i < |order| && EqualFold(k, order[i])
      {
        var i :| 0 <= i < |order[1..]| && EqualFold(k, order[1..][i]);
        assert order[1..][i] == order[i + 1];
      }
      assert forall k | k in head :: EqualFold(k, order[0]) && k in names;
      DistinctConcat(head, tail);
    }
  }

  lemma DistinctConcat<T>(a: seq<T>, b: seq<T>)
    requires Distinct(a) && Distinct(b) && forall x | x in a :: x !in b
    ensures Distinct(a + b)
  {
    forall i, j | 0 <= i < j < |a + b| ensures (a + b)[i] != (a + b)[j] {
      if i < |a| <= j { assert a[i] in a && b[j - |a|] in b; }
    }
  }

  /** Length, first and last character, all up to case. */
  function Shape(s: string): (nat, char, char)
    requires s != []
  {
    (|s|, FoldChar(s[0]), FoldChar(s[|s| - 1]))
  }

  lemma EqualFoldKeepsShape(a: string, b: string)
    requires a != [] && b != []
    ensures EqualFold(a, b) ==> Shape(a) == Shape(b)
  {
    assert |Fold(a)| == |a| && |Fold(b)| == |b|;
    assert Shape(a) == (|Fold(a)|, Fold(a)[0], Fold(a)[|a| - 1]);
    assert Shape(b) == (|Fold(b)|, Fold(b)[0], Fold(b)[|b| - 1]);
  }

  lemma PreferredKeysFoldApart()
    ensures FoldApart(PREFERRED_KEY_ORDER)
  {
    var o := PREFERRED_KEY_ORDER;
    forall i, j | 0 <= i < j < |o| ensures !EqualFold(o[i], o[j]) {
      EqualFoldKeepsShape(o[i], o[j]);
    }
  }

  /** Every member is written exactly once, whatever the spelling of its name. */
  lemma RenderKeysOnce(names: set<string>, top: bool)
    ensures Distinct(RenderKeys(names, top))
    ensures forall k :: k in RenderKeys(names, top) <==> k in names
  {
    PreferredKeysFoldApart();
    PreferredNamesOnce(names, PREFERRED_KEY_ORDER);
    var first := if top then PreferredNames(names, PREFERRED_KEY_ORDER) else [];
    DistinctConcat(first, Sorted(names - (set k | k in first)));
  }

  /** A canonical value on one line. */
  function RenderValue(c: CVal, top: bool): Node {
    match c
    case CNull => Plain(Null)
    case CBool(b) => Plain(Bool(b))
    case CNum(t) => Plain(Num(t))
    case CStr(s) => Text1(s)
    case CArr(items) => Inline(seq(|items|, i requires 0 <= i < |items| => RenderValue(items[i], false)))
    case CObj(fields) =>
      RenderKeysOnce(fields.Keys, top);
      var ks := RenderKeys(fields.Keys, top);
      Plain(Obj(seq(|ks|, i requires 0 <= i < |ks| =>
        assert ks[i] in ks;
        Member(if i == 0 then "" else " ", ks[i], "", Spaced(RenderValue(fields[ks[i]], false)))), ""))
  }

  function RenderCanonical(c: CVal): Node { RenderValue(c, true) }

  // ---- decoding undoes rendering ----

  lemma LayoutIsNotContent(n: Node, before: Extra, after: Option<Extra>)
    ensures Std(n.(before := before)) == Std(n) && Std(n.(after := after)) == Std(n)
  {
  }

  lemma StdOfInline(items: seq<Node>)
    ensures Std(Inline(items)) == JArr(StdElems(items))
  {
    StdOfComposite(Inline(items));
  }

  lemma StringsReadBack(ss: seq<string>)
    ensures ReadStrings(Std(RenderStrings(ss))) == Some(ss)
  {
    StdOfInline(seq(|ss|, i requires 0 <= i < |ss| => Text1(ss[i])));
    var j := Std(RenderStrings(ss));
    assert |j.items| == |ss| && forall i | 0 <= i < |ss| :: j.items[i] == JStr(ss[i]);
    assert forall x | x in j.items :: ReadString(x).Some?;
    assert ReadStrings(j).value == ss;
  }

  /** Listing every key of a map with its value gives the map back. */
  lemma ViewOfListing<V>(ks: seq<string>, ms: seq<(string, V)>, m: map<string, V>)
    requires forall k :: k in ks <==> k in m
    requires |ms| == |ks| && forall i | 0 <= i < |ks| :: ms[i].0 == ks[i] && ks[i] in m && ms[i].1 == m[ks[i]]
    ensures View(ms) == m
  {
    hide View;
    ViewKeys(ms);
    forall k | k in m ensures k in View(ms) && View(ms)[k] == m[k] {
      assert k in ks;
      var i :| 0 <= i < |ks| && ks[i] == k;
      assert ms[i].0 in View(ms);
      var j :| 0 <= j < |ms| && ms[j].0 == k && ms[j].1 == View(ms)[k];
    }
    assert View(ms).Keys == m.Keys;
  }

  lemma BlockView<T>(m: map<string, T>, render: T -> Node, ind: string, unit: string)
    ensures Std(RenderBlock(m, render, ind, unit)).JObj?
    ensures View(Std(RenderBlock(m, render, ind, unit)).members) == map k | k in m :: Std(render(m[k]))
  {
    hide Sorted, View, Std;
    var n := RenderBlock(m, render, ind, unit);
    var ks := Sorted(m.Keys);
    StdOfComposite(n);
    var ms := StdMembers(n.value.members);
    var want := map k | k in m :: Std(render(m[k]));
    forall i | 0 <= i < |ks| ensures ms[i].0 == ks[i] && ks[i] in want && ms[i].1 == want[ks[i]] {
      assert ks[i] in ks;
      LayoutIsNotContent(render(m[ks[i]]), " ", None);
    }
    ViewOfListing(ks, ms, want);
  }

  /** Reading a rendered value back gives the value: no member is lost, doubled or changed. */
  lemma {:induction false} CanonUndoesRender(c: CVal, top: bool)
    ensures Canon(Std(RenderValue(c, top))) == c
    decreases c
  {
    match c
    case CArr(items) =>
      var ns := seq(|items|, i requires 0 <= i < |items| => RenderValue(items[i], false));
      StdOfInline(ns);
      forall i | 0 <= i < |items| ensures Canon(Std(ns[i])) == items[i] {
        CanonUndoesRender(items[i], false);
      }
      assert Canon(JArr(StdElems(ns))).items == items;
    case CObj(fields) =>
      RenderKeysOnce(fields.Keys, top);
      var ks := RenderKeys(fields.Keys, top);
      var n := RenderValue(c, top);
      StdOfComposite(n);
      var ms := StdMembers(n.value.members);
      var js := seq(|ms|, i requires 0 <= i < |ms| => (ms[i].0, Canon(ms[i].1)));
      forall i | 0 <= i < |ks|
        ensures js[i].0 == ks[i] && ks[i] in fields && js[i].1 == fields[ks[i]]
      {
        assert ks[i] in ks;
        LayoutIsNotContent(RenderValue(fields[ks[i]], false), " ", None);
        CanonUndoesRender(fields[ks[i]], false);
      }
      ViewOfListing(ks, js, fields);
      assert Canon(Std(n)) == CObj(View(js));
    case _ =>
  }

  lemma SingleSpelling(v: map<string, Json>, field: string)
    requires field != []
    requires forall k | k in v :: EqualFold(k, field) <==> k == field
    ensures Sorted(Spellings(v, field)) == if field in v then [field] else []
  {
    assert Spellings(v, field) == if field in v then {field} else {};
    assert {field} - {field} == {};
    assert Sorted({field}) == [Least({field})] + Sorted({field} - {field});
  }

  predicate RuleName(k: string) { k == "action" || k == "proto" || k == "src" || k == "dst" }

  lemma RuleNamesFoldApart(k: string, f: string)
    requires RuleName(k) && RuleName(f)
    ensures EqualFold(k, f) <==> k == f
  {
    EqualFoldKeepsShape(k, f);
  }

  /** What decoding a rule's members yields when each field has one plain spelling. */
  lemma {:induction false} PlainRuleDecodes(ms: seq<(string, Json)>, v: map<string, Json>, r: Rule)
    requires View(ms) == v
    requires forall k | k in v :: RuleName(k)
    requires "action" in v && v["action"] == JStr(r.action)
    requires "src" in v && ReadStrings(v["src"]) == Some(r.src)
    requires "dst" in v && ReadStrings(v["dst"]) == Some(r.dst)
    requires if "proto" in v then v["proto"] == JStr(r.proto) else r.proto == ""
    ensures DecodeRule(JObj(ms)) == Ok(r)
  {
    hide Sorted, EqualFold, ReadStrings;
    forall k | k in v
      ensures EqualFold(k, "action") <==> k == "action"
      ensures EqualFold(k, "proto") <==> k == "proto"
      ensures EqualFold(k, "src") <==> k == "src"
      ensures EqualFold(k, "dst") <==> k == "dst"
    {
      RuleNamesFoldApart(k, "action");
      RuleNamesFoldApart(k, "proto");
      RuleNamesFoldApart(k, "src");
      RuleNamesFoldApart(k, "dst");
    }
    SingleSpelling(v, "action");
    SingleSpelling(v, "proto");
    SingleSpelling(v, "src");
    SingleSpelling(v, "dst");
    assert (map k | k in v && !IsMetadata(k) :: v[k]) == v;
    assert forall k | k in v :: RuleMemberOk(k, v[k]);
  }

  /** A rendered rule decodes as its normal form. */
  lemma RuleReadsBack(rule: Rule)
    ensures DecodeRule(Std(RenderRule(rule))) == Ok(Normalize(rule))
  {
    hide DecodeRule, View, Normalize;
    var r := Normalize(rule);
    var a := ("action", JStr(r.action));
    var p := if r.proto != "" then [("proto", JStr(r.proto))] else [];
    var s, d := ("src", Std(RenderStrings(r.src))), ("dst", Std(RenderStrings(r.dst)));
    LayoutIsNotContent(RenderStrings(r.src), " ", None);
    LayoutIsNotContent(RenderStrings(r.dst), " ", None);
    StdOfComposite(RenderRule(rule));
    assert StdMembers(RenderRule(rule).value.members) == [a] + p + [s, d];
    StringsReadBack(r.src);
    StringsReadBack(r.dst);
    EmptyView<Json>();
    ViewStep([], a);
    assert [] + [a] == [a];
    if p != [] { ViewStep([a], p[0]); assert [a] + p == [a] + [p[0]]; } else { assert [a] + p == [a]; }
    ViewStep([a] + p, s);
    ViewStep([a] + p + [s], d);
    assert [a] + p + [s] + [d] == [a] + p + [s, d];
    PlainRuleDecodes([a] + p + [s, d], View([a] + p + [s, d]), r);
  }

  /** The entries a decoder sees: those whose key is not metadata. */
  function NonMeta<T>(m: map<string, T>): map<string, T> {
    map k | k in m && !IsMetadata(k) :: m[k]
  }

  /** A rendered block decodes as its entries, except that keys starting with "#" are lost. */
  lemma BlockReadsBack<T>(m: map<string, T>, render: T -> Node, read: Json -> Option<T>, ind: string, unit: string)
    requires forall t: T | t in m.Values :: read(Std(render(t))) == Some(t)
    ensures DecodeMap(Std(RenderBlock(m, render, ind, unit)), read) == Ok(NonMeta(m))
  {
    hide View, Std, RenderBlock;
    BlockView(m, render, ind, unit);
    var v := View(Std(RenderBlock(m, render, ind, unit)).members);
    forall k | k in v && !IsMetadata(k) ensures read(v[k]) == Some(m[k]) {
      assert m[k] in m.Values;
    }
    assert (map k | k in v && !IsMetadata(k) :: read(v[k]).value) == NonMeta(m);
  }

  lemma ListReadsBack(items: seq<Node>, ind: string, unit: string)
    ensures Std(RenderList(items, ind, unit)) == JArr(StdElems(items))
  {
    var n := RenderList(items, ind, unit);
    StdOfComposite(n);
    forall i | 0 <= i < |items| ensures Std(n.value.elems[i]) == Std(items[i]) {
      LayoutIsNotContent(items[i], "\n" + (ind + unit), None);
    }
    assert StdElems(n.value.elems) == StdElems(items);
  }

  /** What decoding autoApprovers yields when "routes" and "exitNode" are plainly spelled. */
  lemma PlainApproversDecode(ms: seq<(string, Json)>, v: map<string, Json>)
    requires View(ms) == v && forall k | k in v :: k == "routes" || k == "exitNode"
    requires "routes" in v ==> !v["routes"].JNull? && DecodeMap(v["routes"], ReadStrings).Ok?
    requires "exitNode" in v ==> !v["exitNode"].JNull? && ReadStrings(v["exitNode"]).Some?
    ensures DecodeApprovers(JObj(ms)) == Ok(Approvers(
              if "routes" in v then Some("routes") else None,
              if "exitNode" in v then Some("exitNode") else None,
              if "routes" in v then Some(DecodeMap(v["routes"], ReadStrings).value) else None,
              if "exitNode" in v then ReadStrings(v["exitNode"]) else None))
  {
    hide Sorted, EqualFold, ReadStrings, DecodeMap, View;
    EqualFoldKeepsShape("routes", "exitNode");
    EqualFoldKeepsShape("exitNode", "routes");
    SameFold("routes");
    SameFold("exitNode");
    SingleSpelling(v, "routes");
    SingleSpelling(v, "exitNode");
  }

  lemma SameFold(k: string)
    ensures EqualFold(k, k)
  {
  }

  function Entry(k: string, j: Option<Json>): seq<(string, Json)> { if j.Some? then [(k, j.value)] else [] }

  lemma EntriesView(routes: Option<Json>, exitNode: Option<Json>)
    ensures View(Entry("routes", routes) + Entry("exitNode", exitNode)) ==
            (if routes.Some? then map["routes" := routes.value] else map[]) +
            (if exitNode.Some? then map["exitNode" := exitNode.value] else map[])
  {
    hide View;
    var rs, es := Entry("routes", routes), Entry("exitNode", exitNode);
    EmptyView<Json>();
    if rs != [] { ViewStep([], rs[0]); assert [] + rs == [rs[0]]; }
    if es != [] { ViewStep(rs, es[0]); assert rs + es == rs + [es[0]]; } else { assert rs + es == rs; }
  }

  lemma EntriesDecode(routes: Option<Json>, exitNode: Option<Json>)
    requires routes.Some? ==> !routes.value.JNull? && DecodeMap(routes.value, ReadStrings).Ok?
    requires exitNode.Some? ==> !exitNode.value.JNull? && ReadStrings(exitNode.value).Some?
    ensures DecodeApprovers(JObj(Entry("routes", routes) + Entry("exitNode", exitNode))) == Ok(Approvers(
              if routes.Some? then Some("routes") else None,
              if exitNode.Some? then Some("exitNode") else None,
              if routes.Some? then Some(DecodeMap(routes.value, ReadStrings).value) else None,
              if exitNode.Some? then ReadStrings(exitNode.value) else None))
  {
    hide DecodeApprovers, View, DecodeMap, ReadStrings, Entry;
    EntriesView(routes, exitNode);
    var ms := Entry("routes", routes) + Entry("exitNode", exitNode);
    PlainApproversDecode(ms, View(ms));
  }

  lemma ApproversStd(routes: ListMap, exitNode: seq<string>, ind: string, unit: string)
    ensures var block, strings := Std(RenderBlock(routes, RenderStrings, ind + unit, unit)),
                               Std(RenderStrings(exitNode));
            Std(RenderApprovers(routes, exitNode, ind, unit)) ==
            JObj(Entry("routes", if |routes| > 0 then Some(block) else None) +
                 Entry("exitNode", if exitNode != [] then Some(strings) else None))
  {
    hide RenderBlock, RenderStrings;
    var n := RenderApprovers(routes, exitNode, ind, unit);
    LayoutIsNotContent(RenderBlock(routes, RenderStrings, ind + unit, unit), " ", None);
    LayoutIsNotContent(RenderStrings(exitNode), " ", None);
    StdOfComposite(n);
    assert StdMembers(n.value.members) ==
           Entry("routes",
                 if |routes| > 0 then Some(Std(RenderBlock(routes, RenderStrings, ind + unit, unit))) else None) +
           Entry("exitNode", if exitNode != [] then Some(Std(RenderStrings(exitNode))) else None);
  }

  /** A rendered autoApprovers section decodes as the routes (but for "#" keys) and exit nodes given. */
  lemma ApproversReadBack(routes: ListMap, exitNode: seq<string>, ind: string, unit: string)
    ensures var r := DecodeApprovers(Std(RenderApprovers(routes, exitNode, ind, unit)));
            r.Ok? && r.value.Routes() == NonMeta(routes) && r.value.ExitNode() == exitNode
  {
    hide DecodeApprovers, RenderApprovers, RenderBlock, DecodeMap, ReadStrings, RenderStrings, Std, Entry;
    var block, strings := Std(RenderBlock(routes, RenderStrings, ind + unit, unit)), Std(RenderStrings(exitNode));
    ApproversStd(routes, exitNode, ind, unit);
    forall t: seq<string> ensures ReadStrings(Std(RenderStrings(t))) == Some(t) { StringsReadBack(t); }
    BlockReadsBack(routes, RenderStrings, ReadStrings, ind + unit, unit);
    BlockView(routes, RenderStrings, ind + unit, unit);
    StringsAreArray(exitNode);
    EntriesDecode(if |routes| > 0 then Some(block) else None, if exitNode != [] then Some(strings) else None);
    if |routes| == 0 { assert routes == map[] && NonMeta(routes) == map[]; }
  }

  lemma StringsAreArray(ss: seq<string>)
    ensures Std(RenderStrings(ss)).JArr?
  {
  }
}

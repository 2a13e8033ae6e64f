/** Planning a patch: the functions of internal/aclmodel/patch.go that turn a document and an input
    into JSON Patch operations. */
module Plan {
  import opened Base
  import opened Text
  import opened Pointer
  import opened Tree
  import opened AclModel
  import opened CanonicalJson
  import opened Render
  import Lcs

  // ---- indentation ----

  predicate IsIndent(s: string) { forall c | c in s :: c == ' ' || c == '\t' }

  /** The white space after the last newline of an extra, None when other text follows it. */
  function IndentOf(extra: Extra): (r: Option<string>)
    ensures r.Some? ==> IsIndent(r.value)
  {
    var i := LastIndex(extra, '\n');
    if i < 0 then None
    else if IsIndent(extra[i + 1..]) then Some(extra[i + 1..]) else None
  }

  function FirstIndent(ms: seq<Member>): (r: string)
    ensures IsIndent(r)
  {
    if ms == [] then "  "
    else
      var ind := IndentOf(ms[0].nameBefore);
      if ind.Some? && ind.value != "" then ind.value else FirstIndent(ms[1..])
  }

  /** The document's indentation, guessed from its top-level members. */
  function IndentUnit(root: Node): (r: string)
    ensures IsIndent(r)
  {
    if root.value.Obj? then FirstIndent(root.value.members) else "  "
  }

  // ---- maps ----

  function RemoveEdits<T>(ks: seq<string>, cur: map<string, T>): seq<ChildEdit> {
    if ks == [] then []
    else RemoveEdits(ks[..|ks| - 1], cur) + (if ks[|ks| - 1] in cur then [] else [ChildEdit(ks[|ks| - 1], Remove)])
  }

  predicate Differs<T(==)>(k: string, prior: map<string, T>, cur: map<string, T>)
    requires k in cur
  {
    k !in prior || prior[k] != cur[k]
  }

  function SetEdits<T(==)>(ks: seq<string>, prior: map<string, T>, cur: map<string, T>,
                           render: T -> Node): seq<ChildEdit>
    requires forall k | k in ks :: k in cur
  {
    if ks == [] then []
    else
      var k := ks[|ks| - 1];
      SetEdits(ks[..|ks| - 1], prior, cur, render) +
      (if k !in prior then [ChildEdit(k, Add(render(cur[k])))]
       else if prior[k] != cur[k] then [ChildEdit(k, Replace(render(cur[k])))]
       else [])
  }

  function MapEdits<T(==)>(prior: map<string, T>, cur: map<string, T>, render: T -> Node): seq<ChildEdit> {
    RemoveEdits(Sorted(prior.Keys), cur) + SetEdits(Sorted(cur.Keys), prior, cur, render)
  }

  /** `diffListMap` and `diffStringMap`. */
  function DiffMap<T(==)>(base: string, prior: Option<map<string, T>>, cur: map<string, T>, render: T -> Node,
                          ind: string, unit: string): seq<Op> {
    match prior
    case None => if |cur| == 0 then [] else [Op(Add(RenderBlock(cur, render, ind, unit)), base)]
    case Some(p) => At(base, MapEdits(p, cur, render))
  }

  // ---- arrays ----

  function ScriptEdits(script: seq<Lcs.Edit<Node>>): seq<ChildEdit> {
    seq(|script|, i requires 0 <= i < |script| =>
      match script[i]
      case Remove(j) => ChildEdit(Decimal(j), Change.Remove)
      case Insert(j, n) => ChildEdit(Decimal(j), Add(n)))
  }

  /** `diffSeq`: the elements' identities before and after, and the new elements rendered. */
  function DiffSeq<K(==)>(base: string, had: bool, oldIds: seq<K>, curIds: seq<K>, items: seq<Node>,
                          ind: string, unit: string): seq<Op>
    requires |items| == |curIds|
  {
    if !had then (if curIds == [] then [] else [Op(Add(RenderList(items, ind, unit)), base)])
    else At(base, ScriptEdits(Lcs.Script(oldIds, curIds, items)))
  }

  function RenderRules(rules: seq<Rule>): (r: seq<Node>)
    ensures |r| == |rules| && forall i | 0 <= i < |r| :: r[i] == RenderRule(rules[i])
  {
    seq(|rules|, i requires 0 <= i < |rules| => RenderRule(rules[i]))
  }

  function RenderElements(items: seq<CVal>): (r: seq<Node>)
    ensures |r| == |items| && forall i | 0 <= i < |r| :: r[i] == RenderCanonical(items[i])
  {
    seq(|items|, i requires 0 <= i < |items| => RenderCanonical(items[i]))
  }

  // ---- autoApprovers ----

  function RoutesOps(base: string, a: Approvers, routes: ListMap, unit: string): seq<Op> {
    var ind := unit + unit;
    var ptr := Child(base, a.routesKey.GetOr("routes"));
    if a.routes.Some? then DiffMap(ptr, a.routes, routes, RenderStrings, ind, unit)
    else if a.routesKey.Some? && |routes| > 0 then [Op(Replace(RenderBlock(routes, RenderStrings, ind, unit)), ptr)]
    else DiffMap(ptr, None, routes, RenderStrings, ind, unit)
  }

  function ExitNodeOps(base: string, a: Approvers, exitNode: seq<string>): seq<Op> {
    var ptr := Child(base, a.exitKey.GetOr("exitNode"));
    if a.exitKey.Some? && a.ExitNode() != exitNode then [Op(Replace(RenderStrings(exitNode)), ptr)]
    else if a.exitKey.None? && exitNode != [] then [Op(Add(RenderStrings(exitNode)), ptr)]
    else []
  }

  function DiffApprovers(base: string, prior: Option<Approvers>, cur: InputApprovers, unit: string): seq<Op> {
    match prior
    case None =>
      if |cur.routes| == 0 && cur.exitNode == [] then []
      else [Op(Add(RenderApprovers(cur.routes, cur.exitNode, unit, unit)), base)]
    case Some(a) => RoutesOps(base, a, cur.routes, unit) + ExitNodeOps(base, a, cur.exitNode)
  }

  // ---- randomizeClientPort ----

  function DiffFlag(path: string, cur: Option<bool>, want: bool): seq<Op> {
    if want && cur.None? then [Op(Add(Plain(Bool(true))), path)]
    else if want && cur == Some(false) then [Op(Replace(Plain(Bool(true))), path)]
    else if !want && cur.Some? then [Op(Remove, path)]
    else []
  }

  // ---- the whole plan ----

  /** The operations for one section. Sections are addressed by the spelling the document uses. */
  function SectionOps(d: Document, input: Input, unit: string, s: Section): Result<seq<Op>> {
    var ptr := Child("", d.keys.Of(s));
    match s
    case Groups =>
      Ok(if input.groups.None? then [] else DiffMap(ptr, d.model.groups, input.groups.value, RenderStrings, unit, unit))
    case TagOwners =>
      Ok(if input.tagOwners.None? then []
         else DiffMap(ptr, d.model.tagOwners, input.tagOwners.value, RenderStrings, unit, unit))
    case Hosts =>
      Ok(if input.hosts.None? then [] else DiffMap(ptr, d.model.hosts, input.hosts.value, Text1, unit, unit))
    case Acls =>
      Ok(if input.rules.None? then []
         else
           var rules := EnabledRules(input.rules.value);
           DiffSeq(ptr, d.model.acls.Some?, Fingerprints(d.model.Acls()), Fingerprints(rules), RenderRules(rules),
                   unit, unit))
    case AutoApprovers =>
      Ok(if input.approvers.None? then [] else DiffApprovers(ptr, d.model.approvers, input.approvers.value, unit))
    case RandomizeClientPort =>
      Ok(if input.randomize.None? then [] else DiffFlag(ptr, d.model.randomize, input.randomize.value))
    case _ =>
      var items :- CanonicalList(input, s);
      Ok(if items.None? then []
         else DiffSeq(ptr, s in d.model.lists, d.model.List(s), items.value, RenderElements(items.value), unit, unit))
  }

  /** The order in which sections are planned. */
  const PLAN_ORDER: seq<Section> :=
    [Groups, TagOwners, Hosts, Acls] + LIST_SECTIONS + [AutoApprovers, RandomizeClientPort]

  function SectionsOps(d: Document, input: Input, unit: string, sections: seq<Section>): Result<seq<Op>> {
    if sections == [] then Ok([])
    else
      var init :- SectionsOps(d, input, unit, sections[..|sections| - 1]);
      var last :- SectionOps(d, input, unit, sections[|sections| - 1]);
      Ok(init + last)
  }

  /** The patch that turns the document's model into the requested one. */
  function PlanOps(d: Document, input: Input): Result<seq<Op>> {
    SectionsOps(d, input, IndentUnit(d.root), PLAN_ORDER)
  }
}

/** The structured view of a policy document (internal/aclmodel/model.go) and the editor's
    submitted input (internal/aclmodel/validate.go). */
module AclModel {
  import opened Base
  import opened Text
  import opened Tree
  import opened CanonicalJson

  // ---- sections ----

  datatype Section =
    | Groups | TagOwners | Hosts | Acls
    | Grants | Ssh | NodeAttrs | AutoApprovers | Tests | SshTests | RandomizeClientPort

  const EDITABLE_SECTIONS: seq<Section> :=
    [Groups, TagOwners, Hosts, Acls, Grants, Ssh, NodeAttrs, AutoApprovers, Tests, SshTests, RandomizeClientPort]

  /** Sections whose elements are kept as opaque JSON. */
  const LIST_SECTIONS: seq<Section> := [Grants, Ssh, NodeAttrs, Tests, SshTests]

  function Name(s: Section): string {
    match s
    case Groups => "groups"
    case TagOwners => "tagOwners"
    case Hosts => "hosts"
    case Acls => "acls"
    case Grants => "grants"
    case Ssh => "ssh"
    case NodeAttrs => "nodeAttrs"
    case AutoApprovers => "autoApprovers"
    case Tests => "tests"
    case SshTests => "sshTests"
    case RandomizeClientPort => "randomizeClientPort"
  }

  /** "#" members carry editors' notes; headscale strips them. */
  predicate IsMetadata(name: string) { name != [] && name[0] == '#' }

  function FirstFolding(sections: seq<Section>, key: string): Option<Section> {
    if sections == [] then None
    else if EqualFold(Name(sections[0]), key) then Some(sections[0])
    else FirstFolding(sections[1..], key)
  }

  /** The section a top-level key refers to, whatever its case. */
  function SectionOf(key: string): Option<Section> { FirstFolding(EDITABLE_SECTIONS, key) }

  lemma NamesFoldApart(s: Section, t: Section)
    requires EqualFold(Name(s), Name(t))
    ensures s == t
  {
    var a, b := Fold(Name(s)), Fold(Name(t));
    assert |Name(s)| == |a| && |Name(t)| == |b| && a[0] == b[0] && a[2] == b[2];
  }

  lemma {:induction false} FirstFoldingFinds(sections: seq<Section>, key: string, s: Section)
    requires s in sections && EqualFold(Name(s), key)
    ensures FirstFolding(sections, key) == Some(s)
  {
    if EqualFold(Name(sections[0]), key) {
      NamesFoldApart(sections[0], s);
    } else {
      FirstFoldingFinds(sections[1..], key, s);
    }
  }

  lemma {:induction false} FirstFoldingFolds(sections: seq<Section>, key: string)
    ensures var r := FirstFolding(sections, key); r.Some? ==> EqualFold(Name(r.value), key)
  {
    if sections != [] { FirstFoldingFolds(sections[1..], key); }
  }

  lemma EditableHasAll(s: Section)
    ensures s in EDITABLE_SECTIONS
  {
    match s
    case Groups => assert EDITABLE_SECTIONS[0] == s;
    case TagOwners => assert EDITABLE_SECTIONS[1] == s;
    case Hosts => assert EDITABLE_SECTIONS[2] == s;
    case Acls => assert EDITABLE_SECTIONS[3] == s;
    case Grants => assert EDITABLE_SECTIONS[4] == s;
    case Ssh => assert EDITABLE_SECTIONS[5] == s;
    case NodeAttrs => assert EDITABLE_SECTIONS[6] == s;
    case AutoApprovers => assert EDITABLE_SECTIONS[7] == s;
    case Tests => assert EDITABLE_SECTIONS[8] == s;
    case SshTests => assert EDITABLE_SECTIONS[9] == s;
    case RandomizeClientPort => assert EDITABLE_SECTIONS[10] == s;
  }

  lemma NameStartsWithLetter(s: Section)
    ensures Name(s) != [] && FoldChar(Name(s)[0]) != '#'
  {
  }

  lemma FoldedNameIsNotMetadata(s: Section, key: string)
    requires EqualFold(Name(s), key)
    ensures !IsMetadata(key)
  {
    hide Name;
    NameStartsWithLetter(s);
    assert |Fold(Name(s))| == |Fold(key)| == |key|;
    assert FoldChar(Name(s)[0]) == Fold(Name(s))[0] == Fold(key)[0] == FoldChar(key[0]);
  }

  /** A key belongs to exactly the section whose name it folds to, and is never metadata. */
  lemma SectionOfIsFold(key: string, s: Section)
    ensures SectionOf(key) == Some(s) <==> EqualFold(Name(s), key)
    ensures SectionOf(key) == Some(s) ==> !IsMetadata(key)
  {
    hide FirstFolding, EqualFold, IsMetadata;
    FirstFoldingFolds(EDITABLE_SECTIONS, key);
    EditableHasAll(s);
    if EqualFold(Name(s), key) {
      FirstFoldingFinds(EDITABLE_SECTIONS, key, s);
      FoldedNameIsNotMetadata(s, key);
    }
  }

  // ---- the model ----

  datatype Rule = Rule(action: string, proto: string, src: seq<string>, dst: seq<string>)

  type ListMap = map<string, seq<string>>

  /** The autoApprovers section with the document's spelling of its two members. */
  datatype Approvers = Approvers(
    routesKey: Option<string>, exitKey: Option<string>, routes: Option<ListMap>, exitNode: Option<seq<string>>)
  {
    function Routes(): ListMap { routes.GetOr(map[]) }
    function ExitNode(): seq<string> { exitNode.GetOr([]) }
  }

  /** The editable content. None means the section is absent (or null), as opposed to empty. */
  datatype Model = Model(
    groups: Option<ListMap>,
    tagOwners: Option<ListMap>,
    hosts: Option<map<string, string>>,
    acls: Option<seq<Rule>>,
    lists: map<Section, seq<CVal>>,
    approvers: Option<Approvers>,
    randomize: Option<bool>)
  {
    function Acls(): seq<Rule> { acls.GetOr([]) }
    function List(s: Section): seq<CVal> { if s in lists then lists[s] else [] }
    function Routes(): ListMap { if approvers.Some? then approvers.value.Routes() else map[] }
    function ExitNode(): seq<string> { if approvers.Some? then approvers.value.ExitNode() else [] }
  }

  datatype Keys = Keys(names: map<Section, string>, other: seq<string>) {
    /** The document's spelling of a section, the canonical name when it is absent. */
    function Of(s: Section): string { if s in names then names[s] else Name(s) }
  }

  datatype Document = Document(root: Node, keys: Keys, model: Model)

  // ---- rules ----

  function Normalize(r: Rule): Rule {
    Rule(Lower(Trim(r.action, GoSpace)), Lower(Trim(r.proto, GoSpace)), TrimEach(r.src, GoSpace),
         TrimEach(r.dst, GoSpace))
  }

  /** A rule's identity. The hash of the normalized rule's JSON is taken to be injective,
      so the normalized rule stands for it. */
  function Fingerprint(r: Rule): Rule { Normalize(r) }

  lemma LowerIdempotent(s: string)
    ensures Lower(Lower(s)) == Lower(s)
  {
  }

  lemma {:induction false} TrimOfLower(s: string)
    ensures Trim(Lower(Trim(s, GoSpace)), GoSpace) == Lower(Trim(s, GoSpace))
  {
    var t := Trim(s, GoSpace);
    TrimStops(Lower(t), GoSpace);
  }

  /** A normalized rule is its own normal form. */
  lemma NormalizeIdempotent(r: Rule)
    ensures Normalize(Normalize(r)) == Normalize(r)
  {
    TrimOfLower(r.action);
    TrimOfLower(r.proto);
    LowerIdempotent(Trim(r.action, GoSpace));
    LowerIdempotent(Trim(r.proto, GoSpace));
    forall s: string ensures Trim(Trim(s, GoSpace), GoSpace) == Trim(s, GoSpace) {
      TrimStops(Trim(s, GoSpace), GoSpace);
    }
    assert TrimEach(TrimEach(r.src, GoSpace), GoSpace) == TrimEach(r.src, GoSpace);
    assert TrimEach(TrimEach(r.dst, GoSpace), GoSpace) == TrimEach(r.dst, GoSpace);
  }

  // ---- decoding ----

  function ReadString(j: Json): Option<string> {
    match j
    case JStr(s) => Some(s)
    case JNull => Some("")
    case _ => None
  }

  /** A list of strings; null entries decode as "". */
  function ReadStrings(j: Json): Option<seq<string>> {
    if j.JArr? && forall x | x in j.items :: ReadString(x).Some?
    then Some(seq(|j.items|, i requires 0 <= i < |j.items| => ReadString(j.items[i]).value))
    else None
  }

  /** An object of entries, "#" members skipped. */
  function DecodeMap<T>(j: Json, read: Json -> Option<T>): Result<map<string, T>> {
    match j
    case JNull => Ok(map[])
    case JObj(ms) =>
      var v := View(ms);
      if forall k | k in v && !IsMetadata(k) :: read(v[k]).Some?
      then Ok(map k | k in v && !IsMetadata(k) :: read(v[k]).value)
      else Err("an entry has the wrong shape")
    case _ => Err("not an object")
  }

  function Spellings(v: map<string, Json>, field: string): set<string> {
    set k | k in v && EqualFold(k, field)
  }

  /** Later spellings of a string field win; null leaves the field as it is. */
  function StringField(v: map<string, Json>, ks: seq<string>): string
    requires forall k | k in ks :: k in v
  {
    if ks == [] then ""
    else if v[ks[|ks| - 1]].JStr? then v[ks[|ks| - 1]].s
    else StringField(v, ks[..|ks| - 1])
  }

  /** Later spellings of a list field win; null empties the field. */
  function ListField(v: map<string, Json>, ks: seq<string>): seq<string>
    requires forall k | k in ks :: k in v
  {
    if ks == [] then [] else ReadStrings(v[ks[|ks| - 1]]).GetOr([])
  }

  predicate RuleMemberOk(k: string, j: Json) {
    || ((EqualFold(k, "action") || EqualFold(k, "proto")) && ReadString(j).Some?)
    || ((EqualFold(k, "src") || EqualFold(k, "dst")) && (j.JNull? || ReadStrings(j).Some?))
  }

  /** One acls element: only the four known fields, "#" members ignored; null is the empty rule. */
  function DecodeRule(j: Json): Result<Rule> {
    match j
    case JNull => Ok(Rule("", "", [], []))
    case JObj(ms) =>
      var all := View(ms);
      var v := map k | k in all && !IsMetadata(k) :: all[k];
      if forall k | k in v :: RuleMemberOk(k, v[k]) then
        Ok(Rule(
          StringField(v, Sorted(Spellings(v, "action"))),
          StringField(v, Sorted(Spellings(v, "proto"))),
          ListField(v, Sorted(Spellings(v, "src"))),
          ListField(v, Sorted(Spellings(v, "dst")))))
      else Err("unknown or ill-typed member")
    case _ => Err("not an object")
  }

  function DecodeEach<T>(items: seq<Json>, decode: Json -> Result<T>): Result<seq<T>> {
    if items == [] then Ok([])
    else
      var init :- DecodeEach(items[..|items| - 1], decode);
      var last :- decode(items[|items| - 1]);
      Ok(init + [last])
  }

  function DecodeArray<T>(j: Json, decode: Json -> Result<T>): Result<seq<T>> {
    if j.JArr? then DecodeEach(j.items, decode) else Err("not an array")
  }

  function Canon(j: Json): CVal {
    match j
    case JNull => CNull
    case JBool(b) => CBool(b)
    case JNum(t) => CNum(t)
    case JStr(s) => CStr(s)
    case JArr(items) => CArr(seq(|items|, i requires 0 <= i < |items| => Canon(items[i])))
    case JObj(ms) => CObj(View(seq(|ms|, i requires 0 <= i < |ms| => assert ms[i] < j; (ms[i].0, Canon(ms[i].1)))))
  }

  /** The canonical form of one list-section element. */
  function Canonical(j: Json): Result<CVal> {
    if j.JObj? then Ok(Canon(j)) else Err("not an object")
  }

  /** The one spelling of an autoApprovers member, None when absent. */
  function ApproverKey(v: map<string, Json>, member: string): Result<Option<string>> {
    var ks := Sorted(Spellings(v, member));
    if |ks| > 1 then Err("appears twice") else Ok(if ks == [] then None else Some(ks[0]))
  }

  function DecodeApprovers(j: Json): Result<Approvers> {
    if !j.JObj? then Err("not an object")
    else
      var v := View(j.members);
      var rk :- ApproverKey(v, "routes");
      var ek :- ApproverKey(v, "exitNode");
      if exists k :: k in v && !IsMetadata(k) && !EqualFold(k, "routes") && !EqualFold(k, "exitNode")
      then Err("unknown key")
      else
        var routes :- (if rk.Some? && !v[rk.value].JNull? then
                         var m :- DecodeMap(v[rk.value], ReadStrings); Ok(Some(m))
                       else Ok(None));
        var exitNode :- (if ek.Some? && !v[ek.value].JNull? then
                           (match ReadStrings(v[ek.value]) case None => Err("not a list of strings") case Some(l) =>
                            Ok(Some(l)))
                         else Ok(None));
        Ok(Approvers(rk, ek, routes, exitNode))
  }

  function DecodeBool(j: Json): Result<bool> {
    if j.JBool? then Ok(j.b) else Err("not a boolean")
  }

  /** How the document spells each section; two spellings of one section are refused. */
  function ScanKeys(ms: seq<Member>): Result<Keys> {
    if ms == [] then Ok(Keys(map[], []))
    else
      var k :- ScanKeys(ms[..|ms| - 1]);
      var name := ms[|ms| - 1].name;
      if IsMetadata(name) then Ok(k)
      else
        match SectionOf(name)
        case None => Ok(k.(other := k.other + [name]))
        case Some(s) => if s in k.names then Err("section appears twice") else Ok(k.(names := k.names[s := name]))
  }

  /** The value of a key, when it is there and not null. */
  function Present(top: map<string, Json>, key: string): Option<Json> {
    if key in top && !top[key].JNull? then Some(top[key]) else None
  }

  function DecodeSection<T>(j: Option<Json>, decode: Json -> Result<T>): Result<Option<T>> {
    match j
    case None => Ok(None)
    case Some(x) => var v :- decode(x); Ok(Some(v))
  }

  function ListSection(top: map<string, Json>, keys: Keys, s: Section): Result<Option<seq<CVal>>> {
    DecodeSection(Present(top, keys.Of(s)), j => DecodeArray(j, Canonical))
  }

  function DecodeLists(top: map<string, Json>, keys: Keys, sections: seq<Section>): Result<map<Section, seq<CVal>>> {
    if sections == [] then Ok(map[])
    else
      var init :- DecodeLists(top, keys, sections[..|sections| - 1]);
      var s := sections[|sections| - 1];
      var items :- ListSection(top, keys, s);
      Ok(if items.Some? then init[s := items.value] else init)
  }

  function ParseDocument(root: Node): Result<Document> {
    if !root.value.Obj? then Err("policy root must be a JSON object")
    else
      var keys :- ScanKeys(root.value.members);
      var top := View(StdMembers(root.value.members));
      var groups :- DecodeSection(Present(top, keys.Of(Groups)), j => DecodeMap(j, ReadStrings));
      var tagOwners :- DecodeSection(Present(top, keys.Of(TagOwners)), j => DecodeMap(j, ReadStrings));
      var hosts :- DecodeSection(Present(top, keys.Of(Hosts)), j => DecodeMap(j, ReadString));
      var acls :- DecodeSection(Present(top, keys.Of(Acls)), j => DecodeArray(j, DecodeRule));
      var lists :- DecodeLists(top, keys, LIST_SECTIONS);
      var approvers :- DecodeSection(Present(top, keys.Of(AutoApprovers)), DecodeApprovers);
      var randomize :- DecodeSection(Present(top, keys.Of(RandomizeClientPort)), DecodeBool);
      Ok(Document(root, keys, Model(groups, tagOwners, hosts, acls, lists, approvers, randomize)))
  }

  // ---- the editor's input ----

  datatype InputRule = InputRule(
    action: string, proto: string, src: seq<string>, dst: seq<string>, name: string, description: string, enabled: bool)
  {
    function AsRule(): Rule { Normalize(Rule(action, proto, src, dst)) }
  }

  datatype InputApprovers = InputApprovers(routes: ListMap, exitNode: seq<string>)

  /** The submitted sections; None (or a list section outside `lists`) leaves a section untouched. */
  datatype Input = Input(
    groups: Option<ListMap>,
    tagOwners: Option<ListMap>,
    hosts: Option<map<string, string>>,
    rules: Option<seq<InputRule>>,
    lists: map<Section, seq<Json>>,
    approvers: Option<InputApprovers>,
    randomize: Option<bool>)

  /** The rules that belong in the live policy, in order. */
  function EnabledRules(rules: seq<InputRule>): seq<Rule> {
    if rules == [] then []
    else EnabledRules(rules[..|rules| - 1]) + (if rules[|rules| - 1].enabled then [rules[|rules| - 1].AsRule()] else [])
  }

  function CanonicalList(input: Input, s: Section): Result<Option<seq<CVal>>> {
    if s !in input.lists then Ok(None)
    else
      var items :- DecodeEach(input.lists[s], Canonical);
      Ok(Some(items))
  }

  // ---- what validation guarantees ----

  predicate HasPrefix(s: string, p: string) { p <= s }

  /** Every character of a CIDR prefix is a hexadecimal digit or one of ". : /". */
  predicate PrefixChars(s: string) {
    s != [] && forall c | c in s :: IsDigit(c) || 'a' <= c <= 'f' || 'A' <= c <= 'F' || c == '.' || c == ':' || c == '/'
  }

  /** What `Validate` establishes, as far as the patcher depends on it: group keys start with "group:",
      tag keys with "tag:", approved routes are CIDR prefixes, and list elements are objects. */
  predicate Validated(input: Input) {
    && (input.groups.Some? ==> forall k | k in input.groups.value :: HasPrefix(k, "group:"))
    && (input.tagOwners.Some? ==> forall k | k in input.tagOwners.value :: HasPrefix(k, "tag:"))
    && (forall s | s in LIST_SECTIONS :: CanonicalList(input, s).Ok?)
    && (input.approvers.Some? ==> forall k | k in input.approvers.value.routes :: PrefixChars(k))
  }

  // ---- comparing models ----

  function BoolValue(b: Option<bool>): bool { b.GetOr(false) }

  function Fingerprints(rules: seq<Rule>): (r: seq<Rule>)
    ensures |r| == |rules| && forall i | 0 <= i < |r| :: r[i] == Fingerprint(rules[i])
  {
    seq(|rules|, i requires 0 <= i < |rules| => Fingerprint(rules[i]))
  }

  /** The editable content of two models is the same. */
  predicate EqualModels(a: Model, b: Model) {
    && a.groups.GetOr(map[]) == b.groups.GetOr(map[])
    && a.tagOwners.GetOr(map[]) == b.tagOwners.GetOr(map[])
    && a.hosts.GetOr(map[]) == b.hosts.GetOr(map[])
    && Fingerprints(a.Acls()) == Fingerprints(b.Acls())
    && (forall s | s in LIST_SECTIONS :: a.List(s) == b.List(s))
    && a.Routes() == b.Routes()
    && a.ExitNode() == b.ExitNode()
    && BoolValue(a.randomize) == BoolValue(b.randomize)
  }

  function Requested<K, V>(prior: Option<map<K, V>>, submitted: Option<map<K, V>>): Option<map<K, V>> {
    match submitted
    case None => prior
    case Some(m) => if prior.Some? || |m| > 0 then Some(m) else None
  }

  /** The model an input describes; sections not submitted are carried over. */
  function ModelFromInput(prior: Model, input: Input): Model {
    Model(
      Requested(prior.groups, input.groups),
      Requested(prior.tagOwners, input.tagOwners),
      Requested(prior.hosts, input.hosts),
      match input.rules {
        case None => prior.acls
        case Some(rs) => if prior.acls.Some? || EnabledRules(rs) != [] then Some(EnabledRules(rs)) else None
      },
      map s | s in LIST_SECTIONS ::
        var c := CanonicalList(input, s); if c.Ok? && c.value.Some? then c.value.value else prior.List(s),
      match input.approvers {
        case None => prior.approvers
        case Some(a) => Some(Approvers(None, None, Some(a.routes), Some(a.exitNode)))
      },
      if input.randomize.Some? then input.randomize else prior.randomize)
  }
}

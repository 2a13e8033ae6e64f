/** What running one section's operations does to a document (internal/aclmodel/patch.go).
    The bridge between trees and models: a document parses to a model exactly when every section's member
    fits the model's field. On that footing each section's planned operations are run through the
    RFC 6902 interpreter, and the member is shown to fit the field the input asks for, with the rest of
    the document left alone. */
module PatchRun {
  import opened Base
  import opened Text
  import opened Pointer
  import opened Tree
  import opened Names
  import opened AclModel
  import opened CanonicalJson
  import opened Render
  import opened Plan
  import opened MapRuns
  import opened SectionRuns
  import opened ApproverRuns
  import opened Slots
  import Lcs

  // ---- parsing, section by section ----

  lemma MapDecodes<T>(ms: seq<Member>, s: Section, m: Option<map<string, T>>, read: Json -> Option<T>)
    requires OneSpelling(ms)
    ensures DecodeSection(Present(View(StdMembers(ms)), KeyOf(ms, s)), j => DecodeMap(j, read)) == Ok(m)
            <==> MapSlot(MemberOf(ms, KeyOf(ms, s)), m, read)
  {
    hide View, KeyOf, MemberOf, OneSpelling, StdMembers, Std;
    PresentIsSlot(ms, s);
    var slot := MemberOf(ms, KeyOf(ms, s));
    if !Missing(slot) {
      NullIsNull(slot.value);
      if DecodeMap(Std(slot.value), read).Ok? { ObjectDecodes(slot.value, read); }
    }
  }

  lemma RulesDecode(ms: seq<Member>, rules: Option<seq<Rule>>)
    requires OneSpelling(ms)
    ensures DecodeSection(Present(View(StdMembers(ms)), KeyOf(ms, Acls)), j => DecodeArray(j, DecodeRule)) == Ok(rules)
            <==> RulesSlot(MemberOf(ms, KeyOf(ms, Acls)), rules)
  {
    hide View, KeyOf, MemberOf, OneSpelling, StdMembers, Std, DecodeArray, DecodeRule;
    PresentIsSlot(ms, Acls);
    var slot := MemberOf(ms, KeyOf(ms, Acls));
    if !Missing(slot) { NullIsNull(slot.value); }
  }

  lemma ApproversDecode(ms: seq<Member>, a: Option<Approvers>)
    requires OneSpelling(ms)
    ensures DecodeSection(Present(View(StdMembers(ms)), KeyOf(ms, AutoApprovers)), DecodeApprovers) == Ok(a)
            <==> ApproverSlot(MemberOf(ms, KeyOf(ms, AutoApprovers)), a)
  {
    hide View, KeyOf, MemberOf, OneSpelling, StdMembers, DecodeApprovers;
    PresentIsSlot(ms, AutoApprovers);
    var slot := MemberOf(ms, KeyOf(ms, AutoApprovers));
    if !Missing(slot) {
      NullIsNull(slot.value);
      if DecodeApprovers(Std(slot.value)).Ok? { ApproversAreObject(slot.value); }
    }
  }

  lemma ApproversAreObject(n: Node)
    requires DecodeApprovers(Std(n)).Ok?
    ensures n.value.Obj?
  {
  }

  lemma FlagDecodes(ms: seq<Member>, flag: Option<bool>)
    requires OneSpelling(ms)
    ensures DecodeSection(Present(View(StdMembers(ms)), KeyOf(ms, RandomizeClientPort)), DecodeBool) == Ok(flag)
            <==> FlagSlot(MemberOf(ms, KeyOf(ms, RandomizeClientPort)), flag)
  {
    hide View, KeyOf, MemberOf, OneSpelling, StdMembers;
    PresentIsSlot(ms, RandomizeClientPort);
  }

  lemma ListSectionsDistinct()
    ensures Distinct(LIST_SECTIONS)
  {
  }

  /** Parsing succeeds when every section's member fits a model, and yields that model. */
  lemma FittingParses(root: Node, m: Model)
    requires root.value.Obj? && OneSpelling(root.value.members)
    requires forall s :: Fits(root.value.members, m, s)
    requires forall s | s in m.lists :: s in LIST_SECTIONS
    ensures ParseDocument(root).Ok? && ParseDocument(root).value.model == m && ParseDocument(root).value.root == root
  {
    hide View, KeyOf, MemberOf, OneSpelling, StdMembers, MapSlot, SeqSlot, RulesSlot, FlagSlot, ApproverSlot,
         DecodeSection, ScanKeys, DecodeLists, Distinct, Fits;
    var ms := root.value.members;
    ScanKeysIsKeyOf(ms);
    var keys := ScanKeys(ms).value;
    FitsSlots(ms, m);
    MapDecodes(ms, Groups, m.groups, ReadStrings);
    MapDecodes(ms, TagOwners, m.tagOwners, ReadStrings);
    MapDecodes(ms, Hosts, m.hosts, ReadString);
    RulesDecode(ms, m.acls);
    ApproversDecode(ms, m.approvers);
    FlagDecodes(ms, m.randomize);
    ListSectionsDistinct();
    forall s | s in LIST_SECTIONS ensures SeqSlot(MemberOf(ms, KeyOf(ms, s)), Lookup(m.lists, s), Canonical) {
      FitsList(ms, m, s);
    }
    FittingListsDecode(ms, keys, LIST_SECTIONS, m.lists);
    assert (map s | s in LIST_SECTIONS && s in m.lists :: m.lists[s]) == m.lists;
  }

  lemma ListSectionKinds(s: Section)
    requires s in LIST_SECTIONS
    ensures s.Grants? || s.Ssh? || s.NodeAttrs? || s.Tests? || s.SshTests?
  {
  }

  lemma FitsSlots(ms: seq<Member>, m: Model)
    requires forall s :: Fits(ms, m, s)
    ensures MapSlot(MemberOf(ms, KeyOf(ms, Groups)), m.groups, ReadStrings)
    ensures MapSlot(MemberOf(ms, KeyOf(ms, TagOwners)), m.tagOwners, ReadStrings)
    ensures MapSlot(MemberOf(ms, KeyOf(ms, Hosts)), m.hosts, ReadString)
    ensures RulesSlot(MemberOf(ms, KeyOf(ms, Acls)), m.acls)
    ensures ApproverSlot(MemberOf(ms, KeyOf(ms, AutoApprovers)), m.approvers)
    ensures FlagSlot(MemberOf(ms, KeyOf(ms, RandomizeClientPort)), m.randomize)
  {
    hide KeyOf, MemberOf, MapSlot, SeqSlot, RulesSlot, FlagSlot, ApproverSlot;
    assert Fits(ms, m, Groups) && Fits(ms, m, TagOwners) && Fits(ms, m, Hosts) && Fits(ms, m, Acls)
        && Fits(ms, m, AutoApprovers) && Fits(ms, m, RandomizeClientPort);
  }

  lemma FitsList(ms: seq<Member>, m: Model, s: Section)
    requires Fits(ms, m, s) && s in LIST_SECTIONS
    ensures SeqSlot(MemberOf(ms, KeyOf(ms, s)), Lookup(m.lists, s), Canonical)
  {
    hide KeyOf, MemberOf, SeqSlot;
    ListSectionKinds(s);
  }

  /** A document that parses fits its own model. */
  lemma ParsedFits(root: Node)
    requires ParseDocument(root).Ok?
    ensures root.value.Obj? && OneSpelling(root.value.members)
    ensures var d := ParseDocument(root).value;
            && d.root == root
            && (forall s :: d.keys.Of(s) == KeyOf(root.value.members, s))
            && (forall s :: Fits(root.value.members, d.model, s))
            && (forall s | s in d.model.lists :: s in LIST_SECTIONS)
  {
    hide View, KeyOf, MemberOf, OneSpelling, StdMembers, MapSlot, SeqSlot, RulesSlot, FlagSlot, ApproverSlot,
         DecodeSection, ScanKeys, DecodeLists, Distinct;
    var ms := root.value.members;
    var m := ParseDocument(root).value.model;
    ScanKeysIsKeyOf(ms);
    MapDecodes(ms, Groups, m.groups, ReadStrings);
    MapDecodes(ms, TagOwners, m.tagOwners, ReadStrings);
    MapDecodes(ms, Hosts, m.hosts, ReadString);
    RulesDecode(ms, m.acls);
    ApproversDecode(ms, m.approvers);
    FlagDecodes(ms, m.randomize);
    ListSectionsDistinct();
    DecodedListsFit(ms, ParseDocument(root).value.keys, LIST_SECTIONS);
    forall s ensures Fits(ms, m, s) {
      ListSectionOrNot(s);
    }
  }

  lemma ListSectionOrNot(s: Section)
    ensures s in LIST_SECTIONS || s in {Groups, TagOwners, Hosts, Acls, AutoApprovers, RandomizeClientPort}
  {
    assert LIST_SECTIONS[0] == Grants && LIST_SECTIONS[1] == Ssh && LIST_SECTIONS[2] == NodeAttrs
        && LIST_SECTIONS[3] == Tests && LIST_SECTIONS[4] == SshTests;
  }

  // ---- one section's operations ----

  lemma {:induction false} FirstOfOthers(ms: seq<Member>, k: string, t: Section)
    requires SectionOf(k) != Some(t)
    ensures FirstOf(Others(ms, {k}), t) == FirstOf(ms, t)
  {
    hide SectionOf;
    if ms != [] {
      FirstOfOthers(ms[1..], k, t);
      if ms[0].name != k {
        assert Others(ms, {k})[0] == ms[0] && Others(ms, {k})[1..] == Others(ms[1..], {k});
      } else {
        assert Others(ms, {k}) == Others(ms[1..], {k});
      }
    }
  }

  lemma {:induction false} FirstOfNames(ms: seq<Member>, ms': seq<Member>, s: Section)
    requires |ms| == |ms'| && forall i | 0 <= i < |ms| :: ms[i].name == ms'[i].name
    ensures FirstOf(ms, s).Some? <==> FirstOf(ms', s).Some?
    ensures KeyOf(ms, s) == KeyOf(ms', s)
  {
    hide SectionOf;
    if ms != [] { FirstOfNames(ms[1..], ms'[1..], s); }
  }

  /** Two member lists that differ in section s alone; neither spells any section twice. */
  ghost predicate OnlySection(ms: seq<Member>, ms': seq<Member>, s: Section) {
    && OneSpelling(ms')
    && Others(ms', {KeyOf(ms, s)}) == Others(ms, {KeyOf(ms, s)})
    && forall t | t != s :: FirstOf(ms', t) == FirstOf(ms, t)
  }

  /** The same name with the same comments around it. */
  predicate SameHead(m: Member, n: Member) {
    m.name == n.name && m.nameBefore == n.nameBefore && m.nameAfter == n.nameAfter
  }

  /** Every member is in its place, the comments around its name kept; at most one, with a new name, comes last. */
  ghost predicate HeadsKept(ms: seq<Member>, ms': seq<Member>, k: string) {
    && |ms| <= |ms'| <= |ms| + 1
    && (forall i | 0 <= i < |ms| :: SameHead(ms[i], ms'[i]))
    && (|ms'| > |ms| ==>
          Index(ms, k).None? && ms'[|ms|].name == k && ms'[|ms|].nameBefore == "" && ms'[|ms|].nameAfter == "")
  }

  /** What one section's operations leave of the document: its own layout, every other member in its place, and
      the comments around the section's key, unless the port switch is dropped. */
  ghost predicate TopFrame(root: Node, root': Node, s: Section, drops: bool) {
    && SameShell(root, root') && OnlySection(root.value.members, root'.value.members, s)
    && var k := KeyOf(root.value.members, s);
       if drops then root'.value.members == Others(root.value.members, {k})
       else HeadsKept(root.value.members, root'.value.members, k)
  }

  lemma {:induction false} OnlySectionByOthers(ms: seq<Member>, ms': seq<Member>, s: Section)
    requires OneSpelling(ms) && OneSpelling(ms') && Others(ms', {KeyOf(ms, s)}) == Others(ms, {KeyOf(ms, s)})
    ensures OnlySection(ms, ms', s)
  {
    KeyNamesSlot(ms, s);
    forall t | t != s ensures FirstOf(ms', t) == FirstOf(ms, t) {
      FirstOfOthers(ms, KeyOf(ms, s), t);
      FirstOfOthers(ms', KeyOf(ms, s), t);
    }
  }

  lemma SetKeepsHeads(root: Node, k: string, n: Node)
    requires root.value.Obj?
    ensures SameShell(root, SetMember(root, k, n))
    ensures HeadsKept(root.value.members, SetMember(root, k, n).value.members, k)
  {
  }

  /** Setting a section's member neither respells it nor adds a second spelling. */
  lemma SetKeepsSections(root: Node, s: Section, n: Node)
    requires root.value.Obj? && OneSpelling(root.value.members)
    ensures var k := KeyOf(root.value.members, s);
            var ms' := SetMember(root, k, n).value.members;
            TopFrame(root, SetMember(root, k, n), s, false) && KeyOf(ms', s) == k && MemberOf(ms', k) == Some(n)
  {
    hide SectionOf, Others, HeadsKept, SameShell, FirstOf, OnlySection;
    var ms := root.value.members;
    var k := KeyOf(ms, s);
    var ms' := SetMember(root, k, n).value.members;
    KeyNamesSlot(ms, s);
    SetKeepsHeads(root, k, n);
    SetMemberEffect(root, k, n);
    match Index(ms, k)
    case None =>
      var m := Member("", k, "", n);
      FirstOfAppend(ms, m, s);
      OneSpellingAppend(ms, m);
      OnlySectionByOthers(ms, ms', s);
    case Some(i) =>
      FirstOfNames(ms, ms', s);
      assert forall j | 0 <= j < |ms| :: ms'[j].name == ms[j].name;
      OnlySectionByOthers(ms, ms', s);
  }

  /** Removing a section's member leaves the section absent. */
  lemma RemoveDropsSection(root: Node, s: Section)
    requires root.value.Obj? && OneSpelling(root.value.members) &&
             MemberOf(root.value.members, KeyOf(root.value.members, s)).Some?
    ensures var r := EditHere(root, KeyOf(root.value.members, s), Remove);
            && r.Ok? && TopFrame(root, r.value, s, true)
            && MemberOf(r.value.value.members, KeyOf(r.value.value.members, s)).None?
  {
    hide SectionOf, FirstOf, Others, OnlySection;
    var ms := root.value.members;
    var k := KeyOf(ms, s);
    var i := Index(ms, k).value;
    var ms' := ms[..i] + ms[i + 1..];
    KeyNamesSlot(ms, s);
    EditKeepsOthers(ms, k, Remove, {k});
    RemoveKeepsOneSpelling(ms, i, s);
    OnlySectionByOthers(ms, ms', s);
    KeyNamesSlot(ms', s);
    NoneToDrop(ms', k);
  }

  lemma {:induction false} NoneToDrop(ms: seq<Member>, k: string)
    requires forall i | 0 <= i < |ms| :: ms[i].name != k
    ensures Others(ms, {k}) == ms
  {
    if ms != [] { NoneToDrop(ms[1..], k); }
  }

  lemma RemoveKeepsOneSpelling(ms: seq<Member>, i: nat, s: Section)
    requires OneSpelling(ms) && i < |ms| && SectionOf(ms[i].name) == Some(s)
    ensures OneSpelling(ms[..i] + ms[i + 1..]) && FirstOf(ms[..i] + ms[i + 1..], s).None?
  {
    hide SectionOf, FirstOf;
    var ms' := ms[..i] + ms[i + 1..];
    assert forall j | 0 <= j < |ms'| :: ms'[j] == if j < i then ms[j] else ms[j + 1];
    forall m | m in ms' ensures SectionOf(m.name) != Some(s) {
      var j :| 0 <= j < |ms'| && ms'[j] == m;
      var j' := if j < i then j else j + 1;
      assert ms[j'] == m && j' != i;
    }
  }

  predicate SameField(a: Model, b: Model, s: Section) {
    match s
    case Groups => a.groups == b.groups
    case TagOwners => a.tagOwners == b.tagOwners
    case Hosts => a.hosts == b.hosts
    case Acls => a.acls == b.acls
    case AutoApprovers => a.approvers == b.approvers
    case RandomizeClientPort => a.randomize == b.randomize
    case _ => Lookup(a.lists, s) == Lookup(b.lists, s)
  }

  predicate Submitted(input: Input, s: Section) {
    match s
    case Groups => input.groups.Some?
    case TagOwners => input.tagOwners.Some?
    case Hosts => input.hosts.Some?
    case Acls => input.rules.Some?
    case AutoApprovers => input.approvers.Some?
    case RandomizeClientPort => input.randomize.Some?
    case _ => s in input.lists
  }

  /** Section s of m is what the input asks for (entries under "#" keys are lost). */
  predicate Wanted(m: Model, input: Input, s: Section)
    requires Submitted(input, s)
  {
    match s
    case Groups => m.groups.GetOr(map[]) == NonMeta(input.groups.value)
    case TagOwners => m.tagOwners.GetOr(map[]) == NonMeta(input.tagOwners.value)
    case Hosts => m.hosts.GetOr(map[]) == NonMeta(input.hosts.value)
    case Acls => Fingerprints(m.Acls()) == Fingerprints(EnabledRules(input.rules.value))
    case AutoApprovers => m.Routes() == NonMeta(input.approvers.value.routes) &&
      m.ExitNode() == input.approvers.value.exitNode
    case RandomizeClientPort => m.randomize == if input.randomize.value then Some(true) else None
    case _ => CanonicalList(input, s) == Ok(Some(m.List(s)))
  }

  ghost predicate ArrayFrame<K>(was: Option<Node>, now: Option<Node>, prior: seq<K>, cur: seq<K>, items: seq<Node>) {
    && |items| == |cur| && was.Some? && was.value.value.Arr? && |was.value.value.elems| == |prior|
    && now == Some(was.value.(
         value := Arr(Lcs.Rebuilt(prior, cur, was.value.value.elems, items), was.value.value.close)))
  }

  /** Entries outside the changed keys are the identical nodes in their order; a section that was absent or null
      stays so when nothing is asked for. */
  ghost predicate MapFrame<T>(was: Option<Node>, now: Option<Node>, prior: Option<map<string, T>>, cur: map<string, T>)
  {
    if prior.Some? then was.Some? && now.Some? && SameBut(was.value, now.value, Touched(prior.value, cur))
    else |cur| == 0 ==> now == was
  }

  /** Kept array elements are the original nodes. */
  ghost predicate ListFrame<K>(was: Option<Node>, now: Option<Node>, prior: Option<seq<K>>, cur: seq<K>,
                               items: seq<Node>)
  {
    if prior.Some? then ArrayFrame(was, now, prior.value, cur, items) else cur == [] ==> now == was
  }

  /** What stays of a submitted section. */
  ghost predicate InnerFrame(was: Option<Node>, now: Option<Node>, prior: Model, input: Input, s: Section)
    requires Submitted(input, s)
  {
    match s
    case Groups => MapFrame(was, now, prior.groups, input.groups.value)
    case TagOwners => MapFrame(was, now, prior.tagOwners, input.tagOwners.value)
    case Hosts => MapFrame(was, now, prior.hosts, input.hosts.value)
    case Acls =>
      var rules := EnabledRules(input.rules.value);
      ListFrame(was, now, FingerprintsOf(prior.acls), Fingerprints(rules), RenderRules(rules))
    case AutoApprovers =>
      if prior.approvers.Some? then
        var a := prior.approvers.value;
        && was.Some? && now.Some? && ApproverFrame(was.value, now.value, a, input.approvers.value)
        && (exists rk, ek :: ApproversShape(now.value, rk, ek) &&
              (a.routesKey.Some? ==> rk == a.routesKey) && (a.exitKey.Some? ==> ek == a.exitKey))
      else |input.approvers.value.routes| == 0 && input.approvers.value.exitNode == [] ==> now == was
    case RandomizeClientPort =>
      BoolValue(prior.randomize) == input.randomize.value && prior.randomize != Some(false) ==> now == was
    case _ => CanonicalList(input, s).Ok? && CanonicalList(input, s).value.Some? ==>
      var items := CanonicalList(input, s).value.value;
      ListFrame(was, now, Lookup(prior.lists, s), items, RenderElements(items))
  }

  function FingerprintsOf(rules: Option<seq<Rule>>): Option<seq<Rule>> {
    if rules.None? then None else Some(Fingerprints(rules.value))
  }

  /** Section s will read as asked: no name it has to change is repeated in the member that is there. */
  ghost predicate SectionClear(slot: Option<Node>, prior: Model, input: Input, s: Section)
    requires Submitted(input, s)
  {
    match s
    case Groups => MapClear(slot, prior.groups, input.groups.value)
    case TagOwners => MapClear(slot, prior.tagOwners, input.tagOwners.value)
    case Hosts => MapClear(slot, prior.hosts, input.hosts.value)
    case AutoApprovers => ApproversClear(slot, prior.approvers, input.approvers.value)
    case _ => true
  }

  /** The port switch is taken out of the document. */
  predicate Drops(prior: Model, input: Input, s: Section) {
    s == RandomizeClientPort && prior.randomize.Some? && input.randomize == Some(false)
  }

  /** What becomes of a submitted section's member: it reads as asked exactly when it is clear, what is not to
      change stays, and no name comes to be repeated. */
  ghost predicate SlotDone(was: Option<Node>, now: Option<Node>, m': Model, prior: Model, input: Input, s: Section)
    requires Submitted(input, s)
  {
    && (Wanted(m', input, s) <==> SectionClear(was, prior, input, s))
    && InnerFrame(was, now, prior, input, s)
    && (SectionApart(was, s) ==> SectionApart(now, s))
  }

  /** The outcome of one section's operations on a document whose member for s fits m. */
  ghost predicate SectionDone(root: Node, root': Node, m: Model, m': Model, prior: Model, input: Input, s: Section)
  {
    && TopFrame(root, root', s, Drops(prior, input, s))
    && Fits(root'.value.members, m', s)
    && (forall t | t != s :: SameField(m, m', t))
    && (forall t | t in m'.lists :: t in LIST_SECTIONS)
    && if Submitted(input, s) then
         SlotDone(MemberOf(root.value.members, KeyOf(root.value.members, s)),
                  MemberOf(root'.value.members, KeyOf(root'.value.members, s)), m', prior, input, s)
       else root' == root && m' == m
  }

  /** Section s's operations lead from root to root'. */
  predicate OpsLead(root: Node, root': Node, d: Document, input: Input, unit: string, s: Section) {
    var ops := SectionOps(d, input, unit, s);
    ops.Ok? && ApplyAll(root, ops.value) == Ok(root')
  }

  /** Section s is planned and its operations run. */
  predicate SectionGoes(root: Node, d: Document, input: Input, unit: string, s: Section) {
    var ops := SectionOps(d, input, unit, s);
    ops.Ok? && ApplyAll(root, ops.value).Ok?
  }

  /** What holds before a section's operations run. */
  ghost predicate SectionReady(root: Node, d: Document, m: Model, s: Section) {
    && root.value.Obj? && OneSpelling(root.value.members)
    && d.keys.Of(s) == KeyOf(root.value.members, s)
    && Fits(root.value.members, m, s) && SameField(m, d.model, s)
    && forall t | t in m.lists :: t in LIST_SECTIONS
  }

  lemma NothingSubmitted(root: Node, d: Document, input: Input, unit: string, s: Section, m: Model)
    requires SectionReady(root, d, m, s) && !Submitted(input, s)
    ensures SectionOps(d, input, unit, s) == Ok([]) && SectionDone(root, root, m, m, d.model, input, s)
  {
    hide SectionOf, OneSpelling, Others, FirstOf, KeyOf, Fits;
    ListSectionOrNot(s);
  }

  lemma AfterSet(root: Node, root': Node, s: Section)
    requires root.value.Obj? && OneSpelling(root.value.members)
    requires root' == root || exists n :: root' == SetMember(root, KeyOf(root.value.members, s), n)
    ensures TopFrame(root, root', s, false)
    ensures KeyOf(root'.value.members, s) == KeyOf(root.value.members, s)
  {
    if root' != root {
      var n :| root' == SetMember(root, KeyOf(root.value.members, s), n);
      SetKeepsSections(root, s, n);
    }
  }

  lemma StringsLaw()
    ensures forall t: seq<string> :: ReadStrings(Std(RenderStrings(t))) == Some(t)
    ensures forall t: string :: ReadString(Std(Text1(t))) == Some(t)
  {
    forall t: seq<string> ensures ReadStrings(Std(RenderStrings(t))) == Some(t) { StringsReadBack(t); }
  }

  lemma GroupsSectionRun(root: Node, d: Document, input: Input, unit: string, m: Model)
    returns (root': Node, m': Model)
    requires SectionReady(root, d, m, Groups) && Submitted(input, Groups)
    ensures OpsLead(root, root', d, input, unit, Groups)
    ensures SectionDone(root, root', m, m', d.model, input, Groups)
  {
    hide SectionOf, OneSpelling, Others, FirstOf, KeyOf, MapSlot, SetMember, TopFrame, DiffMap, SameBut, MemberOf,
         ApplyAll, RenderStrings, Text1, SeqSlot, RulesSlot, FlagSlot, ApproverSlot, ListFrame, ApproverFrame,
         NonMeta, Touched, Std, MapClear, Apart, ApproversApart, ApproversClear;
    StringsLaw();
    var k := KeyOf(root.value.members, Groups);
    var mp: Option<ListMap>;
    root', mp := DiffMapRun(root, "", [], k, d.model.groups, input.groups.value, RenderStrings, ReadStrings, unit,
                            unit);
    m' := m.(groups := mp);
    AfterSet(root, root', Groups);
  }

  lemma OwnersSectionRun(root: Node, d: Document, input: Input, unit: string, m: Model)
    returns (root': Node, m': Model)
    requires SectionReady(root, d, m, TagOwners) && Submitted(input, TagOwners)
    ensures OpsLead(root, root', d, input, unit, TagOwners)
    ensures SectionDone(root, root', m, m', d.model, input, TagOwners)
  {
    hide SectionOf, OneSpelling, Others, FirstOf, KeyOf, MapSlot, SetMember, TopFrame, DiffMap, SameBut, MemberOf,
         ApplyAll, RenderStrings, Text1, SeqSlot, RulesSlot, FlagSlot, ApproverSlot, ListFrame, ApproverFrame,
         NonMeta, Touched, Std, MapClear, Apart, ApproversApart, ApproversClear;
    StringsLaw();
    var k := KeyOf(root.value.members, TagOwners);
    var mp: Option<ListMap>;
    root', mp := DiffMapRun(root, "", [], k, d.model.tagOwners, input.tagOwners.value, RenderStrings, ReadStrings,
                            unit, unit);
    m' := m.(tagOwners := mp);
    AfterSet(root, root', TagOwners);
  }

  lemma HostsSectionRun(root: Node, d: Document, input: Input, unit: string, m: Model)
    returns (root': Node, m': Model)
    requires SectionReady(root, d, m, Hosts) && Submitted(input, Hosts)
    ensures OpsLead(root, root', d, input, unit, Hosts)
    ensures SectionDone(root, root', m, m', d.model, input, Hosts)
  {
    hide SectionOf, OneSpelling, Others, FirstOf, KeyOf, MapSlot, SetMember, TopFrame, DiffMap, SameBut, MemberOf,
         ApplyAll, RenderStrings, Text1, SeqSlot, RulesSlot, FlagSlot, ApproverSlot, ListFrame, ApproverFrame,
         NonMeta, Touched, Std, MapClear, Apart, ApproversApart, ApproversClear;
    StringsLaw();
    var k := KeyOf(root.value.members, Hosts);
    var mp: Option<map<string, string>>;
    root', mp := DiffMapRun(root, "", [], k, d.model.hosts, input.hosts.value, Text1, ReadString, unit, unit);
    m' := m.(hosts := mp);
    AfterSet(root, root', Hosts);
  }

  /** A rule's identity, read from its element. */
  function ReadFingerprint(j: Json): Result<Rule> {
    var r :- DecodeRule(j);
    Ok(Fingerprint(r))
  }

  lemma RulesToFingerprints(slot: Option<Node>, rules: Option<seq<Rule>>)
    requires RulesSlot(slot, rules)
    ensures SeqSlot(slot, if rules.None? then None else Some(Fingerprints(rules.value)), ReadFingerprint)
  {
    if rules.Some? {
      ArraySlot(slot, rules.value, DecodeRule);
    }
  }

  lemma FingerprintsToRules(slot: Option<Node>, ids: Option<seq<Rule>>) returns (rules: Option<seq<Rule>>)
    requires SeqSlot(slot, ids, ReadFingerprint)
    ensures RulesSlot(slot, rules) && Fingerprints(rules.GetOr([])) == ids.GetOr([])
  {
    if ids.None? {
      rules := None;
    } else {
      var es := slot.value.value.elems;
      StdOfComposite(slot.value);
      forall i | 0 <= i < |es| ensures DecodeRule(StdElems(es)[i]).Ok? { assert ReadFingerprint(Std(es[i])).Ok?; }
      DecodeEachElem(StdElems(es), DecodeRule);
      var rs := DecodeEach(StdElems(es), DecodeRule).value;
      rules := Some(rs);
      forall i | 0 <= i < |rs| ensures Fingerprints(rs)[i] == ids.value[i] {
        assert ReadFingerprint(Std(es[i])) == Ok(ids.value[i]) && DecodeRule(StdElems(es)[i]) == Ok(rs[i]);
      }
    }
  }

  lemma RuleSectionRun(root: Node, d: Document, input: Input, unit: string, m: Model)
    returns (root': Node, m': Model)
    requires SectionReady(root, d, m, Acls) && Submitted(input, Acls)
    ensures OpsLead(root, root', d, input, unit, Acls)
    ensures SectionDone(root, root', m, m', d.model, input, Acls)
  {
    hide SectionOf, OneSpelling, Others, FirstOf, KeyOf, SeqSlot, RulesSlot, SetMember, TopFrame, DiffSeq,
         MemberOf, ApplyAll, Fingerprint, RenderRule, DecodeRule, EnabledRules, Lcs.Rebuilt, Std;
    var k := KeyOf(root.value.members, Acls);
    var rules := EnabledRules(input.rules.value);
    var prior := d.model.acls;
    var oldIds := if prior.None? then None else Some(Fingerprints(prior.value));
    RulesToFingerprints(MemberOf(root.value.members, k), prior);
    forall j | 0 <= j < |rules| ensures ReadFingerprint(Std(RenderRules(rules)[j])) == Ok(Fingerprints(rules)[j]) {
      RuleReadsBack(rules[j]);
      FingerprintOfNormal(rules[j]);
    }
    var ids: Option<seq<Rule>>;
    root', ids := DiffSeqRun(root, k, oldIds, Fingerprints(rules), RenderRules(rules), ReadFingerprint, unit, unit);
    assert oldIds.GetOr([]) == Fingerprints(d.model.Acls());
    AfterSet(root, root', Acls);
    var found := FingerprintsToRules(MemberOf(root'.value.members, k), ids);
    m' := m.(acls := found);
    ArrayOfSlot(MemberOf(root.value.members, k), oldIds, ReadFingerprint);
  }

  lemma FingerprintOfNormal(r: Rule)
    ensures Fingerprint(Normalize(r)) == Fingerprint(r)
  {
    NormalizeIdempotent(r);
  }

  lemma ArrayOfSlot<K>(slot: Option<Node>, ids: Option<seq<K>>, read: Json -> Result<K>)
    requires SeqSlot(slot, ids, read)
    ensures ids.Some? ==> slot.Some? && slot.value.value.Arr? && |slot.value.value.elems| == |ids.value|
  {
  }

  lemma ElementReadsBack(c: CVal)
    requires c.CObj?
    ensures Canonical(Std(RenderCanonical(c))) == Ok(c)
  {
    CanonUndoesRender(c, true);
  }

  lemma CanonicalListObjects(input: Input, s: Section)
    requires CanonicalList(input, s).Ok? && CanonicalList(input, s).value.Some?
    ensures forall c | c in CanonicalList(input, s).value.value :: c.CObj?
  {
    DecodeEachElem(input.lists[s], Canonical);
  }

  function SetList(m: Model, s: Section, items: Option<seq<CVal>>): (r: Model)
    requires s in LIST_SECTIONS
    ensures Lookup(r.lists, s) == items && r.List(s) == items.GetOr([])
    ensures forall t | t != s :: SameField(m, r, t)
    ensures (forall t | t in m.lists :: t in LIST_SECTIONS) ==> forall t | t in r.lists :: t in LIST_SECTIONS
  {
    ListSectionKinds(s);
    m.(lists := if items.Some? then m.lists[s := items.value] else m.lists - {s})
  }

  lemma ListReady(root: Node, d: Document, m: Model, s: Section)
    requires SectionReady(root, d, m, s) && s in LIST_SECTIONS
    ensures root.value.Obj? && OneSpelling(root.value.members)
    ensures var k := KeyOf(root.value.members, s);
            d.keys.Of(s) == k && SeqSlot(MemberOf(root.value.members, k), Lookup(d.model.lists, s), Canonical)
  {
    hide OneSpelling, KeyOf, MemberOf, SeqSlot;
    ListSectionKinds(s);
  }

  lemma ListOps(d: Document, input: Input, unit: string, s: Section)
    requires s in LIST_SECTIONS && CanonicalList(input, s).Ok? && CanonicalList(input, s).value.Some?
    ensures var items := CanonicalList(input, s).value.value;
            var prior := Lookup(d.model.lists, s);
            SectionOps(d, input, unit, s) ==
            Ok(DiffSeq(Child("", d.keys.Of(s)), prior.Some?, prior.GetOr([]), items, RenderElements(items), unit, unit))
  {
    hide CanonicalList, DiffSeq, RenderElements;
    ListSectionKinds(s);
    assert Lookup(d.model.lists, s).GetOr([]) == d.model.List(s);
  }

  lemma ListDone(root: Node, root': Node, d: Document, m: Model, input: Input, s: Section, ids: Option<seq<CVal>>)
    requires SectionReady(root, d, m, s) && s in LIST_SECTIONS && Submitted(input, s)
    requires TopFrame(root, root', s, false)
    requires SeqSlot(MemberOf(root'.value.members, KeyOf(root'.value.members, s)), ids, Canonical)
    requires CanonicalList(input, s) == Ok(Some(ids.GetOr([])))
    requires var items := ids.GetOr([]);
             ListFrame(MemberOf(root.value.members, KeyOf(root.value.members, s)),
                       MemberOf(root'.value.members, KeyOf(root'.value.members, s)),
                       Lookup(d.model.lists, s), items, RenderElements(items))
    ensures SectionDone(root, root', m, SetList(m, s, ids), d.model, input, s)
  {
    hide OneSpelling, KeyOf, MemberOf, SeqSlot, TopFrame, ListFrame, CanonicalList, RenderElements, SetList,
         SameField;
    ListSectionKinds(s);
    assert SectionReady(root, d, m, s);
    assert forall t | t in m.lists :: t in LIST_SECTIONS;
  }

  lemma ListSectionRun(root: Node, d: Document, input: Input, unit: string, s: Section, m: Model)
    returns (root': Node, m': Model)
    requires SectionReady(root, d, m, s) && Submitted(input, s) && s in LIST_SECTIONS && CanonicalList(input, s).Ok?
    ensures OpsLead(root, root', d, input, unit, s)
    ensures SectionDone(root, root', m, m', d.model, input, s)
  {
    hide SectionReady, SectionDone, SectionOps, OneSpelling, KeyOf, SeqSlot, SetMember, TopFrame, DiffSeq,
         MemberOf, ApplyAll, RenderCanonical, Canonical, Lcs.Rebuilt, Std, SetList;
    assert s in input.lists by { ListSectionKinds(s); }
    var items := CanonicalList(input, s).value.value;
    ListReady(root, d, m, s);
    ListOps(d, input, unit, s);
    CanonicalListObjects(input, s);
    forall j | 0 <= j < |items| ensures Canonical(Std(RenderElements(items)[j])) == Ok(items[j]) {
      ElementReadsBack(items[j]);
    }
    var k := KeyOf(root.value.members, s);
    var ids: Option<seq<CVal>>;
    root', ids := DiffSeqRun(root, k, Lookup(d.model.lists, s), items, RenderElements(items), Canonical, unit, unit);
    AfterSet(root, root', s);
    ArrayOfSlot(MemberOf(root.value.members, k), Lookup(d.model.lists, s), Canonical);
    m' := SetList(m, s, ids);
    ListDone(root, root', d, m, input, s, ids);
  }

  lemma ApproversReady(root: Node, d: Document, m: Model)
    requires SectionReady(root, d, m, AutoApprovers)
    ensures root.value.Obj? && OneSpelling(root.value.members)
    ensures var k := KeyOf(root.value.members, AutoApprovers);
            d.keys.Of(AutoApprovers) == k && ApproverSlot(MemberOf(root.value.members, k), d.model.approvers)
  {
    hide OneSpelling, KeyOf, MemberOf, ApproverSlot;
  }

  lemma ApproverOps(d: Document, input: Input, unit: string)
    requires input.approvers.Some?
    ensures SectionOps(d, input, unit, AutoApprovers) ==
            Ok(DiffApprovers(Child("", d.keys.Of(AutoApprovers)), d.model.approvers, input.approvers.value, unit))
  {
    hide DiffApprovers, Child;
  }

  lemma ApproverSectionDone(root: Node, root': Node, d: Document, m: Model, input: Input, a: Option<Approvers>)
    requires root.value.Obj? && root'.value.Obj? && Submitted(input, AutoApprovers)
    requires TopFrame(root, root', AutoApprovers, false)
    requires ApproverSlot(MemberOf(root'.value.members, KeyOf(root'.value.members, AutoApprovers)), a)
    requires SlotDone(MemberOf(root.value.members, KeyOf(root.value.members, AutoApprovers)),
                      MemberOf(root'.value.members, KeyOf(root'.value.members, AutoApprovers)),
                      m.(approvers := a), d.model, input, AutoApprovers)
    requires SectionReady(root, d, m, AutoApprovers)
    ensures SectionDone(root, root', m, m.(approvers := a), d.model, input, AutoApprovers)
  {
    hide OneSpelling, KeyOf, MemberOf, TopFrame, ApproverSlot, SlotDone;
  }

  lemma ApproverSlotDone(was: Option<Node>, now: Option<Node>, m: Model, prior: Model, input: Input, a: Approvers,
                         a': Approvers)
    requires Submitted(input, AutoApprovers) && prior.approvers == Some(a) && m.approvers == Some(a')
    requires was.Some? && now.Some? && ApproversDone(was.value, now.value, a, a', input.approvers.value)
    ensures SlotDone(was, now, m, prior, input, AutoApprovers)
  {
    hide ApproverFrame, RoutesClear, ExitClear, ApproversApart, DecodeApprovers, NonMeta, ApproversShape;
    DecodedShape(now.value, a');
  }

  /** Without a section there was nothing to repeat. */
  lemma ApproverSlotNew(was: Option<Node>, now: Option<Node>, m: Model, prior: Model, input: Input,
                        a': Option<Approvers>)
    requires Submitted(input, AutoApprovers) && prior.approvers.None? && m.approvers == a'
    requires var cur := input.approvers.value;
             && (if a'.Some? then a'.value.Routes() == NonMeta(cur.routes) && a'.value.ExitNode() == cur.exitNode
                 else |cur.routes| == 0 && cur.exitNode == [])
             && (|cur.routes| == 0 && cur.exitNode == [] ==> now == was)
             && (ApproversApart(was) ==> ApproversApart(now))
    ensures SlotDone(was, now, m, prior, input, AutoApprovers)
  {
    hide ApproversApart;
    if a'.None? { assert input.approvers.value.routes == map[]; }
  }

  lemma ApproverSectionRun(root: Node, d: Document, input: Input, unit: string, m: Model)
    returns (root': Node, m': Model)
    requires SectionReady(root, d, m, AutoApprovers) && Submitted(input, AutoApprovers)
    requires SectionGoes(root, d, input, unit, AutoApprovers)
    ensures OpsLead(root, root', d, input, unit, AutoApprovers)
    ensures SectionDone(root, root', m, m', d.model, input, AutoApprovers)
  {
    hide SectionReady, SectionDone, SectionOps, OneSpelling, KeyOf, ApproverSlot, SetMember, TopFrame,
         DiffApprovers, MemberOf, ApplyAll, SlotDone, ApproversDone, ApproversApart;
    ApproversReady(root, d, m);
    ApproverOps(d, input, unit);
    var k := KeyOf(root.value.members, AutoApprovers);
    var prior, cur := d.model.approvers, input.approvers.value;
    var a: Option<Approvers>;
    root', a := DiffApproversRun(root, k, prior, cur, unit);
    AfterSet(root, root', AutoApprovers);
    m' := m.(approvers := a);
    var was, now := MemberOf(root.value.members, k), MemberOf(root'.value.members, k);
    if prior.Some? {
      ApproverSlotObject(was, prior);
      ApproverSlotDone(was, now, m', d.model, input, prior.value, a.value);
    } else {
      ApproverSlotNew(was, now, m', d.model, input, a);
    }
    ApproverSectionDone(root, root', d, m, input, a);
  }

  lemma ApproverSectionGoes(root: Node, d: Document, input: Input, unit: string, m: Model)
    requires SectionReady(root, d, m, AutoApprovers) && Submitted(input, AutoApprovers)
    requires ApproversGo(MemberOf(root.value.members, KeyOf(root.value.members, AutoApprovers)), d.model.approvers,
                         input.approvers.value)
    ensures SectionGoes(root, d, input, unit, AutoApprovers)
  {
    hide SectionReady, SectionOps, OneSpelling, KeyOf, ApproverSlot, DiffApprovers, MemberOf, ApplyAll, ApproversGo;
    ApproversReady(root, d, m);
    ApproverOps(d, input, unit);
    ApproversRun(root, KeyOf(root.value.members, AutoApprovers), d.model.approvers, input.approvers.value, unit);
  }

  lemma ApproverSlotObject(slot: Option<Node>, a: Option<Approvers>)
    requires ApproverSlot(slot, a) && a.Some?
    ensures slot.Some? && slot.value.value.Obj?
  {
  }

  lemma TopOp(root: Node, k: string, c: Change)
    requires EditHere(root, k, c).Ok?
    ensures ApplyAll(root, [Op(c, Child("", k))]) == EditHere(root, k, c)
  {
    OneOp(root, "", [], k, c);
  }

  lemma FlagOps(d: Document, input: Input, unit: string)
    requires input.randomize.Some?
    ensures SectionOps(d, input, unit, RandomizeClientPort) ==
            Ok(DiffFlag(Child("", d.keys.Of(RandomizeClientPort)), d.model.randomize, input.randomize.value))
  {
  }

  lemma FlagReady(root: Node, d: Document, m: Model)
    requires SectionReady(root, d, m, RandomizeClientPort)
    ensures root.value.Obj? && OneSpelling(root.value.members)
    ensures var k := KeyOf(root.value.members, RandomizeClientPort);
            d.keys.Of(RandomizeClientPort) == k && FlagSlot(MemberOf(root.value.members, k), d.model.randomize)
  {
    hide OneSpelling, KeyOf, MemberOf, FlagSlot;
  }

  lemma FlagDone(root: Node, root': Node, d: Document, m: Model, input: Input)
    requires SectionReady(root, d, m, RandomizeClientPort) && input.randomize.Some?
    requires TopFrame(root, root', RandomizeClientPort, Drops(d.model, input, RandomizeClientPort))
    requires FlagSlot(MemberOf(root'.value.members, KeyOf(root'.value.members, RandomizeClientPort)),
                      if input.randomize.value then Some(true) else None)
    requires DiffFlag("", d.model.randomize, input.randomize.value) == [] ==> root' == root
    ensures SectionDone(root, root', m, m.(randomize := if input.randomize.value then Some(true) else None), d.model,
                        input, RandomizeClientPort)
  {
    hide OneSpelling, KeyOf, MemberOf, FlagSlot, TopFrame;
  }

  lemma FlagSectionRun(root: Node, d: Document, input: Input, unit: string, m: Model)
    returns (root': Node, m': Model)
    requires SectionReady(root, d, m, RandomizeClientPort) && Submitted(input, RandomizeClientPort)
    ensures OpsLead(root, root', d, input, unit, RandomizeClientPort)
    ensures SectionDone(root, root', m, m', d.model, input, RandomizeClientPort)
  {
    hide SectionOf, OneSpelling, Others, FirstOf, KeyOf, SetMember, TopFrame, MemberOf, EditHere, ApplyOp,
         SectionOps, SectionDone, SectionReady, Fits;
    var s := RandomizeClientPort;
    FlagReady(root, d, m);
    FlagOps(d, input, unit);
    var k := KeyOf(root.value.members, s);
    var want, cur := input.randomize.value, d.model.randomize;
    var n := Plain(Bool(true));
    m' := m.(randomize := if want then Some(true) else None);
    SetMemberEffect(root, k, n);
    SetKeepsSections(root, s, n);
    if want && cur.None? {
      TopOp(root, k, Add(n));
      root' := SetMember(root, k, n);
    } else if want && cur == Some(false) {
      TopOp(root, k, Replace(n));
      root' := SetMember(root, k, n);
    } else if !want && cur.Some? {
      RemoveDropsSection(root, s);
      TopOp(root, k, Remove);
      root' := EditHere(root, k, Remove).value;
    } else {
      root' := root;
      AfterSet(root, root, s);
    }
    FlagDone(root, root', d, m, input);
  }
}

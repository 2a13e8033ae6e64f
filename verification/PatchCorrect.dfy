/** The patcher's theorems (internal/aclmodel/patch.go), for every document that parses and every validated input.
    When the planned operations apply, the result parses; they apply and its model is the requested one exactly when
    no host name starts with "#" and no name that has to change is repeated; and what was not touched is the
    identical node in its place. */
module PatchCorrect {
  import opened Base
  import opened Text
  import opened Tree
  import opened Names
  import opened AclModel
  import opened Render
  import opened Plan
  import opened MapRuns
  import opened SectionRuns
  import opened ApproverRuns
  import opened Slots
  import opened PatchRun

  /** One section's operations, whatever the section. */
  lemma SectionRun(root: Node, d: Document, input: Input, unit: string, s: Section, m: Model)
    returns (root': Node, m': Model)
    requires SectionReady(root, d, m, s) && SectionGoes(root, d, input, unit, s)
    ensures OpsLead(root, root', d, input, unit, s)
    ensures SectionDone(root, root', m, m', d.model, input, s)
  {
    hide SectionReady, SectionDone, ApplyAll;
    if !Submitted(input, s) {
      NothingSubmitted(root, d, input, unit, s, m);
      ApplyNothing(root);
      root', m' := root, m;
    } else {
      match s
      case Groups => root', m' := GroupsSectionRun(root, d, input, unit, m);
      case TagOwners => root', m' := OwnersSectionRun(root, d, input, unit, m);
      case Hosts => root', m' := HostsSectionRun(root, d, input, unit, m);
      case Acls => root', m' := RuleSectionRun(root, d, input, unit, m);
      case AutoApprovers => root', m' := ApproverSectionRun(root, d, input, unit, m);
      case RandomizeClientPort => root', m' := FlagSectionRun(root, d, input, unit, m);
      case _ =>
        ListSectionOrNot(s);
        root', m' := ListSectionRun(root, d, input, unit, s, m);
    }
  }

  /** Only repeated routes can make a section's operations fail. */
  lemma SectionCanRun(root: Node, d: Document, input: Input, unit: string, s: Section, m: Model)
    requires SectionReady(root, d, m, s) && SectionOps(d, input, unit, s).Ok?
    requires s == AutoApprovers && Submitted(input, s) ==>
               ApproversGo(SlotNode(root.value.members, s), d.model.approvers, input.approvers.value)
    ensures SectionGoes(root, d, input, unit, s)
  {
    hide SectionReady, SectionDone, ApplyAll, ApproversGo;
    if !Submitted(input, s) {
      NothingSubmitted(root, d, input, unit, s, m);
      ApplyNothing(root);
    } else {
      match s
      case Groups => var _, _ := GroupsSectionRun(root, d, input, unit, m);
      case TagOwners => var _, _ := OwnersSectionRun(root, d, input, unit, m);
      case Hosts => var _, _ := HostsSectionRun(root, d, input, unit, m);
      case Acls => var _, _ := RuleSectionRun(root, d, input, unit, m);
      case AutoApprovers => ApproverSectionGoes(root, d, input, unit, m);
      case RandomizeClientPort => var _, _ := FlagSectionRun(root, d, input, unit, m);
      case _ =>
        ListSectionOrNot(s);
        var _, _ := ListSectionRun(root, d, input, unit, s, m);
    }
  }

  function SlotNode(ms: seq<Member>, s: Section): Option<Node> { MemberOf(ms, KeyOf(ms, s)) }

  lemma SlotCongruent(ms: seq<Member>, ms': seq<Member>, m: Model, m': Model, s: Section)
    requires OneSpelling(ms) && OneSpelling(ms') && FirstOf(ms', s) == FirstOf(ms, s)
    ensures KeyOf(ms', s) == KeyOf(ms, s) && SlotNode(ms', s) == SlotNode(ms, s)
    ensures SameField(m, m', s) && Fits(ms, m, s) ==> Fits(ms', m', s)
  {
    hide MapSlot, SeqSlot, RulesSlot, FlagSlot, ApproverSlot, OneSpelling, FirstOf, MemberOf;
    KeyNamesSlot(ms, s);
    KeyNamesSlot(ms', s);
  }

  lemma WantedCongruent(m: Model, m': Model, input: Input, s: Section)
    requires Submitted(input, s) && SameField(m, m', s)
    ensures Wanted(m', input, s) <==> Wanted(m, input, s)
  {
    hide CanonicalList, Fingerprint, EnabledRules;
  }

  /** Section s of the patched document, against the document it came from. */
  ghost predicate Section1(ms0: seq<Member>, ms: seq<Member>, m: Model, prior: Model, input: Input, s: Section,
                           planned: bool)
  {
    if planned && Submitted(input, s) then
      SlotDone(SlotNode(ms0, s), SlotNode(ms, s), m, prior, input, s)
    else
      FirstOf(ms, s) == FirstOf(ms0, s) && SameField(prior, m, s)
  }

  /** The members of ms0 but those named in gone, each with the comments around its name, and then new ones. */
  ghost predicate HeadsFrom(ms0: seq<Member>, ms: seq<Member>, gone: set<string>) {
    var base := Others(ms0, gone);
    && |base| <= |ms|
    && (forall i | 0 <= i < |base| :: SameHead(base[i], ms[i]))
    && (forall i | |base| <= i < |ms| ::
          ms[i].nameBefore == "" && ms[i].nameAfter == "" && forall m | m in ms0 :: m.name != ms[i].name)
  }

  lemma {:induction false} AllStay(ms: seq<Member>)
    ensures Others(ms, {}) == ms
  {
    if ms != [] { AllStay(ms[1..]); }
  }

  lemma HeadsStart(ms: seq<Member>)
    ensures HeadsFrom(ms, ms, {})
  {
    AllStay(ms);
  }

  lemma HeadsAppend(ms0: seq<Member>, ms: seq<Member>, ms': seq<Member>, gone: set<string>, k: string)
    requires HeadsFrom(ms0, ms, gone) && HeadsKept(ms, ms', k)
    requires Index(ms, k).None? ==> forall m | m in ms0 :: m.name != k
    ensures HeadsFrom(ms0, ms', gone)
  {
    hide Others;
  }

  lemma {:induction false} OthersHeads(a: seq<Member>, b: seq<Member>, gone: set<string>)
    requires |a| == |b| && forall i | 0 <= i < |a| :: SameHead(a[i], b[i])
    ensures |Others(a, gone)| == |Others(b, gone)|
    ensures forall i | 0 <= i < |Others(a, gone)| :: SameHead(Others(a, gone)[i], Others(b, gone)[i])
  {
    if a != [] { OthersHeads(a[1..], b[1..], gone); }
  }

  lemma HeadsDrop(ms0: seq<Member>, ms: seq<Member>, k: string)
    requires HeadsFrom(ms0, ms, {}) && exists m :: m in ms0 && m.name == k
    ensures HeadsFrom(ms0, Others(ms, {k}), {k})
  {
    hide Others;
    AllStay(ms0);
    var n := |ms0|;
    assert ms == ms[..n] + ms[n..];
    OthersConcat(ms[..n], ms[n..], {k});
    NoneToDrop(ms[n..], k);
    OthersHeads(ms0, ms[..n], {k});
  }

  /** The spelling of a port switch that is taken out. */
  function Dropped(d: Document, input: Input, sections: seq<Section>): set<string> {
    if RandomizeClientPort in sections && Drops(d.model, input, RandomizeClientPort)
    then {d.keys.Of(RandomizeClientPort)} else {}
  }

  /** The document after the operations of some sections ran. */
  ghost predicate Progress(root0: Node, root: Node, m: Model, d: Document, input: Input, sections: seq<Section>) {
    && SameShell(root0, root) && OneSpelling(root0.value.members) && OneSpelling(root.value.members)
    && HeadsFrom(root0.value.members, root.value.members, Dropped(d, input, sections))
    && (forall s :: d.keys.Of(s) == KeyOf(root0.value.members, s))
    && (forall s :: Fits(root.value.members, m, s))
    && (forall s | s in m.lists :: s in LIST_SECTIONS)
    && (forall s :: Section1(root0.value.members, root.value.members, m, d.model, input, s, s in sections))
    && var touched := KeysInUse(d, input, sections);
       Others(root.value.members, touched) == Others(root0.value.members, touched)
  }

  /** Running one more section carries the progress on. */
  lemma ProgressStep(root0: Node, root: Node, root': Node, m: Model, m': Model, d: Document, input: Input,
                     sections: seq<Section>, s: Section)
    requires Progress(root0, root, m, d, input, sections) && s !in sections
    requires SectionDone(root, root', m, m', d.model, input, s)
    ensures Progress(root0, root', m', d, input, sections + [s])
  {
    hide Fits, SlotDone, SameField, OneSpelling, FirstOf, Others, KeyOf, SlotNode, Submitted, MemberOf, KeysInUse,
         HeadsFrom, HeadsKept, Dropped, Drops;
    var ms0, ms, ms' := root0.value.members, root.value.members, root'.value.members;
    assert Section1(ms0, ms, m, d.model, input, s, false);
    SlotCongruent(ms0, ms, m, m, s);
    HeadsStep(root0, root, root', m, m', d, input, sections, s);
    forall t ensures Fits(ms', m', t) && Section1(ms0, ms', m', d.model, input, t, t in sections + [s]) {
      assert Section1(ms0, ms, m, d.model, input, t, t in sections);
      if t != s {
        assert FirstOf(ms', t) == FirstOf(ms, t);
        SlotCongruent(ms, ms', m, m', t);
        if t in sections && Submitted(input, t) {
          SlotDoneCongruent(SlotNode(ms0, t), SlotNode(ms, t), m, m', d.model, input, t);
        } else {
          SameFieldTransitive(d.model, m, m', t);
        }
      } else {
        SlotDef(ms', s);
        SlotDef(ms, s);
      }
    }
    OthersStep(ms0, ms, ms', d, input, sections, s);
  }

  lemma SlotDoneCongruent(was: Option<Node>, now: Option<Node>, m: Model, m': Model, prior: Model, input: Input,
                          s: Section)
    requires Submitted(input, s) && SameField(m, m', s) && SlotDone(was, now, m, prior, input, s)
    ensures SlotDone(was, now, m', prior, input, s)
  {
    hide Wanted, InnerFrame, SectionClear, SectionApart, SameField;
    WantedCongruent(m, m', input, s);
  }

  lemma HeadsStep(root0: Node, root: Node, root': Node, m: Model, m': Model, d: Document, input: Input,
                  sections: seq<Section>, s: Section)
    requires Progress(root0, root, m, d, input, sections) && s !in sections
    requires SectionDone(root, root', m, m', d.model, input, s)
    ensures HeadsFrom(root0.value.members, root'.value.members, Dropped(d, input, sections + [s]))
  {
    hide SlotDone, SameField, OneSpelling, FirstOf, Others, SlotNode, Submitted, KeysInUse, HeadsFrom, HeadsKept,
         SectionOf, OnlySection, MapSlot, SeqSlot, RulesSlot, ApproverSlot;
    var ms0, ms, ms' := root0.value.members, root.value.members, root'.value.members;
    assert Section1(ms0, ms, m, d.model, input, s, false);
    var k := KeyOf(ms, s);
    KeyNamesSlot(ms, s);
    KeyNamesSlot(ms0, s);
    assert FirstOf(ms, s) == FirstOf(ms0, s);
    if Drops(d.model, input, s) {
      SameFlag(d.model, m, s);
      assert Fits(ms, m, s);
      assert MemberOf(ms0, k).Some?;
      assert ms0[Index(ms0, k).value] in ms0;
      assert Dropped(d, input, sections) == {} && Dropped(d, input, sections + [s]) == {k};
      HeadsDrop(ms0, ms, k);
    } else {
      assert Dropped(d, input, sections + [s]) == Dropped(d, input, sections);
      if Index(ms, k).None? {
        forall x | x in ms0 ensures x.name != k {}
      }
      HeadsAppend(ms0, ms, ms', Dropped(d, input, sections), k);
    }
  }

  lemma SameFlag(a: Model, b: Model, s: Section)
    requires s == RandomizeClientPort && SameField(a, b, s)
    ensures a.randomize == b.randomize
  {
  }

  /** The keys of the submitted ones among some sections. */
  function KeysInUse(d: Document, input: Input, sections: seq<Section>): set<string> {
    set s | s in sections && Submitted(input, s) :: d.keys.Of(s)
  }

  lemma OthersStep(ms0: seq<Member>, ms: seq<Member>, ms': seq<Member>, d: Document, input: Input,
                   sections: seq<Section>, s: Section)
    requires Others(ms, KeysInUse(d, input, sections)) == Others(ms0, KeysInUse(d, input, sections))
    requires if Submitted(input, s) then Others(ms', {d.keys.Of(s)}) == Others(ms, {d.keys.Of(s)}) else ms' == ms
    ensures Others(ms', KeysInUse(d, input, sections + [s])) == Others(ms0, KeysInUse(d, input, sections + [s]))
  {
    hide Others, Submitted;
    var before, after := KeysInUse(d, input, sections), KeysInUse(d, input, sections + [s]);
    if Submitted(input, s) {
      assert s in sections + [s];
      OthersWiden(ms', ms, {d.keys.Of(s)}, after);
      assert before <= after;
      OthersWiden(ms, ms0, before, after);
    } else {
      assert after == before;
    }
  }

  lemma SlotDef(ms: seq<Member>, s: Section)
    ensures SlotNode(ms, s) == MemberOf(ms, KeyOf(ms, s))
  {
  }

  lemma SameFieldTransitive(a: Model, b: Model, c: Model, s: Section)
    requires SameField(a, b, s) && SameField(b, c, s)
    ensures SameField(a, c, s)
  {
  }

  lemma SameFieldReflexive(a: Model, s: Section)
    ensures SameField(a, a, s)
  {
  }

  lemma SameFieldSymmetric(a: Model, b: Model, s: Section)
    ensures SameField(a, b, s) ==> SameField(b, a, s)
  {
  }

  lemma {:induction false} SectionsRun(root: Node, d: Document, input: Input, unit: string, sections: seq<Section>)
    returns (root': Node, m': Model)
    requires ParseDocument(root) == Ok(d)
    requires Distinct(sections) && SectionsOps(d, input, unit, sections).Ok?
    requires ApplyAll(root, SectionsOps(d, input, unit, sections).value).Ok?
    ensures ApplyAll(root, SectionsOps(d, input, unit, sections).value) == Ok(root')
    ensures Progress(root, root', m', d, input, sections)
  {
    hide Fits, SameField, OneSpelling, FirstOf, Others, KeyOf, Submitted, SectionOps, ParseDocument, ApplyAll,
         SectionDone, SlotDone, HeadsFrom, Drops;
    ParsedFits(root);
    if sections == [] {
      root', m' := root, d.model;
      ApplyNothing(root);
      HeadsStart(root.value.members);
      forall s ensures Section1(root.value.members, root.value.members, d.model, d.model, input, s, false) {
        SameFieldReflexive(d.model, s);
      }
    } else {
      var init, s := sections[..|sections| - 1], sections[|sections| - 1];
      assert sections == init + [s] && s !in init;
      ApplyConcat(root, SectionsOps(d, input, unit, init).value, SectionOps(d, input, unit, s).value);
      var root1, m1 := SectionsRun(root, d, input, unit, init);
      SectionIsReady(root, root1, m1, d, input, init, s);
      root', m' := SectionRun(root1, d, input, unit, s, m1);
      ProgressStep(root, root1, root', m1, m', d, input, init, s);
    }
  }

  lemma SectionIsReady(root: Node, root1: Node, m1: Model, d: Document, input: Input, sections: seq<Section>,
                       s: Section)
    requires Progress(root, root1, m1, d, input, sections) && s !in sections && Fits(root.value.members, d.model, s)
    ensures SectionReady(root1, d, m1, s)
    ensures SlotNode(root1.value.members, s) == SlotNode(root.value.members, s)
  {
    hide Fits, SameField, OneSpelling, FirstOf, Others, KeyOf, Submitted, SlotDone, HeadsFrom, Drops, SlotNode;
    var ms, ms1 := root.value.members, root1.value.members;
    assert Section1(ms, ms1, m1, d.model, input, s, false);
    SlotCongruent(ms, ms1, d.model, m1, s);
    SameFieldSymmetric(d.model, m1, s);
  }

  /** The operations run unless repeated routes stand in the way. */
  lemma {:induction false} SectionsGo(root: Node, d: Document, input: Input, unit: string, sections: seq<Section>)
    requires ParseDocument(root) == Ok(d) && Distinct(sections) && SectionsOps(d, input, unit, sections).Ok?
    requires root.value.Obj? && (Submitted(input, AutoApprovers) ==>
               ApproversGo(SlotNode(root.value.members, AutoApprovers), d.model.approvers, input.approvers.value))
    ensures ApplyAll(root, SectionsOps(d, input, unit, sections).value).Ok?
  {
    hide Fits, KeyOf, SectionOps, ParseDocument, ApplyAll, Progress, SectionReady, ApproversGo, SlotNode;
    ParsedFits(root);
    if sections == [] {
      ApplyNothing(root);
    } else {
      var init, s := sections[..|sections| - 1], sections[|sections| - 1];
      assert sections == init + [s] && s !in init;
      SectionsGo(root, d, input, unit, init);
      var root1, m1 := SectionsRun(root, d, input, unit, init);
      SectionIsReady(root, root1, m1, d, input, init, s);
      ReadyIsObject(root1, d, m1, s);
      SectionCanRun(root1, d, input, unit, s, m1);
      ApplyConcat(root, SectionsOps(d, input, unit, init).value, SectionOps(d, input, unit, s).value);
    }
  }

  lemma ReadyIsObject(root: Node, d: Document, m: Model, s: Section)
    requires SectionReady(root, d, m, s)
    ensures root.value.Obj?
  {
  }

  lemma PlanOrderComplete()
    ensures Distinct(PLAN_ORDER)
    ensures forall s :: s in PLAN_ORDER
  {
    assert PLAN_ORDER[0] == Groups && PLAN_ORDER[1] == TagOwners && PLAN_ORDER[2] == Hosts && PLAN_ORDER[3] == Acls
        && PLAN_ORDER[9] == AutoApprovers && PLAN_ORDER[10] == RandomizeClientPort;
    forall s ensures s in PLAN_ORDER { ListSectionOrNot(s); }
  }

  lemma {:induction false} SectionsPlan(d: Document, input: Input, unit: string, sections: seq<Section>)
    requires forall s | s in LIST_SECTIONS :: CanonicalList(input, s).Ok?
    ensures SectionsOps(d, input, unit, sections).Ok?
  {
    hide SectionOps, CanonicalList;
    if sections != [] {
      SectionsPlan(d, input, unit, sections[..|sections| - 1]);
      SectionPlans(d, input, unit, sections[|sections| - 1]);
    }
  }

  lemma SectionPlans(d: Document, input: Input, unit: string, s: Section)
    requires forall t | t in LIST_SECTIONS :: CanonicalList(input, t).Ok?
    ensures SectionOps(d, input, unit, s).Ok?
  {
    hide CanonicalList, DiffMap, DiffSeq, DiffApprovers, DiffFlag;
    ListSectionOrNot(s);
  }

  // ---- the theorems ----

  predicate NoMetadataHost(input: Input) {
    input.hosts.Some? ==> forall k | k in input.hosts.value :: !IsMetadata(k)
  }

  lemma ValidKeysAreEntries(input: Input)
    requires Validated(input)
    ensures input.groups.Some? ==> NonMeta(input.groups.value) == input.groups.value
    ensures input.tagOwners.Some? ==> NonMeta(input.tagOwners.value) == input.tagOwners.value
    ensures input.approvers.Some? ==> NonMeta(input.approvers.value.routes) == input.approvers.value.routes
    ensures input.hosts.Some? ==> (NonMeta(input.hosts.value) == input.hosts.value <==> NoMetadataHost(input))
  {
    if input.groups.Some? {
      forall k | k in input.groups.value ensures !IsMetadata(k) { assert k[0] == "group:"[0]; }
    }
    if input.tagOwners.Some? {
      forall k | k in input.tagOwners.value ensures !IsMetadata(k) { assert k[0] == "tag:"[0]; }
    }
    if input.approvers.Some? {
      forall k | k in input.approvers.value.routes ensures !IsMetadata(k) { assert k[0] in k; }
    }
    if input.hosts.Some? {
      if NonMeta(input.hosts.value) == input.hosts.value {
        forall k | k in input.hosts.value ensures !IsMetadata(k) { assert k in NonMeta(input.hosts.value); }
      }
    }
  }

  /** One section's share of comparing two models. */
  predicate EqualSection(a: Model, b: Model, s: Section) {
    match s
    case Groups => a.groups.GetOr(map[]) == b.groups.GetOr(map[])
    case TagOwners => a.tagOwners.GetOr(map[]) == b.tagOwners.GetOr(map[])
    case Hosts => a.hosts.GetOr(map[]) == b.hosts.GetOr(map[])
    case Acls => Fingerprints(a.Acls()) == Fingerprints(b.Acls())
    case AutoApprovers => a.Routes() == b.Routes() && a.ExitNode() == b.ExitNode()
    case RandomizeClientPort => BoolValue(a.randomize) == BoolValue(b.randomize)
    case _ => a.List(s) == b.List(s)
  }

  lemma EqualBySection(a: Model, b: Model)
    ensures EqualModels(a, b) <==> forall s :: EqualSection(a, b, s)
  {
    hide Fingerprint;
    if forall s :: EqualSection(a, b, s) {
      assert EqualSection(a, b, Groups) && EqualSection(a, b, TagOwners) && EqualSection(a, b, Hosts) &&
             EqualSection(a, b, Acls)
          && EqualSection(a, b, AutoApprovers) && EqualSection(a, b, RandomizeClientPort);
      forall s | s in LIST_SECTIONS ensures a.List(s) == b.List(s) {
        ListSectionKinds(s);
        assert EqualSection(a, b, s);
      }
    }
    if EqualModels(a, b) {
      forall s ensures EqualSection(a, b, s) { ListSectionOrNot(s); }
    }
  }

  lemma RequestedIs<K, V>(prior: Option<map<K, V>>, submitted: Option<map<K, V>>)
    ensures Requested(prior, submitted).GetOr(map[]) == if submitted.Some? then submitted.value else prior.GetOr(map[])
  {
    if submitted.Some? && |submitted.value| == 0 { assert submitted.value == map[]; }
  }

  lemma RequestedHosts(m: Model, prior: Model, input: Input)
    requires Validated(input) && forall k | k in m.hosts.GetOr(map[]) :: !IsMetadata(k)
    requires !Submitted(input, Hosts) ==> SameField(prior, m, Hosts)
    ensures EqualSection(m, ModelFromInput(prior, input), Hosts) <==>
            NoMetadataHost(input) && (Submitted(input, Hosts) ==> Wanted(m, input, Hosts))
  {
    hide CanonicalList, EnabledRules, NonMeta, Validated, Requested, NoMetadataHost, IsMetadata;
    ValidKeysAreEntries(input);
    RequestedIs(prior.hosts, input.hosts);
    if input.hosts.None? { NoHostsSubmitted(input); } else { PlainHosts(input); }
  }

  lemma NoHostsSubmitted(input: Input)
    requires input.hosts.None?
    ensures NoMetadataHost(input)
  {
  }

  lemma PlainHosts(input: Input)
    requires input.hosts.Some?
    ensures NoMetadataHost(input) <==> forall k | k in input.hosts.value :: !IsMetadata(k)
  {
  }

  /** The sections in which a repeated name can keep its old value. */
  predicate NamesEntries(s: Section) { s in {Groups, TagOwners, Hosts, AutoApprovers} }

  lemma RequestedSection(m: Model, prior: Model, input: Input, s: Section)
    requires Validated(input) && s != Hosts
    requires !Submitted(input, s) ==> SameField(prior, m, s)
    ensures (Submitted(input, s) ==> Wanted(m, input, s)) ==> EqualSection(m, ModelFromInput(prior, input), s)
    ensures NamesEntries(s) && EqualSection(m, ModelFromInput(prior, input), s) && Submitted(input, s) ==>
              Wanted(m, input, s)
  {
    hide CanonicalList, Fingerprint, EnabledRules, NonMeta, Validated, Requested;
    ValidKeysAreEntries(input);
    ListSectionOrNot(s);
    if s in LIST_SECTIONS {
      if Submitted(input, s) ==> Wanted(m, input, s) { RequestedList(m, prior, input, s); }
      ListSectionKinds(s);
    } else {
      RequestedIs(prior.groups, input.groups);
      RequestedIs(prior.tagOwners, input.tagOwners);
    }
  }

  lemma RequestedModel(m: Model, prior: Model, input: Input)
    requires Validated(input) && forall k | k in m.hosts.GetOr(map[]) :: !IsMetadata(k)
    requires forall s | !Submitted(input, s) :: SameField(prior, m, s)
    requires forall s | Submitted(input, s) && !NamesEntries(s) :: Wanted(m, input, s)
    ensures EqualModels(m, ModelFromInput(prior, input)) <==>
            NoMetadataHost(input) && forall s | Submitted(input, s) :: Wanted(m, input, s)
  {
    hide EqualSection, ModelFromInput, NoMetadataHost, Validated, Submitted, SameField, Wanted, EqualModels,
         IsMetadata;
    var want := ModelFromInput(prior, input);
    EqualBySection(m, want);
    RequestedHosts(m, prior, input);
    forall s | s != Hosts
      ensures EqualSection(m, want, s) <==> (Submitted(input, s) ==> Wanted(m, input, s))
    {
      RequestedSection(m, prior, input, s);
    }
  }

  lemma RequestedList(m: Model, prior: Model, input: Input, s: Section)
    requires s in LIST_SECTIONS
    requires if Submitted(input, s) then Wanted(m, input, s) else SameField(prior, m, s)
    ensures m.List(s) == ModelFromInput(prior, input).List(s)
  {
    hide EnabledRules, DecodeEach, Fingerprint, NonMeta, Requested;
    ListSectionKinds(s);
  }

  /** No name that the input makes the patch change is repeated in the document's objects: every submitted section
      is clear. */
  ghost predicate Clear(root: Node, input: Input)
    requires ParseDocument(root).Ok?
  {
    root.value.Obj? && forall s | Submitted(input, s) ::
      SectionClear(SlotNode(root.value.members, s), ParseDocument(root).value.model, input, s)
  }

  lemma PlanExists(root: Node, input: Input)
    requires ParseDocument(root).Ok? && Validated(input)
    ensures root.value.Obj? && PlanOps(ParseDocument(root).value, input).Ok?
  {
    hide ParseDocument;
    ParsedFits(root);
    SectionsPlan(ParseDocument(root).value, input, IndentUnit(root), PLAN_ORDER);
  }

  /** Every section ends as `Section1` says. */
  lemma PatchRuns(root: Node, input: Input) returns (root': Node, m': Model)
    requires ParseDocument(root).Ok? && Validated(input)
    requires var plan := PlanOps(ParseDocument(root).value, input); plan.Ok? && ApplyAll(root, plan.value).Ok?
    ensures var d := ParseDocument(root).value;
            ApplyAll(root, PlanOps(d, input).value) == Ok(root') && Progress(root, root', m', d, input, PLAN_ORDER)
    ensures ParseDocument(root').Ok? && ParseDocument(root').value.model == m' &&
            ParseDocument(root').value.root == root'
    ensures forall s :: s in PLAN_ORDER
    ensures ParseDocument(root).value.root == root
  {
    hide ParseDocument, SectionsOps, Fits, ApplyAll, Section1, Others, OneSpelling, KeyOf, HeadsFrom;
    var d := ParseDocument(root).value;
    ParsedFits(root);
    PlanOrderComplete();
    root', m' := SectionsRun(root, d, input, IndentUnit(root), PLAN_ORDER);
    FittingParses(root', m');
  }

  lemma ClearGoes(root: Node, input: Input)
    requires ParseDocument(root).Ok? && Validated(input) && Clear(root, input)
    ensures var plan := PlanOps(ParseDocument(root).value, input); plan.Ok? && ApplyAll(root, plan.value).Ok?
  {
    hide ParseDocument, SectionsOps, ApplyAll, SlotNode, Validated, NonMeta;
    var d := ParseDocument(root).value;
    ParsedFits(root);
    PlanExists(root, input);
    PlanOrderComplete();
    ValidKeysAreEntries(input);
    if Submitted(input, AutoApprovers) {
      assert SectionClear(SlotNode(root.value.members, AutoApprovers), d.model, input, AutoApprovers);
    }
    SectionsGo(root, d, input, IndentUnit(root), PLAN_ORDER);
  }

  lemma HostsArePlain(ms: seq<Member>, m: Model)
    requires Fits(ms, m, Hosts)
    ensures forall k | k in m.hosts.GetOr(map[]) :: !IsMetadata(k)
  {
    hide IsMetadata, DecodeMap;
    if m.hosts.Some? { PriorIsPlain(MemberOf(ms, KeyOf(ms, Hosts)).value, m.hosts.value, ReadString); }
  }

  /** A patched document has the requested model exactly when no host name starts with "#" and the input was clear. */
  lemma PatchedModel(root: Node, input: Input)
    requires ParseDocument(root).Ok? && Validated(input) && root.value.Obj?
    requires var plan := PlanOps(ParseDocument(root).value, input); plan.Ok? && ApplyAll(root, plan.value).Ok?
    ensures var d := ParseDocument(root).value;
            var after := ParseDocument(ApplyAll(root, PlanOps(d, input).value).value);
            && after.Ok?
            && (forall s | Submitted(input, s) ::
                  Wanted(after.value.model, input, s) <==>
                  SectionClear(SlotNode(root.value.members, s), d.model, input, s))
            && (EqualModels(after.value.model, ModelFromInput(d.model, input)) <==>
                NoMetadataHost(input) && Clear(root, input))
  {
    hide ParseDocument, PlanOps, Fits, EqualModels, ModelFromInput, ApplyAll, NoMetadataHost, Wanted, SameField,
         InnerFrame, Others, FirstOf, OneSpelling, Submitted, KeyOf, SlotNode, SectionClear, SectionApart, HeadsFrom,
         IsMetadata, NamesEntries;
    var d := ParseDocument(root).value;
    var root', m' := PatchRuns(root, input);
    HostsArePlain(root'.value.members, m');
    forall s
      ensures !Submitted(input, s) ==> SameField(d.model, m', s)
      ensures Submitted(input, s) ==>
                (Wanted(m', input, s) <==> SectionClear(SlotNode(root.value.members, s), d.model, input, s))
      ensures Submitted(input, s) && !NamesEntries(s) ==> Wanted(m', input, s)
    {
      assert Section1(root.value.members, root'.value.members, m', d.model, input, s, s in PLAN_ORDER);
      if Submitted(input, s) && !NamesEntries(s) { OthersAreClear(SlotNode(root.value.members, s), d.model, input, s); }
    }
    RequestedModel(m', d.model, input);
  }

  lemma OthersAreClear(slot: Option<Node>, prior: Model, input: Input, s: Section)
    requires Submitted(input, s) && !NamesEntries(s)
    ensures SectionClear(slot, prior, input, s)
  {
  }

  /** For every document that parses and every validated input: there is a plan; its operations all succeed in
      order, the patched tree parses and its model is the requested one, exactly when no submitted host name
      starts with "#" and no name that has to change is repeated. Whenever the operations succeed the tree parses. */
  lemma {:induction false} PatchGivesRequestedModel(root: Node, input: Input)
    requires ParseDocument(root).Ok? && Validated(input)
    ensures PlanOps(ParseDocument(root).value, input).Ok?
    ensures var d := ParseDocument(root).value;
            var after := ApplyAll(root, PlanOps(d, input).value);
            && (after.Ok? ==> ParseDocument(after.value).Ok?)
            && (after.Ok? && EqualModels(ParseDocument(after.value).value.model, ModelFromInput(d.model, input)) <==>
                NoMetadataHost(input) && Clear(root, input))
            && (Clear(root, input) ==> after.Ok?)
  {
    hide ParseDocument, PlanOps, EqualModels, ModelFromInput, ApplyAll, NoMetadataHost, Clear, SectionClear, Wanted,
         SlotNode;
    PlanExists(root, input);
    if Clear(root, input) { ClearGoes(root, input); }
    if ApplyAll(root, PlanOps(ParseDocument(root).value, input).value).Ok? { PatchedModel(root, input); }
  }

  lemma ApartMapClear<T>(slot: Option<Node>, prior: Option<map<string, T>>, cur: map<string, T>)
    requires Apart(slot)
    ensures MapClear(slot, prior, cur)
  {
    hide Named, Touched, IsMetadata;
    if slot.Some? && slot.value.value.Obj? {
      forall k ensures |Named(slot.value.value.members, k)| <= 1 { UniqueIsOnce(slot.value.value.members, k); }
    }
  }

  lemma ApartApproversClear(slot: Option<Node>, prior: Option<Approvers>, cur: InputApprovers)
    requires ApproverSlot(slot, prior) && ApproversApart(slot)
    ensures ApproversClear(slot, prior, cur)
  {
    hide DecodeApprovers, Named, MapClear;
    if prior.Some? {
      var c, a := slot.value, prior.value;
      UniqueIsOnce(c.value.members, a.routesKey.GetOr("routes"));
      UniqueIsOnce(c.value.members, a.exitKey.GetOr("exitNode"));
      DecodedShape(c, a);
      RoutesApartAt(c, a.routesKey, a.exitKey);
      ApartMapClear(MemberOf(c.value.members, a.routesKey.GetOr("routes")), a.routes, cur.routes);
    }
  }

  lemma ApartIsClear(ms: seq<Member>, m: Model, input: Input, s: Section)
    requires Fits(ms, m, s) && Submitted(input, s) && SectionApart(SlotNode(ms, s), s)
    ensures SectionClear(SlotNode(ms, s), m, input, s)
  {
    hide MapClear, ApproversClear, ApproversApart, Apart, MapSlot, SeqSlot, RulesSlot, ApproverSlot, KeyOf, MemberOf;
    match s
    case Groups => ApartMapClear(SlotNode(ms, s), m.groups, input.groups.value);
    case TagOwners => ApartMapClear(SlotNode(ms, s), m.tagOwners, input.tagOwners.value);
    case Hosts => ApartMapClear(SlotNode(ms, s), m.hosts, input.hosts.value);
    case AutoApprovers => ApartApproversClear(SlotNode(ms, s), m.approvers, input.approvers.value);
    case _ =>
  }

  /** A document whose map objects have unique names is clear for every input, and its patch leaves it so. */
  lemma UniqueIsClear(root: Node, input: Input)
    requires ParseDocument(root).Ok? && Validated(input) && UniqueEntries(root)
    ensures Clear(root, input)
    ensures var plan := PlanOps(ParseDocument(root).value, input);
            plan.Ok? && ApplyAll(root, plan.value).Ok? && UniqueEntries(ApplyAll(root, plan.value).value)
  {
    hide ParseDocument, PlanOps, Fits, ApplyAll, Wanted, SameField, UniqueEntries, Validated,
         InnerFrame, Others, FirstOf, OneSpelling, Submitted, SectionClear, SectionApart, HeadsFrom;
    var d := ParseDocument(root).value;
    ParsedFits(root);
    PlanExists(root, input);
    var ms := root.value.members;
    UniqueBySection(root);
    forall s | Submitted(input, s) ensures SectionClear(SlotNode(ms, s), d.model, input, s) {
      ApartIsClear(ms, d.model, input, s);
    }
    ClearGoes(root, input);
    var root', m' := PatchRuns(root, input);
    var ms' := root'.value.members;
    UniqueBySection(root');
    forall s ensures SectionApart(MemberOf(ms', KeyOf(ms', s)), s) {
      assert SectionApart(MemberOf(ms, KeyOf(ms, s)), s);
      SlotDef(ms, s);
      SlotDef(ms', s);
      assert Section1(ms, ms', m', d.model, input, s, s in PLAN_ORDER);
      if !Submitted(input, s) { SlotCongruent(ms, ms', d.model, m', s); }
    }
  }

  /** The spellings of the sections an input submits. */
  function TouchedKeys(d: Document, input: Input): set<string> {
    KeysInUse(d, input, PLAN_ORDER)
  }

  /** Applying a plan leaves the document's own layout, every member outside the submitted sections as the identical
      node, and every member, submitted or not, in its place with the comments around its name, less a port switch
      that is taken out; new sections come last. Within a submitted section that was there, unchanged entries, "#"
      members and kept elements are the identical nodes too, and no section and no autoApprovers member gains a
      second spelling. */
  lemma PatchFrame(root: Node, input: Input)
    requires ParseDocument(root).Ok? && Validated(input)
    requires var plan := PlanOps(ParseDocument(root).value, input); plan.Ok? && ApplyAll(root, plan.value).Ok?
    ensures var d := ParseDocument(root).value;
            var after := ApplyAll(root, PlanOps(d, input).value).value;
            && SameShell(root, after) && OneSpelling(after.value.members)
            && HeadsFrom(root.value.members, after.value.members, Dropped(d, input, PLAN_ORDER))
            && Others(after.value.members, TouchedKeys(d, input)) == Others(root.value.members, TouchedKeys(d, input))
            && (forall s | !Submitted(input, s) :: FirstOf(after.value.members, s) == FirstOf(root.value.members, s))
            && (forall s | Submitted(input, s) ::
                  InnerFrame(SlotNode(root.value.members, s), SlotNode(after.value.members, s), d.model, input, s))
  {
    hide ParseDocument, PlanOps, Fits, ApplyAll, Wanted, SameField, InnerFrame, Others, FirstOf, OneSpelling,
         Submitted, KeyOf, SlotNode, SectionClear, SectionApart, HeadsFrom, Dropped;
    var d := ParseDocument(root).value;
    var root', m' := PatchRuns(root, input);
    forall s
      ensures !Submitted(input, s) ==> FirstOf(root'.value.members, s) == FirstOf(root.value.members, s)
      ensures Submitted(input, s) ==>
              InnerFrame(SlotNode(root.value.members, s), SlotNode(root'.value.members, s), d.model, input, s)
    {
      assert Section1(root.value.members, root'.value.members, m', d.model, input, s, s in PLAN_ORDER);
    }
  }

  // ---- layout ----

  lemma {:induction false} ScanByName(a: seq<Member>, b: seq<Member>)
    requires |a| == |b| && forall i | 0 <= i < |a| :: a[i].name == b[i].name
    ensures ScanKeys(a) == ScanKeys(b)
  {
    hide SectionOf, IsMetadata;
    if a != [] {
      ScanByName(a[..|a| - 1], b[..|b| - 1]);
      assert b != [] && a[|a| - 1].name == b[|b| - 1].name;
    } else {
      assert b == [];
    }
  }

  /** Trees with the same values parse as the same model, whatever their layout. */
  lemma ParseIgnoresLayout(a: Node, b: Node)
    requires Std(a) == Std(b)
    ensures ParseDocument(a).Ok? <==> ParseDocument(b).Ok?
    ensures ParseDocument(a).Ok? ==> ParseDocument(b).value == ParseDocument(a).value.(root := b)
  {
    hide DecodeSection, DecodeLists, ScanKeys;
    StdOfComposite(a);
    StdOfComposite(b);
    if a.value.Obj? {
      var x, y := a.value.members, b.value.members;
      assert StdMembers(x) == StdMembers(y);
      forall i | 0 <= i < |x| ensures x[i].name == y[i].name {
        assert StdMembers(x)[i].0 == StdMembers(y)[i].0;
      }
      ScanByName(x, y);
    }
  }
}

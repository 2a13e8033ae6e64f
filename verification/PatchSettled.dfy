/** When a plan is empty, and planning again (internal/aclmodel/patch.go).
    A plan is empty exactly when the document already is what the input asks for, whatever its layout. */
module PatchSettled {
  import opened Base
  import opened Text
  import opened Pointer
  import opened Tree
  import opened AclModel
  import opened Render
  import opened Plan
  import opened MapRuns
  import opened Slots
  import opened PatchRun
  import opened PatchCorrect
  import Lcs

  // ---- lists ----

  lemma ScriptSize<K, A, B>(oldIds: seq<K>, curIds: seq<K>, x: seq<A>, y: seq<B>)
    requires |x| == |y| == |curIds|
    ensures |Lcs.Script(oldIds, curIds, x)| == |Lcs.Script(oldIds, curIds, y)|
  {
    hide Lcs.Masks, Lcs.Removals, Lcs.Insertions;
    var (keepOld, keepCur) := Lcs.Masks(oldIds, curIds);
    Lcs.RemovalsLength<A>(keepOld);
    Lcs.RemovalsLength<B>(keepOld);
    Lcs.InsertionsLength(keepCur, x, 0);
    Lcs.InsertionsLength(keepCur, y, 0);
  }

  /** An edit script is empty only between equal lists. */
  lemma EmptyScript<K, T>(oldIds: seq<K>, curIds: seq<K>, items: seq<T>)
    requires |items| == |curIds|
    ensures Lcs.Script(oldIds, curIds, items) == [] <==> oldIds == curIds
  {
    hide Lcs.Script, Lcs.Rebuilt;
    if oldIds == curIds {
      Lcs.ScriptOfEqualLists(curIds, items);
    } else {
      ScriptSize(oldIds, curIds, items, curIds);
      Lcs.ScriptRuns(oldIds, curIds, oldIds, curIds);
      Lcs.RebuiltIds(oldIds, curIds, oldIds, curIds, (a: K, b: K) => a == b);
      assert Lcs.Rebuilt(oldIds, curIds, oldIds, curIds) == curIds;
    }
  }

  /** A list section needs no operation exactly when it already holds the identities asked for. */
  lemma NoSeqOps<K>(base: string, had: bool, oldIds: seq<K>, curIds: seq<K>, items: seq<Node>, ind: string,
                    unit: string)
    requires |items| == |curIds| && (!had ==> oldIds == [])
    ensures DiffSeq(base, had, oldIds, curIds, items, ind, unit) == [] <==> oldIds == curIds
  {
    hide RenderList, Lcs.Script;
    EmptyScript(oldIds, curIds, items);
  }

  // ---- approvers ----

  /** A decoded section has values only under keys it has. */
  predicate KeyedApprovers(a: Approvers) {
    (a.exitKey.None? ==> a.exitNode.None?) && (a.routesKey.None? ==> a.routes.None?)
  }

  lemma ApproverKeysPresent(j: Json)
    ensures DecodeApprovers(j).Ok? ==> KeyedApprovers(DecodeApprovers(j).value)
  {
    hide ApproverKey, DecodeMap, ReadStrings, View, EqualFold, IsMetadata;
    if DecodeApprovers(j).Ok? {
      var a := DecodeApprovers(j).value;
      var v := View(j.members);
      assert a.routesKey == ApproverKey(v, "routes").value && a.exitKey == ApproverKey(v, "exitNode").value;
    }
  }

  lemma NoApproverOps(base: string, prior: Option<Approvers>, cur: InputApprovers, unit: string)
    requires prior.Some? ==> KeyedApprovers(prior.value)
    ensures DiffApprovers(base, prior, cur, unit) == [] <==>
            if prior.None? then |cur.routes| == 0 && cur.exitNode == []
            else prior.value.Routes() == cur.routes && prior.value.ExitNode() == cur.exitNode
  {
    hide DiffMap, RenderApprovers;
    if prior.Some? {
      var a := prior.value;
      var ptr := Child(base, a.routesKey.GetOr("routes"));
      NoMapOps(ptr, a.routes, cur.routes, RenderStrings, unit + unit, unit);
      assert |cur.routes| == 0 <==> cur.routes == map[];
    }
  }

  // ---- sections ----

  lemma NoFlagOps(path: string, cur: Option<bool>, want: bool)
    ensures DiffFlag(path, cur, want) == [] <==> cur == if want then Some(true) else None
  {
    if cur.Some? {
      var b := cur.value;
      assert b == true || b == false;
      assert cur == Some(b);
    }
  }

  /** What a decoded model never holds: values under keys that are not there, and host names starting with "#". */
  predicate DecodedModel(m: Model) {
    && (m.approvers.Some? ==> KeyedApprovers(m.approvers.value))
    && (forall k | k in m.hosts.GetOr(map[]) :: !IsMetadata(k))
  }

  lemma ParsedIsDecoded(root: Node)
    ensures ParseDocument(root).Ok? ==> DecodedModel(ParseDocument(root).value.model)
  {
    hide ScanKeys, DecodeArray, DecodeLists, DecodeApprovers, View, StdMembers, Present, Keys.Of, KeyedApprovers;
    forall j: Json | DecodeMap(j, ReadString).Ok?
      ensures forall k | k in DecodeMap(j, ReadString).value :: !IsMetadata(k)
    {
      DecodedKeys(j);
    }
    forall j: Json ensures DecodeApprovers(j).Ok? ==> KeyedApprovers(DecodeApprovers(j).value) {
      ApproverKeysPresent(j);
    }
  }

  lemma DecodedKeys(j: Json)
    requires DecodeMap(j, ReadString).Ok?
    ensures forall k | k in DecodeMap(j, ReadString).value :: !IsMetadata(k)
  {
    hide View;
  }

  /** Hosts without "#" names are the hosts asked for exactly when they are asked for without "#" names. */
  lemma HostsWanted(m: Model, input: Input)
    requires DecodedModel(m) && input.hosts.Some?
    ensures m.hosts.GetOr(map[]) == input.hosts.value <==>
            m.hosts.GetOr(map[]) == NonMeta(input.hosts.value) && NoMetadataHost(input)
  {
    var h := input.hosts.value;
    if NoMetadataHost(input) { assert NonMeta(h) == h; }
  }

  /** A submitted section needs no operation exactly when the model holds what the input asks for, and for the
      hosts only when none is asked for under a "#" name. */
  lemma NoSectionOps(d: Document, input: Input, unit: string, s: Section)
    requires Validated(input) && DecodedModel(d.model) && Submitted(input, s)
    ensures SectionOps(d, input, unit, s) == Ok([]) <==>
            Wanted(d.model, input, s) && (s == Hosts ==> NoMetadataHost(input))
  {
    hide DecodeEach, Fingerprint, EnabledRules, NonMeta, Validated, NoMetadataHost, DiffMap, DiffSeq, DiffApprovers,
         DiffFlag, DecodedModel, IsMetadata;
    ValidKeysAreEntries(input);
    ListSectionOrNot(s);
    var ptr := Child("", d.keys.Of(s));
    var m := d.model;
    if s == Groups { NoMapOps(ptr, m.groups, input.groups.value, RenderStrings, unit, unit); }
    else if s == TagOwners { NoMapOps(ptr, m.tagOwners, input.tagOwners.value, RenderStrings, unit, unit); }
    else if s == Hosts {
      NoMapOps(ptr, m.hosts, input.hosts.value, Text1, unit, unit);
      HostsWanted(m, input);
    } else if s == Acls {
      var rules := EnabledRules(input.rules.value);
      NoSeqOps(ptr, m.acls.Some?, Fingerprints(m.Acls()), Fingerprints(rules), RenderRules(rules), unit, unit);
    } else if s == AutoApprovers {
      ApproversOf(m);
      NoApproverOps(ptr, m.approvers, input.approvers.value, unit);
      assert |input.approvers.value.routes| == 0 <==> input.approvers.value.routes == map[];
    } else if s == RandomizeClientPort {
      NoFlagOps(ptr, m.randomize, input.randomize.value);
    } else {
      ListSectionKinds(s);
      ListsAreValid(input, s);
      var items := CanonicalList(input, s).value.value;
      NoSeqOps(ptr, s in m.lists, m.List(s), items, RenderElements(items), unit, unit);
    }
  }

  lemma ApproversOf(m: Model)
    requires DecodedModel(m)
    ensures m.approvers.Some? ==> KeyedApprovers(m.approvers.value)
  {
  }

  lemma ListsAreValid(input: Input, s: Section)
    requires Validated(input) && s in LIST_SECTIONS && s in input.lists
    ensures CanonicalList(input, s).Ok? && CanonicalList(input, s).value.Some?
  {
    hide DecodeEach;
  }

  lemma NotSubmitted(d: Document, input: Input, unit: string, s: Section)
    requires !Submitted(input, s)
    ensures SectionOps(d, input, unit, s) == Ok([])
  {
    ListSectionOrNot(s);
  }

  lemma {:induction false} NoOps(d: Document, input: Input, unit: string, sections: seq<Section>)
    requires forall s | s in LIST_SECTIONS :: CanonicalList(input, s).Ok?
    ensures SectionsOps(d, input, unit, sections) == Ok([]) <==>
            forall s | s in sections :: SectionOps(d, input, unit, s) == Ok([])
  {
    hide SectionOps, CanonicalList;
    if sections != [] {
      var init, last := sections[..|sections| - 1], sections[|sections| - 1];
      assert sections == init + [last];
      NoOps(d, input, unit, init);
      SectionsPlan(d, input, unit, init);
      SectionPlans(d, input, unit, last);
      assert last in sections && forall s | s in init :: s in sections;
      var x, y := SectionsOps(d, input, unit, init).value, SectionOps(d, input, unit, last).value;
      assert SectionsOps(d, input, unit, sections) == Ok(x + y);
      assert x + y == [] <==> x == [] && y == [];
    }
  }

  /** A plan is empty exactly when the model already holds every submitted section as asked for, and no host
      is asked for under a "#" name. */
  lemma EmptyPlan(d: Document, input: Input)
    requires Validated(input) && DecodedModel(d.model)
    ensures PlanOps(d, input) == Ok([]) <==>
            NoMetadataHost(input) && forall s | Submitted(input, s) :: Wanted(d.model, input, s)
  {
    hide SectionOps, Submitted, Wanted, NoMetadataHost, DecodedModel, CanonicalList;
    PlanOrderComplete();
    var unit := IndentUnit(d.root);
    NoOps(d, input, unit, PLAN_ORDER);
    forall s
      ensures SectionOps(d, input, unit, s) == Ok([]) <==>
              (Submitted(input, s) ==> Wanted(d.model, input, s) && (s == Hosts ==> NoMetadataHost(input)))
    {
      if Submitted(input, s) { NoSectionOps(d, input, unit, s); } else { NotSubmitted(d, input, unit, s); }
    }
    HostsMatter(input);
  }

  lemma HostsMatter(input: Input)
    ensures !NoMetadataHost(input) ==> Submitted(input, Hosts)
  {
  }

  lemma DecodedHosts(m: Model)
    requires DecodedModel(m)
    ensures forall k | k in m.hosts.GetOr(map[]) :: !IsMetadata(k)
  {
  }

  /** An empty plan means the document already is what the input asks for; no name has to change, so none that has
      to is repeated. */
  lemma EmptyPlanIsRequested(root: Node, input: Input)
    requires ParseDocument(root).Ok? && Validated(input) && PlanOps(ParseDocument(root).value, input) == Ok([])
    ensures var m := ParseDocument(root).value.model; EqualModels(m, ModelFromInput(m, input)) && NoMetadataHost(input)
    ensures Clear(root, input)
  {
    hide ParseDocument, Wanted, Submitted, EqualModels, ModelFromInput, PlanOps, NoMetadataHost, DecodedModel,
         SameField, Validated, Clear;
    var d := ParseDocument(root).value;
    ParsedIsDecoded(root);
    EmptyPlan(d, input);
    forall s ensures SameField(d.model, d.model, s) { SameFieldReflexive(d.model, s); }
    DecodedHosts(d.model);
    RequestedModel(d.model, d.model, input);
    ApplyNothing(root);
    PatchGivesRequestedModel(root, input);
  }

  /** No document parses to a model with a host name that starts with "#". */
  lemma RequestedHasNoMetadataHost(root: Node, prior: Model, input: Input)
    requires ParseDocument(root).Ok? && EqualModels(ParseDocument(root).value.model, ModelFromInput(prior, input))
    ensures NoMetadataHost(input)
  {
    hide ParseDocument, CanonicalList, EnabledRules, Fingerprint, Requested;
    ParsedIsDecoded(root);
    RequestedIs(prior.hosts, input.hosts);
  }

  /** Planning the same input again on the patched document, under any layout, finds nothing to do exactly when
      no submitted host name starts with "#" and no name that had to change was repeated. */
  lemma PlanIsFixpoint(root: Node, input: Input, after: Node)
    requires ParseDocument(root).Ok? && Validated(input)
    requires PlanOps(ParseDocument(root).value, input).Ok?
    requires ApplyAll(root, PlanOps(ParseDocument(root).value, input).value).Ok?
    requires Std(after) == Std(ApplyAll(root, PlanOps(ParseDocument(root).value, input).value).value)
    ensures ParseDocument(after).Ok?
    ensures PlanOps(ParseDocument(after).value, input) == Ok([]) <==> NoMetadataHost(input) && Clear(root, input)
  {
    hide ParseDocument, ApplyAll, NoMetadataHost, Validated, PlanOps, DecodedModel, Wanted, Submitted, SlotNode,
         SectionClear, EqualModels, ModelFromInput;
    PlanExists(root, input);
    PatchedModel(root, input);
    var tree := ApplyAll(root, PlanOps(ParseDocument(root).value, input).value).value;
    ParseIgnoresLayout(tree, after);
    ParsedIsDecoded(after);
    EmptyPlan(ParseDocument(after).value, input);
  }

  // ---- a host name that is lost ----

  const EMPTY_DOCUMENT := Node("", Obj([], ""), None)

  /** Nothing but one host, named "#a". */
  const METADATA_HOST := Input(None, None, Some(map["#a" := "10.0.0.1"]), None, map[], None, None)

  lemma {:induction false} NoListsIn(keys: Keys, sections: seq<Section>)
    ensures DecodeLists(map[], keys, sections) == Ok(map[])
  {
    if sections != [] { NoListsIn(keys, sections[..|sections| - 1]); }
  }

  lemma EmptyDocumentParses()
    ensures ParseDocument(EMPTY_DOCUMENT).Ok? && UniqueEntries(EMPTY_DOCUMENT)
  {
    hide DecodeLists, Keys.Of;
    NoListsIn(Keys(map[], []), LIST_SECTIONS);
    assert StdMembers([]) == [];
    EmptyView<Json>();
    StdOfComposite(EMPTY_DOCUMENT);
  }

  /** Adding a host named "#a" to an empty document gives a document that parses without it, and planning it
      again would add it again. */
  lemma MetadataHostIsLost()
    ensures Validated(METADATA_HOST) && !NoMetadataHost(METADATA_HOST)
    ensures ParseDocument(EMPTY_DOCUMENT).Ok?
    ensures var d := ParseDocument(EMPTY_DOCUMENT).value;
            && PlanOps(d, METADATA_HOST).Ok? && ApplyAll(EMPTY_DOCUMENT, PlanOps(d, METADATA_HOST).value).Ok?
            && var after := ParseDocument(ApplyAll(EMPTY_DOCUMENT, PlanOps(d, METADATA_HOST).value).value);
               after.Ok? && !EqualModels(after.value.model, ModelFromInput(d.model, METADATA_HOST))
               && PlanOps(after.value, METADATA_HOST) != Ok([])
  {
    hide ParseDocument, UniqueEntries, EqualModels, ModelFromInput, PlanOps, ApplyAll, Clear;
    EmptyDocumentParses();
    assert "#a" in METADATA_HOST.hosts.value && IsMetadata("#a");
    UniqueIsClear(EMPTY_DOCUMENT, METADATA_HOST);
    PatchGivesRequestedModel(EMPTY_DOCUMENT, METADATA_HOST);
    var d := ParseDocument(EMPTY_DOCUMENT).value;
    PlanIsFixpoint(EMPTY_DOCUMENT, METADATA_HOST, ApplyAll(EMPTY_DOCUMENT, PlanOps(d, METADATA_HOST).value).value);
  }
}

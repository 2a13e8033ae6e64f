/** Saving and loading the structured policy (internal/policy/model.go): the served document and the
    rule table change together under one lock. */
module PolicyManager {
  import opened Base
  import opened Tree
  import opened AclModel
  import opened Plan
  import opened Layout
  import opened Slots
  import opened PatchCorrect
  import opened PatchSettled
  import opened RuleList
  import PolicyDocument

  /** The structured view: the served document (standing for its hash), its model and the merged rules. */
  datatype ModelState = ModelState(served: Node, model: Model, rules: seq<ModelRule>)

  datatype Outcome =
    | Saved(policyChanged: bool, metaStored: bool)
    | Invalid
    | Unsupported
    | Conflict(current: ModelState)
    | PatchFailed
    | GuardFailed
    | Rejected

  class Manager {
    var served: Node
    const store: Store

    constructor (document: Node, s: Store)
      ensures served == document && store == s
    {
      served, store := document, s;
    }

    /** The served document parses. */
    predicate Valid()
      reads this, store
    {
      ParseDocument(served).Ok? && Keyed(store.table)
    }

    /** The rules shown are the document's merged with some listing of the table. */
    ghost predicate ShowsState(st: ModelState)
      reads this, store
    {
      ParseDocument(served).Ok? && st.served == served && st.model == ParseDocument(served).value.model &&
      exists rows :: Listing(store.table, rows) && st.rules == ModelRules(st.model.Acls(), rows)
    }

    method GetModel() returns (r: Result<ModelState>)
      requires Keyed(store.table)
      ensures r.Ok? <==> ParseDocument(served).Ok?
      ensures r.Ok? ==> ShowsState(r.value)
    {
      hide ParseDocument;
      var doc := ParseDocument(served);
      if doc.Err? { return Err(doc.reason); }
      var st := StateOf(doc.value.model);
      r := Ok(st);
    }

    method StateOf(model: Model) returns (st: ModelState)
      requires Keyed(store.table) && ParseDocument(served).Ok? && model == ParseDocument(served).value.model
      ensures ShowsState(st)
    {
      hide ParseDocument;
      var rows := store.ListRuleMeta();
      var rules := RuleList.ModelState(model.Acls(), rows);
      st := ModelState.ModelState(served, model, rules);
    }

    /** The request is not turned away at the door: the input is valid and the editor saw the served document. */
    predicate Admitted(input: Input, valid: Input -> bool, baseHash: Option<Node>, force: bool)
      reads this
    {
      valid(input) && (force || baseHash == Some(served))
    }

    /** Validates the input, patches the served document, checks the patched document against the request,
        ships it (headscale accepts or rejects it), and then replaces the rule table. `baseHash` is the document
        the editor loaded; `accepts` and `commits` are the answers of headscale and of the database. */
    method SaveModel(input: Input, valid: Input -> bool, baseHash: Option<Node>, force: bool, formatted: bool,
                     format: Node -> Node, accepts: bool, commits: bool) returns (r: Outcome)
      requires Keyed(store.table)
      requires forall i: Input :: valid(i) ==> Validated(i)
      requires forall n: Node :: Std(format(n)) == Std(n)
      modifies this, store
      ensures Keyed(store.table) && (old(Valid()) ==> Valid())
      // who is turned away
      ensures r.Invalid? <==> !valid(input) || (baseHash.None? && !force)
      ensures !r.Invalid? && ParseDocument(old(served)).Err? ==> r.Unsupported?
      ensures !r.Invalid? && ParseDocument(old(served)).Ok? ==>
                (r.Conflict? <==> !force && baseHash != Some(old(served)))
      ensures r.Conflict? ==> ShowsState(r.current)
      // what becomes of the others
      ensures old(Admitted(input, valid, baseHash, force)) && old(Valid()) ==> Decided(old(served), input, accepts, r)
      ensures !r.Saved? ==> served == old(served) && store.table == old(store.table)
      // what a save leaves
      ensures r.Saved? ==>
                ParseDocument(old(served)).Ok? && SavedAs(old(served), input, served, r.policyChanged, formatted)
      ensures r.Saved? ==> r.metaStored == (input.rules.Some? && commits)
      ensures r.Saved? ==>
                store.table == if r.metaStored then TableOf(MetaRows(input.rules.value)) else old(store.table)
    {
      hide ParseDocument, UniqueEntries, Validated, EqualModels, ModelFromInput, PlanOps, NoMetadataHost, ApplyAll,
           Listing, Keyed, MetaRows, TableOf, ModelRules, Clear, PolicyDocument.LaidOutFrom;
      if !valid(input) { return Invalid; }
      if baseHash.None? && !force { return Invalid; }
      var parsed := ParseDocument(served);
      if parsed.Err? { return Unsupported; }
      var prior := parsed.value.model;
      if !force && served != baseHash.value {
        var st := StateOf(prior);
        return Conflict(st);
      }
      PlanExists(served, input);
      var doc := new PolicyDocument.Document(parsed.value, formatted);
      RootOfParsed(served);
      var patch := doc.Plan(input);
      if patch.Err? { return PatchFailed; }
      NothingApplied(served, input);
      var changed := patch.value.ops != [];
      if changed {
        var applied := doc.Apply(patch.value, format);
        if applied.Err? { return PatchFailed; }
        ghost var tree := ApplyAll(served, patch.value.ops).value;
        LaidOutFacts(served, input, tree, doc.root);
        UniqueStays(served, input, tree, doc.root);
        var check := ParseDocument(doc.root);
        if check.Err? { return Unsupported; }
        if !EqualModels(check.value.model, ModelFromInput(prior, input)) { return GuardFailed; }
        RequestedHasNoMetadataHost(doc.root, prior, input);
        if !accepts { return Rejected; }
        served := doc.root;
      } else {
        EmptyPlanIsRequested(served, input);
      }
      var stored := StoreRules(input, commits);
      r := Saved(changed, stored);
    }

    /** Replaces the rule table by the submitted rules' rows, if rules were submitted. */
    method StoreRules(input: Input, commits: bool) returns (stored: bool)
      requires Keyed(store.table)
      modifies store
      ensures Keyed(store.table) && stored == (input.rules.Some? && commits)
      ensures store.table == if stored then TableOf(MetaRows(input.rules.value)) else old(store.table)
    {
      hide Keyed, MetaRows, TableOf;
      stored := false;
      if input.rules.Some? {
        var rows := CollectRows(input.rules.value);
        stored := store.ReplaceRuleMeta(rows, commits);
        WrittenIsKeyed(input.rules.value);
      }
    }

    /** Saving the same input a second time ships nothing, whatever headscale would answer. */
    method SaveTwice(input: Input, valid: Input -> bool, baseHash: Option<Node>, force: bool, formatted: bool,
                     format: Node -> Node, commits: bool, accepts: bool, accepts2: bool)
      returns (first: Outcome, shipped: Node, second: Outcome)
      requires Valid()
      requires forall i: Input :: valid(i) ==> Validated(i)
      requires forall n: Node :: Std(format(n)) == Std(n)
      modifies this, store
      ensures Valid()
      ensures old(Admitted(input, valid, baseHash, force)) && accepts ==>
                (NoMetadataHost(input) && Clear(old(served), input) ==> first.Saved?)
      ensures first.Saved? ==> second.Saved? && !second.policyChanged && served == shipped
      ensures first.Saved? && commits ==>
                store.table == if input.rules.Some? then TableOf(MetaRows(input.rules.value)) else old(store.table)
    {
      hide ParseDocument, UniqueEntries, Validated, EqualModels, ModelFromInput, PlanOps, NoMetadataHost, Keyed,
           MetaRows, TableOf, Clear, Shipped, ApplyAll;
      if valid(input) && Clear(served, input) { ClearGoes(served, input); }
      first := SaveModel(input, valid, baseHash, force, formatted, format, accepts, commits);
      shipped := served;
      if first.Saved? {
        EmptyPlanIsRequested(served, input);
        NothingApplied(served, input);
      }
      second := SaveModel(input, valid, Some(served), false, formatted, format, accepts2, commits);
    }

    /** Saving a rule list and loading it again shows the same rules in the same order with the same names,
        descriptions and flags. */
    method SaveThenLoad(input: Input, valid: Input -> bool, baseHash: Option<Node>, force: bool, formatted: bool,
                        format: Node -> Node) returns (shown: seq<ModelRule>)
      requires Valid()
      requires forall i: Input :: valid(i) ==> Validated(i)
      requires forall n: Node :: Std(format(n)) == Std(n)
      requires Admitted(input, valid, baseHash, force) && NoMetadataHost(input)
      requires Clear(served, input)
      requires input.rules.Some? && RulesDistinct(input.rules.value)
      modifies this, store
      ensures Valid() && |shown| == |input.rules.value|
      ensures forall i | 0 <= i < |shown| :: Shows(shown[i], input.rules.value[i])
    {
      hide ParseDocument, UniqueEntries, Validated, ModelFromInput, NoMetadataHost, RulesDistinct, Listing, Shows,
           MetaRows, TableOf, ModelRules, PlanOps, EqualModels, Clear, Shipped, ApplyAll;
      ghost var prior := ParseDocument(served).value.model;
      ClearGoes(served, input);
      var r := SaveModel(input, valid, baseHash, force, formatted, format, true, true);
      var st := GetModel();
      shown := st.value.rules;
      EqualRules(st.value.model, prior, input);
      ghost var rows :| Listing(store.table, rows) && st.value.rules == ModelRules(st.value.model.Acls(), rows);
      SavedListIsShown(input.rules.value, st.value.model.Acls(), rows);
    }
  }

  /** What becomes of an admitted request: it is refused when an operation fails, when the patched document does not
      read as requested, or by headscale. */
  ghost predicate Decided(was: Node, input: Input, accepts: bool, r: Outcome)
    requires ParseDocument(was).Ok?
  {
    var plan := PlanOps(ParseDocument(was).value, input);
    plan.Ok? &&
    if ApplyAll(was, plan.value).Err? then r.PatchFailed?
    else if !NoMetadataHost(input) || !Clear(was, input) then r.GuardFailed?
    else if plan.value != [] && !accepts then r.Rejected?
    else r.Saved?
  }

  /** A saved document reads as requested, needs no further operation, repeats no name unless it did before, and is
      the served one or the patched one as shipped. */
  ghost predicate SavedAs(was: Node, input: Input, now: Node, changed: bool, formatted: bool)
    requires ParseDocument(was).Ok?
  {
    && NoMetadataHost(input) && Clear(was, input)
    && ParseDocument(now).Ok?
    && EqualModels(ParseDocument(now).value.model, ModelFromInput(ParseDocument(was).value.model, input))
    && PlanOps(ParseDocument(now).value, input) == Ok([])
    && (UniqueEntries(was) ==> UniqueEntries(now))
    && (changed <==> PlanOps(ParseDocument(was).value, input) != Ok([]))
    && if changed then Shipped(was, input, now, formatted) else now == was
  }

  /** The document shipped is the patched one: the same values and, unless it was in canonical format, the patched
      tree itself as the layout pass leaves it. */
  ghost predicate Shipped(was: Node, input: Input, now: Node, formatted: bool)
    requires ParseDocument(was).Ok?
  {
    var plan := PlanOps(ParseDocument(was).value, input);
    && plan.Ok? && plan.value != [] && ApplyAll(was, plan.value).Ok?
    && var tree := ApplyAll(was, plan.value).value;
       && Std(now) == Std(tree)
       && (!formatted ==> exists p: Patch :: p.ops == plan.value && PolicyDocument.LaidOutFrom(tree, now, p))
  }

  /** An empty plan applies. */
  lemma NothingApplied(root: Node, input: Input)
    requires ParseDocument(root).Ok? && PlanOps(ParseDocument(root).value, input).Ok?
    ensures PlanOps(ParseDocument(root).value, input) == Ok([]) ==>
              ApplyAll(root, PlanOps(ParseDocument(root).value, input).value) == Ok(root)
  {
    ApplyNothing(root);
  }

  /** What the patched document promises, whatever its layout. */
  lemma LaidOutFacts(root: Node, input: Input, tree: Node, after: Node)
    requires ParseDocument(root).Ok? && Validated(input) && PlanOps(ParseDocument(root).value, input).Ok?
    requires ApplyAll(root, PlanOps(ParseDocument(root).value, input).value) == Ok(tree) && Std(after) == Std(tree)
    ensures ParseDocument(after).Ok?
    ensures EqualModels(ParseDocument(after).value.model, ModelFromInput(ParseDocument(root).value.model, input)) <==>
            NoMetadataHost(input) && Clear(root, input)
    ensures PlanOps(ParseDocument(after).value, input) == Ok([]) <==> NoMetadataHost(input) && Clear(root, input)
  {
    hide ParseDocument, Validated, EqualModels, ModelFromInput, PlanOps, NoMetadataHost, ApplyAll, Clear;
    PatchGivesRequestedModel(root, input);
    ParseIgnoresLayout(tree, after);
    PlanIsFixpoint(root, input, after);
  }

  lemma UniqueStays(root: Node, input: Input, tree: Node, after: Node)
    requires ParseDocument(root).Ok? && Validated(input) && PlanOps(ParseDocument(root).value, input).Ok?
    requires ApplyAll(root, PlanOps(ParseDocument(root).value, input).value) == Ok(tree) && Std(after) == Std(tree)
    ensures UniqueEntries(root) ==> UniqueEntries(after)
  {
    hide ParseDocument, UniqueEntries, Validated, PlanOps, ApplyAll, Clear;
    if UniqueEntries(root) {
      UniqueIsClear(root, input);
      UniqueIgnoresLayout(tree, after);
    }
  }

  lemma EqualRules(m: Model, prior: Model, input: Input)
    requires EqualModels(m, ModelFromInput(prior, input)) && input.rules.Some?
    ensures Fingerprints(m.Acls()) == Fingerprints(EnabledRules(input.rules.value))
  {
    hide Fingerprint, CanonicalList, EnabledRules, Requested;
    var es := EnabledRules(input.rules.value);
    assert ModelFromInput(prior, input).Acls() == es;
  }

  lemma RootOfParsed(root: Node)
    requires ParseDocument(root).Ok?
    ensures ParseDocument(root).value.root == root
    ensures AclModel.Document(root, ParseDocument(root).value.keys, ParseDocument(root).value.model) ==
            ParseDocument(root).value
  {
    hide DecodeSection, DecodeLists, ScanKeys;
  }

  lemma UniqueIgnoresLayout(a: Node, b: Node)
    requires Std(a) == Std(b)
    ensures UniqueEntries(a) <==> UniqueEntries(b)
  {
    hide Std, EntryUnique;
  }

  lemma WrittenIsKeyed(rules: seq<InputRule>)
    ensures Keyed(TableOf(MetaRows(rules)))
  {
    MetaRowsDistinct(rules);
    TableOfRows(MetaRows(rules));
  }
}

/** A document that repeats a name (internal/aclmodel/model.go, internal/aclmodel/patch.go). */
module RepeatedNames {
  import opened Base
  import opened Tree
  import opened Names
  import opened AclModel
  import opened Render
  import opened Plan
  import opened MapRuns
  import opened Slots
  import opened PatchRun
  import opened PatchCorrect

  /** One object member, "group:a", twice. */
  const TWICE := Node("", Obj([Member("", "group:a", "", RenderStrings(["x"])),
                               Member("", "group:a", "", RenderStrings(["y"]))], ""), None)

  /** {"groups": {"group:a": ["x"], "group:a": ["y"]}} */
  const REPEATING := Node("", Obj([Member("", "groups", "", TWICE)], ""), None)

  const LAST_READ := Model(Some(map["group:a" := ["y"]]), None, None, None, map[], None, None)

  /** Nothing but the group, with another member. */
  const OTHER_MEMBER := Input(Some(map["group:a" := ["z"]]), None, None, None, map[], None, None)

  lemma TwiceNamed(k: string)
    ensures Named(TWICE.value.members, k) == if k == "group:a" then [RenderStrings(["x"]), RenderStrings(["y"])] else []
  {
    hide Named, RenderStrings;
    var ms := TWICE.value.members;
    assert ms == [ms[0]] + [ms[1]];
    NamedConcat([ms[0]], [ms[1]], k);
    NamedOne(ms[0], k);
    NamedOne(ms[1], k);
  }

  lemma TwiceDecodes()
    ensures DecodeMap(Std(TWICE), ReadStrings) == Ok(map["group:a" := ["y"]])
  {
    hide DecodeMap, Named, Std, ReadStrings, RenderStrings;
    var m := map["group:a" := ["y"]];
    assert NonMeta(m) == m;
    forall k ensures ReadsAs(Named(TWICE.value.members, k), k, m, ReadStrings) {
      TwiceNamed(k);
      StringsReadBack(["y"]);
    }
    DecodesByLast(TWICE, m, ReadStrings);
  }

  lemma OneSection(s: Section)
    ensures KeyOf(REPEATING.value.members, s) == Name(s)
    ensures SlotNode(REPEATING.value.members, s) == if s == Groups then Some(TWICE) else None
  {
    hide SectionOf;
    var ms := REPEATING.value.members;
    SectionOfIsFold(Name(s), s);
    SectionOfIsFold("groups", Groups);
    assert ms[1..] == [];
    if s != Groups { assert SectionOf(Name(s)) != SectionOf("groups"); }
  }

  lemma RepeatingParses()
    ensures ParseDocument(REPEATING).Ok? && ParseDocument(REPEATING).value.model == LAST_READ
  {
    hide ParseDocument, DecodeMap, SlotNode, KeyOf, Std;
    var ms := REPEATING.value.members;
    TwiceDecodes();
    forall s ensures Fits(ms, LAST_READ, s) {
      OneSection(s);
      SlotDef(ms, s);
    }
    FittingParses(REPEATING, LAST_READ);
  }

  /** Asked for ["z"], the patch replaces the first "group:a"; the last one is read, still with ["y"]. */
  lemma RepeatedNameStays()
    ensures Validated(OTHER_MEMBER) && ParseDocument(REPEATING).Ok?
    ensures NoMetadataHost(OTHER_MEMBER) && !Clear(REPEATING, OTHER_MEMBER)
    ensures var d := ParseDocument(REPEATING).value;
            && PlanOps(d, OTHER_MEMBER).Ok? && ApplyAll(REPEATING, PlanOps(d, OTHER_MEMBER).value).Ok?
            && var after := ParseDocument(ApplyAll(REPEATING, PlanOps(d, OTHER_MEMBER).value).value);
               after.Ok? && !EqualModels(after.value.model, ModelFromInput(d.model, OTHER_MEMBER))
  {
    hide ParseDocument, SectionsOps, ApplyAll, EqualModels, ModelFromInput, Named, SlotNode, RenderStrings;
    RepeatingParses();
    OneSection(Groups);
    TwiceNamed("group:a");
    var touched := Touched(map["group:a" := ["y"]], map["group:a" := ["z"]]);
    assert "group:a" in touched;
    assert Submitted(OTHER_MEMBER, Groups);
    assert !SectionClear(SlotNode(REPEATING.value.members, Groups), LAST_READ, OTHER_MEMBER, Groups);
    PlanExists(REPEATING, OTHER_MEMBER);
    PlanOrderComplete();
    ParsedFits(REPEATING);
    SectionsGo(REPEATING, ParseDocument(REPEATING).value, OTHER_MEMBER, IndentUnit(REPEATING), PLAN_ORDER);
    PatchGivesRequestedModel(REPEATING, OTHER_MEMBER);
  }
}

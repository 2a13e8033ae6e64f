/** The rule form: destinations and ports kept apart while a rule is edited (frontend/src/pages/acls/model.ts). */
module RuleForm {
  import opened Base
  import opened Text
  import opened Ports
  import opened DraftModel

  /** The form fields the destinations are rebuilt from. */
  datatype Targets = Targets(dst: seq<string>, ports: string, dstPorts: map<string, string>)

  /** The destinations as loaded, with the fields derived from them. */
  datatype Original = Original(dst: seq<string>, snapshot: Targets)

  datatype Form = Form(
    name: string, description: string, enabled: bool, proto: string, src: seq<string>,
    targets: Targets, original: Option<Original>)

  // ---- loading ----

  /** The selectors in order of first appearance and the ports collected for each. */
  function Collect(dsts: seq<string>): (r: (seq<string>, map<string, string>)) {
    if dsts == [] then ([], map[])
    else
      var (sels, specs) := Collect(dsts[..|dsts| - 1]);
      var d := SplitDst(dsts[|dsts| - 1]);
      (if d.selector in sels then sels else sels + [d.selector],
                     specs[d.selector :=
                             if d.selector in specs then MergePorts(specs[d.selector], d.ports) else d.ports])
  }

  predicate SameSpecs(specs: map<string, string>) { forall k, l | k in specs && l in specs :: specs[k] == specs[l] }

  /** The one specification every selector carries, "" when they differ or there is none. */
  function Shared(specs: map<string, string>): (r: string)
    ensures SameSpecs(specs) ==> forall k | k in specs :: specs[k] == r
    ensures !SameSpecs(specs) || specs == map[] ==> r == ""
  {
    if specs != map[] && SameSpecs(specs) then
      assert exists k :: k in specs;
      var spec :| spec in specs.Values;
      spec
    else ""
  }

  function TargetsOf(dsts: seq<string>): Targets {
    var (sels, specs) := Collect(dsts);
    Targets(sels, Shared(specs), specs)
  }

  function RuleToForm(r: RuleText): Form {
    var targets := TargetsOf(r.dst);
    Form(r.name, r.description, r.enabled, r.proto, r.src, targets, Some(Original(r.dst, targets)))
  }

  method RuleToFormLoop(r: RuleText) returns (f: Form)
    ensures f == RuleToForm(r)
  {
    hide SplitDst, MergePorts;
    var dst: seq<string> := [];
    var dstPorts: map<string, string> := map[];
    for i := 0 to |r.dst|
      invariant (dst, dstPorts) == Collect(r.dst[..i])
    {
      var d := SplitDst(r.dst[i]);
      assert r.dst[..i + 1][..i] == r.dst[..i];
      if d.selector !in dst { dst := dst + [d.selector]; }
      dstPorts :=
        dstPorts[d.selector := if d.selector in dstPorts then MergePorts(dstPorts[d.selector], d.ports) else d.ports];
    }
    assert r.dst[..|r.dst|] == r.dst;
    var targets := Targets(dst, Shared(dstPorts), dstPorts);
    f := Form(r.name, r.description, r.enabled, r.proto, r.src, targets, Some(Original(r.dst, targets)));
  }

  // ---- writing back ----

  /** A specification in normal form; one that is refused is passed through trimmed. */
  function Norm(spec: string): string {
    match ParsePorts(spec)
    case Some(v) => v
    case None => Trim(spec, JsSpace)
  }

  /** The ports a selector is written with: the shared ones unless blank, else its own. */
  function SpecFor(t: Targets, selector: string): string {
    var shared := Trim(t.ports, JsSpace);
    if shared != "" then shared else Lookup(t.dstPorts, selector).GetOr("")
  }

  function Rebuild(t: Targets): (r: seq<string>)
    ensures |r| == |t.dst|
    ensures forall i | 0 <= i < |r| :: r[i] == JoinDst(t.dst[i], Norm(SpecFor(t, t.dst[i])))
  {
    seq(|t.dst|, i requires 0 <= i < |t.dst| => JoinDst(t.dst[i], Norm(SpecFor(t, t.dst[i]))))
  }

  function FormToRule(f: Form): RuleText {
    RuleText(
      f.proto, f.src,
      if f.original.Some? && f.original.value.snapshot == f.targets then f.original.value.dst else Rebuild(f.targets),
      Trim(f.name, JsSpace), Trim(f.description, JsSpace), f.enabled)
  }

  // ---- meaning ----

  /** The destination list lets traffic reach `selector` on `port`. */
  ghost predicate Allows(dsts: seq<string>, selector: string, port: nat) {
    exists d | d in dsts :: !SplitDst(d).bad && SplitDst(d).selector == selector && Denotes(SplitDst(d).ports, port)
  }

  ghost predicate AllSplit(dsts: seq<string>) { forall d | d in dsts :: !SplitDst(d).bad }

  /** What the form's own validation asks of the destinations. */
  predicate ValidTargets(t: Targets) {
    forall sel | sel in t.dst :: sel != "" && ParsePorts(SpecFor(t, sel)).Some?
  }

  lemma NormSplits(selector: string, spec: string, port: nat)
    requires selector != "" && ParsePorts(spec).Some?
    ensures var d := SplitDst(JoinDst(selector, Norm(spec)));
            !d.bad && d.selector == selector && (Denotes(d.ports, port) <==> Denotes(spec, port))
  {
    hide SplitDst, JoinDst, Denotes, IsNormal;
    var v := ParsePorts(spec).value;
    assert Norm(spec) == v;
    ParseIdempotent(spec);
    SplitUndoesJoinDst(selector, v);
    ParsePreservesPorts(spec, port);
  }

  /** Whatever the user made of the form: once it is valid, the rebuilt destinations all split and
      allow a pair exactly when the selector is listed and its ports denote the port. */
  lemma RebuiltAllows(t: Targets, selector: string, port: nat)
    requires ValidTargets(t)
    ensures AllSplit(Rebuild(t))
    ensures Allows(Rebuild(t), selector, port) <==> selector in t.dst && Denotes(SpecFor(t, selector), port)
  {
    hide SplitDst, JoinDst, Denotes, ParsePorts, Norm, SpecFor;
    var r := Rebuild(t);
    forall i | 0 <= i < |r|
      ensures var d := SplitDst(r[i]);
              !d.bad && d.selector == t.dst[i] && (Denotes(d.ports, port) <==> Denotes(SpecFor(t, t.dst[i]), port))
    {
      assert t.dst[i] in t.dst;
      NormSplits(t.dst[i], SpecFor(t, t.dst[i]), port);
    }
    if selector in t.dst && Denotes(SpecFor(t, selector), port) {
      var i :| 0 <= i < |t.dst| && t.dst[i] == selector;
      assert r[i] in r;
    }
  }

  /** What loading collects, when every destination splits. */
  ghost predicate Faithful(dsts: seq<string>, sels: seq<string>, specs: map<string, string>) {
    && Distinct(sels)
    && (forall s :: s in sels <==> s in specs)
    && (forall s | s in specs :: s != "" && IsNormal(specs[s]))
    && forall s, p: nat :: Allows(dsts, s, p) <==> s in specs && Denotes(specs[s], p)
  }

  lemma AllowsSplits(init: seq<string>, last: string, s: string, p: nat)
    ensures Allows(init + [last], s, p) <==> Allows(init, s, p) || Allows([last], s, p)
  {
  }

  lemma {:induction false} CollectIsFaithful(dsts: seq<string>)
    requires AllSplit(dsts)
    ensures Faithful(dsts, Collect(dsts).0, Collect(dsts).1)
  {
    hide SplitDst, MergePorts, Denotes, IsNormal, Allows, Faithful;
    if dsts == [] {
      NothingCollected();
    } else {
      var init, last := dsts[..|dsts| - 1], dsts[|dsts| - 1];
      assert dsts == init + [last];
      assert last in dsts && forall d | d in init :: d in dsts;
      CollectIsFaithful(init);
      CollectStep(init, last);
      FaithfulStep(init, last, Collect(init).0, Collect(init).1);
    }
  }

  lemma NothingCollected()
    ensures Faithful([], [], map[])
  {
    hide Denotes, IsNormal, Allows;
    forall s, p: nat ensures !Allows([], s, p) { NothingAllowed(s, p); }
  }

  lemma FaithfulStep(init: seq<string>, last: string, sels: seq<string>, specs: map<string, string>)
    requires !SplitDst(last).bad && Faithful(init, sels, specs)
    ensures var d := SplitDst(last);
            Faithful(init + [last], if d.selector in sels then sels else sels + [d.selector],
                     specs[d.selector :=
                             if d.selector in specs then MergePorts(specs[d.selector], d.ports) else d.ports])
  {
    hide SplitDst, MergePorts, Denotes, IsNormal, Allows;
    var d := SplitDst(last);
    SplitParts(last);
    if d.selector in specs { MergeIsUnion(specs[d.selector], d.ports, 0); }
    var merged := if d.selector in specs then MergePorts(specs[d.selector], d.ports) else d.ports;
    forall s, p: nat
      ensures Allows(init + [last], s, p) <==>
              s in specs[d.selector := merged] && Denotes(specs[d.selector := merged][s], p)
    {
      assert Allows(init, s, p) <==> s in specs && Denotes(specs[s], p);
      StepAllows(init, last, specs, s, p);
    }
  }

  lemma StepAllows(init: seq<string>, last: string, specs: map<string, string>, s: string, p: nat)
    requires !SplitDst(last).bad && (Allows(init, s, p) <==> s in specs && Denotes(specs[s], p))
    requires SplitDst(last).selector in specs ==> IsNormal(specs[SplitDst(last).selector])
    ensures var d := SplitDst(last);
            var merged := if d.selector in specs then MergePorts(specs[d.selector], d.ports) else d.ports;
            var after := specs[d.selector := merged];
            Allows(init + [last], s, p) <==> s in after && Denotes(after[s], p)
  {
    hide SplitDst, MergePorts, Denotes, IsNormal, Allows;
    var d := SplitDst(last);
    SplitParts(last);
    AllowsSplits(init, last, s, p);
    OneAllowed(last, s, p);
    if d.selector in specs { MergeIsUnion(specs[d.selector], d.ports, p); }
  }

  lemma CollectStep(init: seq<string>, last: string)
    ensures var (sels, specs) := Collect(init);
            var d := SplitDst(last);
            Collect(init + [last]) ==
            (if d.selector in sels then sels else sels + [d.selector],
                     specs[d.selector :=
                             if d.selector in specs then MergePorts(specs[d.selector], d.ports) else d.ports])
  {
    assert (init + [last])[..|init|] == init;
  }

  lemma NothingAllowed(s: string, p: nat)
    ensures !Allows([], s, p)
  {
  }

  lemma OneAllowed(d: string, s: string, p: nat)
    ensures Allows([d], s, p) <==> !SplitDst(d).bad && SplitDst(d).selector == s && Denotes(SplitDst(d).ports, p)
  {
    assert d in [d];
  }

  /** A rule rebuilt from its form without the saved list allows exactly what the rule allowed,
      provided every destination split. */
  lemma RebuildKeepsMeaning(r: RuleText, selector: string, port: nat)
    requires AllSplit(r.dst)
    ensures var back := FormToRule(RuleToForm(r).(original := None));
            AllSplit(back.dst) && (Allows(back.dst, selector, port) <==> Allows(r.dst, selector, port))
  {
    hide Denotes, IsNormal, Allows, AllSplit, ParsePorts, Trim, Collect;
    CollectIsFaithful(r.dst);
    var t := TargetsOf(r.dst);
    forall sel | sel in t.dst
      ensures SpecFor(t, sel) == t.dstPorts[sel] && sel != "" && ParsePorts(SpecFor(t, sel)).Some?
    {
      NormalParses(t.dstPorts[sel]);
    }
    RebuiltAllows(t, selector, port);
  }

  lemma {:induction false} NormalParses(spec: string)
    requires IsNormal(spec)
    ensures ParsePorts(spec) == Some(spec) && Trim(spec, JsSpace) == spec && spec != ""
  {
    NormalChars(spec);
  }
}

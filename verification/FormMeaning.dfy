/** What a rule rebuilt from its form allows, malformed destinations included (frontend/src/pages/acls/model.ts). */
module FormMeaning {
  import opened Base
  import opened Text
  import opened Ports
  import opened RuleForm

  // ---- characters ----

  lemma {:induction false} TrimChars(s: string, c: char)
    requires c !in s
    ensures c !in Trim(s, JsSpace)
    decreases |s|
  {
    if s != [] {
      if JsSpace(s[0]) { TrimChars(s[1..], c); }
      else if JsSpace(s[|s| - 1]) { TrimChars(s[..|s| - 1], c); }
    }
  }

  lemma {:induction false} TrimAgain(s: string)
    ensures Trim(Trim(s, JsSpace), JsSpace) == Trim(s, JsSpace)
  {
    TrimStops(Trim(s, JsSpace), JsSpace);
  }

  lemma {:induction false} SplitChars(s: string, c: char)
    ensures forall part | part in Split(s, ',') :: (c !in s ==> c !in part) && ',' !in part
  {
    if s != [] {
      SplitChars(s[1..], c);
      assert s == [s[0]] + s[1..];
      var rest := Split(s[1..], ',');
      assert rest[0] in rest && forall part | part in rest[1..] :: part in rest;
    }
  }

  lemma {:induction false} JoinChars(parts: seq<string>, c: char)
    requires c != ',' && forall part | part in parts :: c !in part
    ensures c !in Join(parts, ',')
  {
    if |parts| > 1 {
      assert parts[0] in parts && forall part | part in parts[1..] :: part in parts;
      JoinChars(parts[1..], c);
    } else if |parts| == 1 {
      assert parts[0] in parts;
    }
  }

  /** A part with nothing to trim and no comma. */
  predicate PlainPart(part: string) { part != "" && Trim(part, JsSpace) == part && ',' !in part }

  lemma {:induction false} JoinIsTrimmed(parts: seq<string>)
    requires parts != [] && forall part | part in parts :: PlainPart(part)
    ensures var s := Join(parts, ','); s != "" && !JsSpace(s[0]) && !JsSpace(s[|s| - 1])
  {
    hide Trim;
    assert parts[0] in parts;
    PlainEnds(parts[0]);
    if |parts| > 1 {
      assert forall part | part in parts[1..] :: part in parts;
      JoinIsTrimmed(parts[1..]);
    }
  }

  lemma PlainEnds(part: string)
    requires PlainPart(part)
    ensures !JsSpace(part[0]) && !JsSpace(part[|part| - 1])
  {
    assert Trim(part, JsSpace) == part;
  }

  // ---- merged specifications ----

  lemma {:induction false} NonEmptyMembers(parts: seq<string>)
    ensures forall x :: x in NonEmpty(parts) <==> x in parts && x != ""
  {
    if parts != [] {
      var init, last := parts[..|parts| - 1], parts[|parts| - 1];
      assert parts == init + [last];
      NonEmptyMembers(init);
    }
  }

  function MergedParts(a: string, b: string): seq<string> {
    Dedup(NonEmpty(TrimEach(Split(a, ',') + Split(b, ','), JsSpace)))
  }

  lemma MergedPart(a: string, b: string, part: string)
    ensures part in MergedParts(a, b) ==> PlainPart(part)
    ensures ':' !in a && ':' !in b && part in MergedParts(a, b) ==> ':' !in part
    ensures PlainPart(part) && (part in Split(a, ',') || part in Split(b, ',')) ==> part in MergedParts(a, b)
  {
    hide Split, Trim, NonEmpty, Dedup, PlainPart;
    var raw := Split(a, ',') + Split(b, ',');
    var trimmed := TrimEach(raw, JsSpace);
    NonEmptyMembers(trimmed);
    if part in MergedParts(a, b) {
      var i :| 0 <= i < |trimmed| && trimmed[i] == part;
      SplitChars(a, ':');
      SplitChars(b, ':');
      assert raw[i] in Split(a, ',') || raw[i] in Split(b, ',');
      TrimChars(raw[i], ',');
      if ':' !in raw[i] { TrimChars(raw[i], ':'); }
      TrimAgain(raw[i]);
      IsPlain(part);
    }
    if PlainPart(part) && (part in Split(a, ',') || part in Split(b, ',')) {
      assert part in raw;
      var i :| 0 <= i < |raw| && raw[i] == part;
      PlainIsTrimmed(part);
      assert trimmed[i] == part;
    }
  }

  lemma IsPlain(part: string)
    requires part != "" && Trim(part, JsSpace) == part && ',' !in part
    ensures PlainPart(part)
  {
  }

  lemma PlainIsTrimmed(part: string)
    requires PlainPart(part)
    ensures part != "" && Trim(part, JsSpace) == part && ',' !in part
  {
  }

  /** A merged specification splits into its parts again and needs no trimming. */
  lemma MergedSplits(a: string, b: string)
    requires a != "*" && b != "*" && MergedParts(a, b) != []
    ensures Split(MergePorts(a, b), ',') == MergedParts(a, b)
    ensures Trim(MergePorts(a, b), JsSpace) == MergePorts(a, b)
  {
    hide Split, Trim, Join, TrimEach, NonEmpty, Dedup, PlainPart;
    var parts := MergedParts(a, b);
    forall part | part in parts ensures PlainPart(part) && ',' !in part {
      MergedPart(a, b, part);
      PlainIsTrimmed(part);
    }
    SplitUndoesJoin(parts, ',');
    JoinIsTrimmed(parts);
    TrimStops(Join(parts, ','), JsSpace);
  }

  lemma MergedChars(a: string, b: string)
    requires ':' !in a && ':' !in b
    ensures ':' !in MergePorts(a, b)
  {
    hide Split, Trim, Join, TrimEach, NonEmpty, Dedup;
    if a != "*" && b != "*" {
      forall part | part in MergedParts(a, b) ensures ':' !in part { MergedPart(a, b, part); }
      JoinChars(MergedParts(a, b), ':');
    }
  }

  /** A specification lists every part of another. */
  ghost predicate Covers(spec: string, v: string) {
    spec == "*" || (Trim(spec, JsSpace) == spec && forall part | part in Split(v, ',') :: part in Split(spec, ','))
  }

  lemma NormalIsPlain(v: string)
    requires IsNormal(v)
    ensures Split(v, ',') != [] && forall part | part in Split(v, ',') :: PlainPart(part)
  {
    hide ParsePorts, Split, NormalPart;
    if v == "*" {
      SplitWhole("*", ',');
    } else {
      NormalIsList(v);
      forall part | part in Split(v, ',') ensures PlainPart(part) {
        NormalPartChars(part);
        assert ',' !in part;
      }
    }
  }

  lemma NormalCoversItself(v: string)
    requires IsNormal(v)
    ensures Covers(v, v)
  {
    NormalChars(v);
  }

  /** Merging goes on covering what either side covers. */
  lemma MergeCovers(a: string, b: string, v: string)
    requires IsNormal(v) && (Covers(a, v) || Covers(b, v))
    ensures Covers(MergePorts(a, b), v)
  {
    hide Split, Trim, PlainPart, MergedParts;
    if a != "*" && b != "*" {
      NormalIsPlain(v);
      forall part | part in Split(v, ',') ensures part in MergedParts(a, b) { MergedPart(a, b, part); }
      assert Split(v, ',')[0] in Split(v, ',');
      MergedSplits(a, b);
    }
  }

  lemma AcceptedParts(spec: string, part: string)
    requires ParsePorts(spec).Some? && spec != "*" && Trim(spec, JsSpace) == spec && part in Split(spec, ',')
    ensures ParseRange(Trim(part, JsSpace)).Some?
  {
    hide Split, Trim, ParseRange, Join;
    var raw := Split(spec, ',');
    var i :| 0 <= i < |raw| && raw[i] == part;
    NormalPartsAreNormal(TrimEach(raw, JsSpace));
  }

  lemma StarIsNoRange()
    ensures ParseRange("*").None? && Trim("*", JsSpace) == "*"
  {
    TrimStops("*", JsSpace);
    SplitWhole("*", '-');
  }

  /** An accepted specification denotes every port of what it covers. */
  lemma CoveredPorts(spec: string, v: string, port: nat)
    requires ParsePorts(spec).Some? && IsNormal(v) && Covers(spec, v) && Denotes(v, port)
    ensures Denotes(spec, port)
  {
    hide Split, ParsePorts, RangeOf;
    ParsePreservesPorts(v, port);
    StarIsNoRange();
    if spec != "*" {
      hide Trim;
      NormalChars(v);
      if v == "*" {
        SplitWhole("*", ',');
        assert Split(v, ',')[0] == "*" && "*" in Split(spec, ',');
        AcceptedParts(spec, "*");
        assert false;
      }
    }
  }

  /** A normal specification denotes some port. */
  lemma NormalDenotes(v: string) returns (port: nat)
    requires IsNormal(v)
    ensures Denotes(v, port)
  {
    hide Split, Join, ParseRange, NormalRange;
    if v == "*" {
      TrimStops("*", JsSpace);
      port := 1;
    } else {
      hide Denotes;
      NormalIsList(v);
      var part := Split(v, ',')[0];
      assert part in Split(v, ',') && NormalPart(part);
      port := ParseRange(part).value.0;
      ParsedBounds(part);
      ListDenotes(Split(v, ','), port);
    }
  }

  // ---- what loading collects ----

  /** What is collected for one destination's selector, whatever the destinations are. */
  ghost predicate Collected(d: string, specs: map<string, string>) {
    var p := SplitDst(d);
    p.selector in specs && (!p.bad ==> Covers(specs[p.selector], p.ports))
  }

  predicate SafeSpecs(specs: map<string, string>) {
    forall s | s in specs :: ':' !in specs[s] && (s == "" ==> specs[s] == "")
  }

  lemma SplitShape(d: string)
    ensures var p := SplitDst(d);
            ':' !in p.ports && (p.selector == "" ==> p.ports == "") &&
              (!p.bad ==> p.selector != "" && IsNormal(p.ports))
  {
    hide ParsePorts, IsNormal;
    SplitParts(d);
    if !SplitDst(d).bad { NormalChars(SplitDst(d).ports); }
  }

  lemma NothingMerged()
    ensures MergePorts("", "") == ""
  {
    hide Trim;
    assert Trim("", JsSpace) == "" by { TrimStops("", JsSpace); }
    assert TrimEach(["", ""], JsSpace) == ["", ""] && Split("", ',') + Split("", ',') == ["", ""];
    assert ["", ""][..1] == [""] && [""][..0] == [];
    assert NonEmpty([""]) == [] && NonEmpty(["", ""]) == [];
  }

  lemma {:induction false} CollectCovers(dsts: seq<string>)
    ensures var (sels, specs) := Collect(dsts);
            Distinct(sels) && (forall s :: s in sels <==> s in specs) && SafeSpecs(specs) &&
            forall d | d in dsts :: Collected(d, specs)
  {
    hide SplitDst, MergePorts, Covers;
    if dsts != [] {
      var init, last := dsts[..|dsts| - 1], dsts[|dsts| - 1];
      assert dsts == init + [last];
      CollectCovers(init);
      CollectStep(init, last);
      var (sels, specs) := Collect(init);
      var p := SplitDst(last);
      SplitShape(last);
      NothingMerged();
      var after := Collect(dsts).1;
      if p.selector in specs { MergedChars(specs[p.selector], p.ports); }
      forall d | d in dsts ensures Collected(d, after) {
        SplitShape(d);
        if d == last { if !p.bad { NormalCoversItself(p.ports); } }
        if p.selector in specs && !SplitDst(d).bad && SplitDst(d).selector == p.selector {
          MergeCovers(specs[p.selector], p.ports, SplitDst(d).ports);
        }
      }
    }
  }

  // ---- what is written back ----

  lemma ParseTrims(spec: string)
    ensures Norm(Trim(spec, JsSpace)) == Norm(spec)
  {
    hide Join, Split;
    TrimAgain(spec);
  }

  /** Whether the shared ports or a selector's own are used, what is written is the same. */
  lemma NormOfSpec(dsts: seq<string>, s: string)
    requires s in Collect(dsts).1
    ensures Norm(SpecFor(TargetsOf(dsts), s)) == Norm(Collect(dsts).1[s])
  {
    hide Collect, Norm, Trim;
    ParseTrims(Collect(dsts).1[s]);
  }

  /** A destination written back allows what its specification denotes, and nothing when that is refused. */
  lemma WrittenAllows(s: string, spec: string, selector: string, port: nat)
    requires ':' !in spec && (s == "" ==> spec == "")
    ensures Allows([JoinDst(s, Norm(spec))], selector, port) <==>
            s == selector && ParsePorts(spec).Some? && Denotes(spec, port)
  {
    hide Denotes, Trim, IsNormal, JoinDst, ParsePorts, SplitDst;
    var d := JoinDst(s, Norm(spec));
    OneAllowed(d, selector, port);
    if ParsePorts(spec).Some? {
      EmptyIsRefused();
      NormSplits(s, spec, port);
    } else {
      RefusedIsBad(s, spec);
    }
  }

  lemma EmptyIsRefused()
    ensures ParsePorts("").None?
  {
    TrimStops("", JsSpace);
  }

  lemma RefusedIsBad(s: string, spec: string)
    requires ':' !in spec && (s == "" ==> spec == "") && ParsePorts(spec).None?
    ensures SplitDst(JoinDst(s, Norm(spec))).bad
  {
    hide Trim, Split, Join;
    var w := Trim(spec, JsSpace);
    TrimChars(spec, ':');
    TrimAgain(spec);
    assert ParsePorts(w).None?;
    assert JoinDst(s, w) == s + [':'] + w;
    LastIndexOfTail(s, ':', w);
    assert JoinDst(s, w)[|s| + 1..] == w;
  }

  /** A rule rebuilt from its form without the saved list allows, for each selector listed, the ports of the
      specification collected for it, if that is accepted. */
  lemma RebuiltMeans(dsts: seq<string>, s: string, port: nat)
    ensures var specs := Collect(dsts).1;
            Allows(Rebuild(TargetsOf(dsts)), s, port) <==>
            s in specs && ParsePorts(specs[s]).Some? && Denotes(specs[s], port)
  {
    hide Denotes, SplitDst, ParsePorts, Collect, Norm, SpecFor, JoinDst, Allows, TargetsOf, Covers;
    CollectCovers(dsts);
    var (sels, specs) := Collect(dsts);
    var t := TargetsOf(dsts);
    TargetsAre(dsts);
    var r := Rebuild(t);
    forall i | 0 <= i < |r|
      ensures Allows([r[i]], s, port) <==>
              sels[i] == s && ParsePorts(specs[sels[i]]).Some? && Denotes(specs[sels[i]], port)
    {
      assert sels[i] in sels;
      NormOfSpec(dsts, sels[i]);
      WrittenAllows(sels[i], specs[sels[i]], s, port);
    }
    AllowsOne(r, s, port);
    if s in specs {
      var i :| 0 <= i < |sels| && sels[i] == s;
      assert r[i] in r;
    }
  }

  lemma TargetsAre(dsts: seq<string>)
    ensures TargetsOf(dsts).dst == Collect(dsts).0 && TargetsOf(dsts).dstPorts == Collect(dsts).1
  {
  }

  /** A list allows what one of its destinations does. */
  lemma AllowsOne(dsts: seq<string>, s: string, port: nat)
    ensures Allows(dsts, s, port) <==> exists i :: 0 <= i < |dsts| && Allows([dsts[i]], s, port)
  {
    hide SplitDst, Denotes;
    forall i | 0 <= i < |dsts|
      ensures Allows([dsts[i]], s, port) <==>
              !SplitDst(dsts[i]).bad && SplitDst(dsts[i]).selector == s && Denotes(SplitDst(dsts[i]).ports, port)
    {
      OneAllowed(dsts[i], s, port);
    }
  }

  /** Some destination on the selector is well-formed. */
  ghost predicate SomeSplits(dsts: seq<string>, s: string) {
    exists d | d in dsts :: !SplitDst(d).bad && SplitDst(d).selector == s
  }

  /** No access is lost on a selector when its collected specification is accepted. */
  lemma AcceptedKeeps(dsts: seq<string>, s: string, port: nat)
    requires Allows(dsts, s, port)
    ensures var specs := Collect(dsts).1; s in specs && (ParsePorts(specs[s]).Some? ==> Denotes(specs[s], port))
  {
    hide SplitDst, Denotes, ParsePorts, Collect, Covers;
    CollectCovers(dsts);
    var d :| d in dsts && !SplitDst(d).bad && SplitDst(d).selector == s && Denotes(SplitDst(d).ports, port);
    assert Collected(d, Collect(dsts).1);
    SplitShape(d);
    if ParsePorts(Collect(dsts).1[s]).Some? { CoveredPorts(Collect(dsts).1[s], SplitDst(d).ports, port); }
  }

  /** For every rule and selector: a rebuild keeps what is allowed, port by port, exactly when the ports collected
      for the selector are refused and no destination on it was well-formed, or are accepted and each of them is a
      port of some well-formed destination on it. */
  lemma RebuildKeepsMeaningIff(dsts: seq<string>, s: string)
    ensures var specs := Collect(dsts).1;
            (forall port: nat :: Allows(Rebuild(TargetsOf(dsts)), s, port) <==> Allows(dsts, s, port))
            <==>
            (s in specs ==>
               if ParsePorts(specs[s]).None? then !SomeSplits(dsts, s)
               else forall port: nat | Denotes(specs[s], port) :: Allows(dsts, s, port))
  {
    hide SplitDst, Denotes, ParsePorts, Collect, Covers, Rebuild, TargetsOf, SomeSplits, Allows;
    var specs := Collect(dsts).1;
    forall port: nat
      ensures Allows(Rebuild(TargetsOf(dsts)), s, port) <==>
              s in specs && ParsePorts(specs[s]).Some? && Denotes(specs[s], port)
      ensures Allows(dsts, s, port) ==> s in specs && (ParsePorts(specs[s]).Some? ==> Denotes(specs[s], port))
      ensures Allows(dsts, s, port) ==> SomeSplits(dsts, s)
    {
      RebuiltMeans(dsts, s, port);
      if Allows(dsts, s, port) {
        AcceptedKeeps(dsts, s, port);
        AllowedSplits(dsts, s, port);
      }
    }
    if SomeSplits(dsts, s) {
      var port := SplitsAllow(dsts, s);
    }
  }

  lemma AllowedSplits(dsts: seq<string>, s: string, port: nat)
    requires Allows(dsts, s, port)
    ensures SomeSplits(dsts, s)
  {
  }

  lemma SplitsAllow(dsts: seq<string>, s: string) returns (port: nat)
    requires SomeSplits(dsts, s)
    ensures Allows(dsts, s, port)
  {
    hide SplitDst, Denotes;
    var d :| d in dsts && !SplitDst(d).bad && SplitDst(d).selector == s;
    SplitShape(d);
    port := NormalDenotes(SplitDst(d).ports);
  }

  // ---- examples ----

  lemma OneIsNormal()
    ensures NormalPart("1") && IsNormal("1") && Split("1", ',') == ["1"]
  {
    hide ParsePorts, ParseRange, Split, Trim;
    assert NormalRange(1, 1) == "1";
    NormalRangeIsPart(1, 1);
    NormalListIsNormal(["1"]);
  }

  lemma LetterIsRefused()
    ensures ParseRange("x").None? && Split("x", ',') == ["x"] && Trim("x", JsSpace) == "x"
  {
    assert !IsDigit('x') && 'x' in "x";
    SplitWhole("x", ',');
    SplitWhole("x", '-');
  }

  lemma SmallSpecs()
    ensures ParsePorts("1") == Some("1") && ParsePorts("x") == None && ParsePorts("1,x") == None
    ensures Trim("1,x", JsSpace) == "1,x" && Split("1", ',') + Split("x", ',') == ["1", "x"]
    ensures TrimEach(["1", "x"], JsSpace) == ["1", "x"]
  {
    hide ParseRange, Split, Denotes, IsDigit, NormalPart, NormalRange;
    OneIsNormal();
    LetterIsRefused();
    SplitAtSeparator("1", ',', "x");
    assert "1" + [','] + "x" == "1,x" && ["1"] + ["x"] == ["1", "x"];
    NormalChars("1");
    TrimStops("1,x", JsSpace);
    assert TrimEach(["x"], JsSpace) == ["x"] && TrimEach(["1", "x"], JsSpace) == ["1", "x"];
    assert NormalParts(["1", "x"]).None? && NormalParts(["x"]).None?;
  }

  lemma SmallMerge()
    ensures MergePorts("1", "x") == "1,x"
  {
    hide ParsePorts, Split, Trim, NonEmpty, Dedup, Join;
    SmallSpecs();
    NonEmptyKeeps(["1", "x"]);
    DedupOfTwo("1", "x");
    JoinOfTwo("1", "x");
    assert "1" + [','] + "x" == "1,x";
  }

  lemma DedupOfTwo(a: string, b: string)
    requires a != b
    ensures Dedup([a, b]) == [a, b]
  {
    assert [a, b][..1] == [a] && [a][..0] == [];
    assert Dedup([a]) == [a];
  }

  lemma JoinOfTwo(a: string, b: string)
    ensures Join([a, b], ',') == a + [','] + b
  {
    assert [a, b][1..] == [b];
  }

  lemma SmallDestinations()
    ensures SplitDst("a:1") == Dst("a", "1", false) && SplitDst("a:x") == Dst("a", "x", true)
    ensures SplitDst("a:1,x") == Dst("a", "1,x", true)
  {
    hide ParsePorts, SplitDst;
    SmallSpecs();
    SplitAtLastColon("a", "1");
    SplitAtLastColon("a", "x");
    SplitAtLastColon("a", "1,x");
    assert JoinDst("a", "1") == "a:1" && JoinDst("a", "x") == "a:x" && JoinDst("a", "1,x") == "a:1,x";
  }

  /** A malformed destination can cost access: "a:1" next to "a:x" comes back as the refused "a:1,x". */
  lemma MalformedLoses()
    ensures Allows(["a:1", "a:x"], "a", 1)
    ensures Rebuild(TargetsOf(["a:1", "a:x"])) == ["a:1,x"]
    ensures !Allows(["a:1,x"], "a", 1)
  {
    hide ParsePorts, SplitDst, MergePorts, Denotes;
    SmallSpecs();
    SmallMerge();
    SmallDestinations();
    var dsts := ["a:1", "a:x"];
    CollectStep([], "a:1");
    CollectStep(["a:1"], "a:x");
    assert [] + ["a:1"] == ["a:1"] && ["a:1"] + ["a:x"] == dsts;
    OneIsDenoted();
    assert dsts[0] in dsts;
    var t := TargetsOf(dsts);
    assert "a" in t.dstPorts;
    assert t.ports == "1,x" && t.dst == ["a"] && JoinDst("a", "1,x") == "a:1,x";
    assert Rebuild(t) == ["a:1,x"];
    OneAllowed("a:1,x", "a", 1);
  }

  lemma OneIsDenoted()
    ensures Denotes("1", 1)
  {
    hide Split, NormalPart, IsNormal;
    OneIsNormal();
    NormalRangeIsPart(1, 1);
    assert NormalRange(1, 1) == "1";
    assert Join(["1"], ',') == "1" && "1" in ["1"];
    ListDenotes(["1"], 1);
  }

  lemma TwoIsNormal()
    ensures NormalPart("2") && IsNormal("2") && Split("2", ',') == ["2"]
  {
    hide ParsePorts, ParseRange, Split, Trim;
    assert NormalRange(2, 2) == "2";
    NormalRangeIsPart(2, 2);
    NormalListIsNormal(["2"]);
  }

  lemma TwiceIsRefused()
    ensures ParsePorts("1,1") == None && Split("1,1", ',') == ["1", "1"]
  {
    hide Split, Denotes, NormalPart, Trim, IsNormal, NormalParts;
    OneIsNormal();
    SplitAtSeparator("1", ',', "1");
    var twice := ["1", "1"];
    assert "1" + [','] + "1" == "1,1" && ["1"] + ["1"] == twice;
    NormalChars("1");
    TrimStops("1,1", JsSpace);
    assert forall i | 0 <= i < 2 :: TrimEach(twice, JsSpace)[i] == Trim("1", JsSpace);
    assert TrimEach(twice, JsSpace) == twice;
    TwiceIsNotNormal(twice);
  }

  lemma TwiceIsNotNormal(twice: seq<string>)
    requires twice == ["1", "1"]
    ensures NormalParts(twice).None?
  {
    hide ParseRange, NormalPart;
    NormalRangeIsPart(1, 1);
    assert NormalRange(1, 1) == "1";
    NormalListParses(["1"]);
    assert twice[..1] == ["1"] && twice[1] == "1";
  }

  lemma ThreePartsMerged()
    ensures Dedup(["1", "1", "2"]) == ["1", "2"]
  {
    var raw := ["1", "1", "2"];
    assert raw[..2] == ["1", "1"] && raw[..2][..1] == ["1"] && ["1"][..0] == [];
    assert Dedup(["1"]) == ["1"] && Dedup(["1", "1"]) == ["1"];
    assert ["1"] + ["2"] == ["1", "2"];
  }

  lemma OneTwo()
    ensures MergePorts("1,1", "2") == "1,2" && IsNormal("1,2") && Denotes("1,2", 1)
  {
    hide ParsePorts, Split, Trim, ParseRange, NormalRange, Denotes, NormalPart, Join, Dedup, NonEmpty, IsNormal;
    OneIsNormal();
    TwoIsNormal();
    TwiceIsRefused();
    NormalChars("1");
    NormalChars("2");
    var raw, two := ["1", "1", "2"], ["1", "2"];
    assert Split("1,1", ',') + Split("2", ',') == raw && TrimEach(raw, JsSpace) == raw;
    NonEmptyKeeps(raw);
    ThreePartsMerged();
    JoinOfTwo("1", "2");
    assert "1" + [','] + "2" == "1,2";
    assert NormalList(two);
    NormalListIsNormal(two);
    OneIsInTwo(two);
  }

  lemma OneIsInTwo(two: seq<string>)
    requires two == ["1", "2"] && NormalList(two)
    ensures Denotes(Join(two, ','), 1)
  {
    hide ParsePorts, Split, Denotes, NormalPart, Join, NormalList;
    NormalRangeIsPart(1, 1);
    assert NormalRange(1, 1) == "1" && two[0] == "1" && "1" in two;
    ListDenotes(two, 1);
  }

  /** A malformed destination can also gain access: "a:1,1", refused because it lists a port twice, next to "a:2"
      comes back as the accepted "a:1,2". */
  lemma MalformedGains()
    ensures !Allows(["a:1,1", "a:2"], "a", 1)
    ensures Rebuild(TargetsOf(["a:1,1", "a:2"])) == ["a:1,2"]
    ensures Allows(["a:1,2"], "a", 1)
  {
    hide ParsePorts, SplitDst, MergePorts, Denotes, Allows;
    TwiceIsRefused();
    TwoIsNormal();
    OneTwo();
    GainingDestinations();
    var dsts := ["a:1,1", "a:2"];
    CollectStep([], "a:1,1");
    CollectStep(["a:1,1"], "a:2");
    assert [] + ["a:1,1"] == ["a:1,1"] && ["a:1,1"] + ["a:2"] == dsts;
    AllowsSplits(["a:1,1"], "a:2", "a", 1);
    OneAllowed("a:1,1", "a", 1);
    OneAllowed("a:2", "a", 1);
    OneAllowed("a:1,2", "a", 1);
    GainedTarget(TargetsOf(dsts));
  }

  lemma GainedTarget(t: Targets)
    requires t.dst == ["a"] && t.dstPorts == map["a" := "1,2"] && t.ports == Shared(t.dstPorts)
    ensures Rebuild(t) == ["a:1,2"]
  {
    hide ParsePorts, Trim, IsNormal, Denotes, Split, MergePorts, Shared;
    OneTwo();
    NormalParses("1,2");
    OneShared("a", "1,2");
    assert SpecFor(t, "a") == "1,2" && Norm("1,2") == "1,2";
    assert JoinDst("a", "1,2") == "a:1,2";
  }

  lemma OneShared(sel: string, spec: string)
    ensures Shared(map[sel := spec]) == spec
  {
    var specs := map[sel := spec];
    assert sel in specs && SameSpecs(specs);
  }

  lemma GainingDestinations()
    ensures SplitDst("a:1,1") == Dst("a", "1,1", true) && SplitDst("a:2") == Dst("a", "2", false)
    ensures SplitDst("a:1,2") == Dst("a", "1,2", false) && !Denotes("2", 1)
  {
    hide ParsePorts, SplitDst, Denotes;
    TwiceIsRefused();
    TwoIsNormal();
    OneTwo();
    SplitAtLastColon("a", "1,1");
    SplitAtLastColon("a", "2");
    SplitAtLastColon("a", "1,2");
    assert JoinDst("a", "1,1") == "a:1,1" && JoinDst("a", "2") == "a:2" && JoinDst("a", "1,2") == "a:1,2";
    OnlyTwo();
  }

  lemma OnlyTwo()
    ensures !Denotes("2", 1)
  {
    hide ParsePorts, Split, Denotes, NormalPart;
    TwoIsNormal();
    NormalRangeIsPart(2, 2);
    assert NormalRange(2, 2) == "2" && Join(["2"], ',') == "2";
    ListDenotes(["2"], 1);
  }
}

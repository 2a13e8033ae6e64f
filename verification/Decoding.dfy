/** The loops that read a document (internal/aclmodel/model.go, validate.go) against the decoding functions. */
module Decoding {
  import opened Base
  import opened Text
  import opened Tree
  import opened AclModel
  import opened CanonicalJson

  /** The same outcome; error wording aside. */
  ghost predicate Agree<T>(a: Result<T>, b: Result<T>) { a.Ok? == b.Ok? && (a.Ok? ==> a == b) }

  // ---- sections by key ----

  lemma {:induction false} ScanFails(ms: seq<Member>, i: nat)
    requires i <= |ms| && ScanKeys(ms[..i]).Err?
    ensures ScanKeys(ms).Err?
    decreases |ms| - i
  {
    if i == |ms| {
      assert ms[..i] == ms;
    } else {
      assert ms[..i + 1][..i] == ms[..i];
      ScanFails(ms, i + 1);
    }
  }

  method ScanKeysLoop(ms: seq<Member>) returns (r: Result<Keys>)
    ensures Agree(r, ScanKeys(ms))
  {
    hide SectionOf, IsMetadata;
    var names: map<Section, string> := map[];
    var other: seq<string> := [];
    for i := 0 to |ms|
      invariant ScanKeys(ms[..i]) == Ok(Keys(names, other))
    {
      assert ms[..i + 1][..i] == ms[..i];
      var key := ms[i].name;
      if !IsMetadata(key) {
        var section := SectionOf(key);
        if section.None? {
          other := other + [key];
        } else if section.value in names {
          ScanFails(ms, i + 1);
          return Err("section appears twice");
        } else {
          names := names[section.value := key];
        }
      }
    }
    assert ms[..|ms|] == ms;
    r := Ok(Keys(names, other));
  }

  // ---- maps and lists ----

  method DecodeMapLoop<T>(j: Json, read: Json -> Option<T>) returns (r: Result<map<string, T>>)
    ensures Agree(r, DecodeMap(j, read))
  {
    if j.JNull? { return Ok(map[]); }
    if !j.JObj? { return Err("not an object"); }
    var members := View(j.members);
    var out: map<string, T> := map[];
    var rest := members.Keys;
    while rest != {}
      invariant rest <= members.Keys
      invariant forall k | k in members && k !in rest && !IsMetadata(k) :: read(members[k]).Some?
      invariant out == map k | k in members && k !in rest && !IsMetadata(k) :: read(members[k]).value
      decreases |rest|
    {
      var k :| k in rest;
      rest := rest - {k};
      if !IsMetadata(k) {
        var v := read(members[k]);
        if v.None? { return Err("an entry has the wrong shape"); }
        out := out[k := v.value];
      }
    }
    assert DecodeMap(j, read).Ok?;
    assert out == DecodeMap(j, read).value;
    r := Ok(out);
  }

  lemma {:induction false} EachFails<T>(items: seq<Json>, decode: Json -> Result<T>, i: nat)
    requires i <= |items| && DecodeEach(items[..i], decode).Err?
    ensures DecodeEach(items, decode).Err?
    decreases |items| - i
  {
    if i == |items| {
      assert items[..i] == items;
    } else {
      assert items[..i + 1][..i] == items[..i];
      EachFails(items, decode, i + 1);
    }
  }

  method DecodeEachLoop<T>(items: seq<Json>, decode: Json -> Result<T>) returns (r: Result<seq<T>>)
    ensures Agree(r, DecodeEach(items, decode))
  {
    var out: seq<T> := [];
    for i := 0 to |items|
      invariant DecodeEach(items[..i], decode) == Ok(out)
    {
      assert items[..i + 1][..i] == items[..i];
      var x := decode(items[i]);
      if x.Err? {
        EachFails(items, decode, i + 1);
        return Err(x.reason);
      }
      out := out + [x.value];
    }
    assert items[..|items|] == items;
    r := Ok(out);
  }

  method EnabledRulesLoop(rules: seq<InputRule>) returns (out: seq<Rule>)
    ensures out == EnabledRules(rules)
  {
    hide Normalize;
    out := [];
    for i := 0 to |rules|
      invariant out == EnabledRules(rules[..i])
    {
      assert rules[..i + 1][..i] == rules[..i];
      if rules[i].enabled { out := out + [rules[i].AsRule()]; }
    }
    assert rules[..|rules|] == rules;
  }

  method CanonicalListLoop(input: Input, s: Section) returns (r: Result<Option<seq<CVal>>>)
    ensures Agree(r, CanonicalList(input, s))
  {
    hide Canonical, DecodeEach;
    if s !in input.lists { return Ok(None); }
    var items := DecodeEachLoop(input.lists[s], Canonical);
    if items.Err? { return Err(items.reason); }
    r := Ok(Some(items.value));
  }

  method TrimLoop(ss: seq<string>) returns (out: seq<string>)
    ensures out == TrimEach(ss, GoSpace)
  {
    hide Trim;
    out := [];
    for i := 0 to |ss|
      invariant |out| == i && forall k | 0 <= k < i :: out[k] == Trim(ss[k], GoSpace)
    {
      out := out + [Trim(ss[i], GoSpace)];
    }
  }

  method NormalizeLoop(r: Rule) returns (out: Rule)
    ensures out == Normalize(r)
  {
    hide Trim, TrimEach;
    var src := TrimLoop(r.src);
    var dst := TrimLoop(r.dst);
    out := Rule(Lower(Trim(r.action, GoSpace)), Lower(Trim(r.proto, GoSpace)), src, dst);
  }

  // ---- autoApprovers ----

  /** What the keys read so far say about one member. */
  ghost predicate Found(seen: seq<string>, field: string, key: Option<string>) {
    if key.None? then forall k | k in seen :: !EqualFold(k, field)
    else key.value in seen && EqualFold(key.value, field) &&
         forall k | k in seen && EqualFold(k, field) :: k == key.value
  }

  lemma NoneFound(field: string)
    ensures Found([], field, None)
  {
  }

  lemma FoundNext(seen: seq<string>, k: string, field: string, key: Option<string>)
    requires Found(seen, field, key)
    ensures !EqualFold(k, field) ==> Found(seen + [k], field, key)
    ensures EqualFold(k, field) && key.None? ==> Found(seen + [k], field, Some(k))
    ensures key.Some? ==> EqualFold(key.value, field) && key.value in seen
  {
    hide EqualFold;
  }

  lemma FirstIsMember(ks: seq<string>)
    requires ks != [] && Distinct(ks)
    ensures ks[0] in ks && (|ks| == 1 || exists k :: k in ks && k != ks[0])
  {
    if |ks| > 1 { assert ks[1] in ks && ks[1] != ks[0]; }
  }

  lemma KeyIsFound(v: map<string, Json>, field: string, key: Option<string>)
    requires Found(Sorted(v.Keys), field, key)
    ensures ApproverKey(v, field) == Ok(key)
  {
    hide EqualFold, Sorted;
    var ks := Sorted(Spellings(v, field));
    if ks != [] { FirstIsMember(ks); }
    assert key.Some? ==> key.value in ks;
  }

  lemma KeyIsDouble(v: map<string, Json>, field: string, a: string, b: string)
    requires a in v && b in v && a != b && EqualFold(a, field) && EqualFold(b, field)
    ensures ApproverKey(v, field).Err?
  {
    hide EqualFold, Sorted;
    var ks := Sorted(Spellings(v, field));
    assert a in ks && b in ks;
  }

  lemma KeyIsOnly(v: map<string, Json>, field: string, k: string)
    requires k in v && EqualFold(k, field)
    ensures ApproverKey(v, field).Err? || ApproverKey(v, field) == Ok(Some(k))
  {
    hide EqualFold, Sorted;
    var ks := Sorted(Spellings(v, field));
    assert k in ks;
  }

  /** The value of one member, decoded when it is there and not null. */
  function FieldOf<T>(v: map<string, Json>, key: Option<string>, decode: Json -> Result<T>): Result<Option<T>>
    requires key.Some? ==> key.value in v
  {
    DecodeSection(if key.Some? then Present(v, key.value) else None, decode)
  }

  function DecodeStrings(j: Json): Result<seq<string>> {
    var list := ReadStrings(j);
    if list.None? then Err("not a list of strings") else Ok(list.value)
  }

  function DecodeListMap(j: Json): Result<ListMap> { DecodeMap(j, ReadStrings) }

  method DecodeApproversLoop(j: Json) returns (r: Result<Approvers>)
    ensures Agree(r, DecodeApprovers(j))
  {
    hide EqualFold, IsMetadata, Sorted, DecodeMap, ReadStrings, View, Found, ApproverKey;
    if !j.JObj? { return Err("not an object"); }
    var v := View(j.members);
    var ks := Sorted(v.Keys);
    var routesKey: Option<string>, exitKey: Option<string> := None, None;
    var routes: Option<ListMap>, exitNode: Option<seq<string>> := None, None;
    NoneFound("routes");
    NoneFound("exitNode");
    assert ks[..0] == [];
    for i := 0 to |ks|
      invariant Found(ks[..i], "routes", routesKey) && Found(ks[..i], "exitNode", exitKey)
      invariant forall k | k in ks[..i] :: IsMetadata(k) || EqualFold(k, "routes") || EqualFold(k, "exitNode")
      invariant routesKey.Some? ==> routesKey.value in v
      invariant exitKey.Some? ==> exitKey.value in v
      invariant FieldOf(v, routesKey, DecodeListMap) == Ok(routes)
      invariant FieldOf(v, exitKey, DecodeStrings) == Ok(exitNode)
    {
      var k := ks[i];
      assert k in ks && ks[..i + 1] == ks[..i] + [k];
      MemberKinds(k);
      FoundNext(ks[..i], k, "routes", routesKey);
      FoundNext(ks[..i], k, "exitNode", exitKey);
      if IsMetadata(k) {
      } else if EqualFold(k, "routes") {
        if routesKey.Some? {
          assert k !in ks[..i];
          KeyIsDouble(v, "routes", k, routesKey.value);
          return Err("appears twice");
        }
        routesKey := Some(k);
        if !v[k].JNull? {
          var m := DecodeMapLoop(v[k], ReadStrings);
          if m.Err? {
            KeyIsOnly(v, "routes", k);
            return Err(m.reason);
          }
          routes := Some(m.value);
        }
      } else if EqualFold(k, "exitNode") {
        if exitKey.Some? {
          assert k !in ks[..i];
          KeyIsDouble(v, "exitNode", k, exitKey.value);
          return Err("appears twice");
        }
        exitKey := Some(k);
        if !v[k].JNull? {
          var list := ReadStrings(v[k]);
          if list.None? {
            KeyIsOnly(v, "exitNode", k);
            return Err("must be a list of strings");
          }
          exitNode := Some(list.value);
        }
      } else {
        return Err("unknown key");
      }
    }
    assert ks[..|ks|] == ks;
    KeyIsFound(v, "routes", routesKey);
    KeyIsFound(v, "exitNode", exitKey);
    r := Ok(Approvers(routesKey, exitKey, routes, exitNode));
  }

  /** A metadata name, "routes" and "exitNode" fold apart. */
  lemma MemberKinds(k: string)
    ensures EqualFold(k, "routes") ==> !IsMetadata(k) && !EqualFold(k, "exitNode")
    ensures EqualFold(k, "exitNode") ==> !IsMetadata(k)
  {
    assert |Fold("routes")| == 6 && |Fold("exitNode")| == 8 && |Fold(k)| == |k|;
    assert Fold("routes")[0] == 'r' && Fold("exitNode")[0] == 'e';
    if k != "" { assert Fold(k)[0] == FoldChar(k[0]); }
  }

  // ---- the document ----

  method MapSectionLoop<T>(j: Option<Json>, read: Json -> Option<T>) returns (r: Result<Option<map<string, T>>>)
    ensures Agree(r, DecodeSection(j, x => DecodeMap(x, read)))
  {
    hide DecodeMap;
    if j.None? { return Ok(None); }
    var m := DecodeMapLoop(j.value, read);
    if m.Err? { return Err(m.reason); }
    r := Ok(Some(m.value));
  }

  method ArraySectionLoop<T>(j: Option<Json>, decode: Json -> Result<T>) returns (r: Result<Option<seq<T>>>)
    ensures Agree(r, DecodeSection(j, x => DecodeArray(x, decode)))
  {
    hide DecodeEach;
    if j.None? { return Ok(None); }
    if !j.value.JArr? { return Err("not an array"); }
    var items := DecodeEachLoop(j.value.items, decode);
    if items.Err? { return Err(items.reason); }
    r := Ok(Some(items.value));
  }

  method ApproversSectionLoop(j: Option<Json>) returns (r: Result<Option<Approvers>>)
    ensures Agree(r, DecodeSection(j, DecodeApprovers))
  {
    hide DecodeApprovers;
    if j.None? { return Ok(None); }
    var a := DecodeApproversLoop(j.value);
    if a.Err? { return Err(a.reason); }
    r := Ok(Some(a.value));
  }

  lemma {:induction false} ListsFail(top: map<string, Json>, keys: Keys, sections: seq<Section>, i: nat)
    requires i <= |sections| && DecodeLists(top, keys, sections[..i]).Err?
    ensures DecodeLists(top, keys, sections).Err?
    decreases |sections| - i
  {
    if i == |sections| {
      assert sections[..i] == sections;
    } else {
      assert sections[..i + 1][..i] == sections[..i];
      ListsFail(top, keys, sections, i + 1);
    }
  }

  method DecodeListsLoop(top: map<string, Json>, keys: Keys, sections: seq<Section>)
      returns (r: Result<map<Section, seq<CVal>>>)
    ensures Agree(r, DecodeLists(top, keys, sections))
  {
    hide DecodeArray, Canonical, Present, DecodeSection, Keys.Of;
    var out: map<Section, seq<CVal>> := map[];
    for i := 0 to |sections|
      invariant DecodeLists(top, keys, sections[..i]) == Ok(out)
    {
      assert sections[..i + 1][..i] == sections[..i];
      var s := sections[i];
      var items := ArraySectionLoop(Present(top, keys.Of(s)), Canonical);
      if items.Err? {
        ListsFail(top, keys, sections, i + 1);
        return Err(items.reason);
      }
      if items.value.Some? { out := out[s := items.value.value]; }
    }
    assert sections[..|sections|] == sections;
    r := Ok(out);
  }

  method ParseDocumentLoop(root: Node) returns (r: Result<Document>)
    ensures Agree(r, ParseDocument(root))
  {
    hide ScanKeys, DecodeMap, DecodeArray, DecodeRule, DecodeLists, DecodeApprovers, DecodeBool, Present,
         DecodeSection, View, StdMembers, Keys.Of;
    if !root.value.Obj? { return Err("policy root must be a JSON object"); }
    var scanned := ScanKeysLoop(root.value.members);
    if scanned.Err? { return Err(scanned.reason); }
    var keys := scanned.value;
    var top := View(StdMembers(root.value.members));
    var groups := MapSectionLoop(Present(top, keys.Of(Groups)), ReadStrings);
    if groups.Err? { return Err(groups.reason); }
    var tagOwners := MapSectionLoop(Present(top, keys.Of(TagOwners)), ReadStrings);
    if tagOwners.Err? { return Err(tagOwners.reason); }
    var hosts := MapSectionLoop(Present(top, keys.Of(Hosts)), ReadString);
    if hosts.Err? { return Err(hosts.reason); }
    var acls := ArraySectionLoop(Present(top, keys.Of(Acls)), DecodeRule);
    if acls.Err? { return Err(acls.reason); }
    var lists := DecodeListsLoop(top, keys, LIST_SECTIONS);
    if lists.Err? { return Err(lists.reason); }
    var approvers := ApproversSectionLoop(Present(top, keys.Of(AutoApprovers)));
    if approvers.Err? { return Err(approvers.reason); }
    var randomize := DecodeSection(Present(top, keys.Of(RandomizeClientPort)), DecodeBool);
    if randomize.Err? { return Err(randomize.reason); }
    r := Ok(Document(root, keys,
      Model(groups.value, tagOwners.value, hosts.value, acls.value, lists.value, approvers.value, randomize.value)));
  }
}

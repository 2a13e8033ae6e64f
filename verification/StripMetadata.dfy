/** Dropping "#" members at every level (internal/hsclient/hstest/fake.go), as headscale does before it
    decodes a policy. */
module StripMetadata {
  import opened Base
  import opened Text
  import opened Tree
  import opened AclModel
  import opened CanonicalJson

  function Strip(j: Json): Json {
    match j
    case JArr(items) => JArr(seq(|items|, i requires 0 <= i < |items| => Strip(items[i])))
    case JObj(ms) => JObj(StripMembers(ms))
    case _ => j
  }

  function StripMembers(ms: seq<(string, Json)>): seq<(string, Json)> {
    if ms == [] then []
    else
      var last := ms[|ms| - 1];
      assert last in ms && last.1 < last;
      StripMembers(ms[..|ms| - 1]) + if IsMetadata(last.0) then [] else [(last.0, Strip(last.1))]
  }

  /** No "#" member at any depth. */
  predicate Stripped(j: Json) {
    match j
    case JArr(items) => forall i | 0 <= i < |items| :: Stripped(items[i])
    case JObj(ms) => forall i | 0 <= i < |ms| :: (var m := ms[i]; assert m in ms; !IsMetadata(m.0) && Stripped(m.1))
    case _ => true
  }

  /** Stripping leaves no "#" member, and changes nothing exactly when there was none. */
  lemma {:induction false} StripStrips(j: Json)
    ensures Stripped(Strip(j))
    ensures Strip(j) == j <==> Stripped(j)
    decreases j, 0
  {
    match j {
      case JArr(items) =>
        forall i | 0 <= i < |items|
          ensures Stripped(Strip(items[i])) && (Strip(items[i]) == items[i] <==> Stripped(items[i]))
        {
          StripStrips(items[i]);
        }
        var out := Strip(j).items;
        assert out == items <==> forall i | 0 <= i < |items| :: out[i] == items[i];
      case JObj(ms) => StripStripsMembers(ms);
      case _ =>
    }
  }

  lemma {:induction false} StripStripsMembers(ms: seq<(string, Json)>)
    ensures Stripped(JObj(StripMembers(ms))) && |StripMembers(ms)| <= |ms|
    ensures StripMembers(ms) == ms <==> Stripped(JObj(ms))
    decreases ms, 1
  {
    if ms != [] {
      var init, last := ms[..|ms| - 1], ms[|ms| - 1];
      assert last in ms && last.1 < last && ms == init + [last];
      StripStripsMembers(init);
      StripStrips(last.1);
      assert StripMembers(ms) == ms ==> StripMembers(init) == init && !IsMetadata(last.0) && Strip(last.1) == last.1
             by {
        if StripMembers(ms) == ms {
          assert StripMembers(ms)[..|init|] == init;
        }
      }
    }
  }

  // ---- what decoding sees ----

  lemma {:induction false} ViewOfStripped(ms: seq<(string, Json)>)
    ensures View(StripMembers(ms)) == map k | k in View(ms) && !IsMetadata(k) :: Strip(View(ms)[k])
  {
    hide Strip, IsMetadata, View;
    if ms == [] {
      EmptyView<Json>();
    } else {
      var init, last := ms[..|ms| - 1], ms[|ms| - 1];
      ViewOfStripped(init);
      var before := StripMembers(init);
      assert ms == init + [last] && before + [] == before;
      ViewStep(init, last);
      ViewStep(before, (last.0, Strip(last.1)));
    }
  }

  lemma ReadsAlike(j: Json)
    ensures ReadString(Strip(j)) == ReadString(j) && ReadStrings(Strip(j)) == ReadStrings(j)
    ensures Strip(j).JNull? <==> j.JNull?
  {
    if j.JArr? {
      var out := Strip(j).items;
      forall i | 0 <= i < |j.items| ensures ReadString(out[i]) == ReadString(j.items[i]) {
        assert out[i] == Strip(j.items[i]);
      }
      assert forall i | 0 <= i < |out| :: out[i] in out && j.items[i] in j.items;
      if ReadStrings(j).Some? {
        assert forall x | x in out :: ReadString(x).Some?;
        assert ReadStrings(Strip(j)).value == ReadStrings(j).value;
      } else {
        var x :| x in j.items && ReadString(x).None?;
        var i :| 0 <= i < |j.items| && j.items[i] == x;
        assert ReadString(out[i]).None?;
      }
    }
  }

  lemma MapDecodesAlike<T>(j: Json, read: Json -> Option<T>)
    requires forall x :: read(Strip(x)) == read(x)
    ensures DecodeMap(Strip(j), read) == DecodeMap(j, read)
  {
    hide Strip, View, IsMetadata;
    StripShape(j);
    if j.JObj? {
      ViewOfStripped(j.members);
      var v, w := View(j.members), View(StripMembers(j.members));
      if DecodeMap(j, read).Ok? {
        assert DecodeMap(Strip(j), read).value == DecodeMap(j, read).value;
      }
    }
  }

  lemma StripShape(j: Json)
    ensures j.JObj? ==> Strip(j) == JObj(StripMembers(j.members))
    ensures j.JArr? ==>
              Strip(j).JArr? && |Strip(j).items| == |j.items| &&
              forall i | 0 <= i < |j.items| :: Strip(j).items[i] == Strip(j.items[i])
    ensures !j.JObj? && !j.JArr? ==> Strip(j) == j
  {
  }

  lemma {:induction false} RuleDecodesAlike(j: Json)
    ensures DecodeRule(Strip(j)) == DecodeRule(j)
  {
    hide Strip, View, IsMetadata, RuleMemberOk, Sorted, StringField, ListField, EqualFold;
    StripShape(j);
    if j.JObj? {
      ViewOfStripped(j.members);
      var all := View(j.members);
      var v := map k | k in all && !IsMetadata(k) :: all[k];
      var w := View(StripMembers(j.members));
      assert (map k | k in w && !IsMetadata(k) :: w[k]) == w;
      forall k | k in v ensures RuleMemberOk(k, w[k]) <==> RuleMemberOk(k, v[k]) { MemberAlike(k, v[k]); }
      forall field: string ensures Spellings(w, field) == Spellings(v, field) { }
      FieldsAlike(v, w, Sorted(Spellings(v, "action")));
      FieldsAlike(v, w, Sorted(Spellings(v, "proto")));
      FieldsAlike(v, w, Sorted(Spellings(v, "src")));
      FieldsAlike(v, w, Sorted(Spellings(v, "dst")));
    }
  }

  lemma MemberAlike(k: string, j: Json)
    ensures RuleMemberOk(k, Strip(j)) <==> RuleMemberOk(k, j)
  {
    ReadsAlike(j);
  }

  lemma {:induction false} FieldsAlike(v: map<string, Json>, w: map<string, Json>, ks: seq<string>)
    requires forall k | k in ks :: k in v && k in w && w[k] == Strip(v[k])
    ensures StringField(w, ks) == StringField(v, ks) && ListField(w, ks) == ListField(v, ks)
  {
    hide Strip, ReadStrings;
    if ks != [] {
      var last := ks[|ks| - 1];
      assert last in ks && forall k | k in ks[..|ks| - 1] :: k in ks;
      ReadsAlike(v[last]);
      StripShape(v[last]);
      FieldsAlike(v, w, ks[..|ks| - 1]);
    }
  }

  lemma {:induction false} ApproversDecodeAlike(j: Json)
    ensures DecodeApprovers(Strip(j)) == DecodeApprovers(j)
  {
    hide Strip, View, IsMetadata, Sorted, EqualFold, ReadStrings, DecodeMap;
    StripShape(j);
    if j.JObj? {
      ViewOfStripped(j.members);
      var v, w := View(j.members), View(StripMembers(j.members));
      KeyAlike(v, w, "routes");
      KeyAlike(v, w, "exitNode");
      forall k | k in w
        ensures ReadStrings(w[k]) == ReadStrings(v[k]) && (w[k].JNull? <==> v[k].JNull?)
        ensures DecodeMap(w[k], ReadStrings) == DecodeMap(v[k], ReadStrings)
      {
        ReadsAlike(v[k]);
        forall x ensures ReadStrings(Strip(x)) == ReadStrings(x) { ReadsAlike(x); }
        MapDecodesAlike(v[k], ReadStrings);
      }
    }
  }

  lemma KeyAlike(v: map<string, Json>, w: map<string, Json>, field: string)
    requires field == "routes" || field == "exitNode"
    requires forall k :: k in w <==> k in v && !IsMetadata(k)
    ensures ApproverKey(w, field) == ApproverKey(v, field)
    ensures var key := ApproverKey(v, field); key.Ok? && key.value.Some? ==> key.value.value in w
  {
    hide Sorted;
    forall k | EqualFold(k, field) ensures !IsMetadata(k) {
      assert |Fold(k)| == |Fold(field)| && Fold(k)[0] == FoldChar(k[0]) && Fold(field)[0] == field[0];
    }
    assert Spellings(w, field) == Spellings(v, field);
    var ks := Sorted(Spellings(v, field));
    assert ks != [] ==> ks[0] in ks;
  }

  lemma {:induction false} RulesDecodeAlike(items: seq<Json>, out: seq<Json>)
    requires |out| == |items| && forall i | 0 <= i < |items| :: out[i] == Strip(items[i])
    ensures DecodeEach(out, DecodeRule) == DecodeEach(items, DecodeRule)
  {
    hide Strip, DecodeRule;
    if items != [] {
      RulesDecodeAlike(items[..|items| - 1], out[..|out| - 1]);
      RuleDecodesAlike(items[|items| - 1]);
    }
  }

  /** The editor, which skips "#" members as it decodes, and a reader that strips them first read the same
      groups, tag owners, hosts, rules, approvers and port switch. */
  lemma StrippedReadsAlike(ms: seq<(string, Json)>, key: string)
    requires !IsMetadata(key)
    ensures var mine, theirs := Present(View(ms), key), Present(View(StripMembers(ms)), key);
            DecodeSection(theirs, j => DecodeMap(j, ReadStrings)) ==
              DecodeSection(mine, j => DecodeMap(j, ReadStrings)) &&
            DecodeSection(theirs, j => DecodeMap(j, ReadString)) ==
              DecodeSection(mine, j => DecodeMap(j, ReadString)) &&
            DecodeSection(theirs, j => DecodeArray(j, DecodeRule)) ==
              DecodeSection(mine, j => DecodeArray(j, DecodeRule)) &&
            DecodeSection(theirs, DecodeApprovers) == DecodeSection(mine, DecodeApprovers) &&
            DecodeSection(theirs, DecodeBool) == DecodeSection(mine, DecodeBool)
  {
    hide Strip, View, IsMetadata, DecodeMap, DecodeRule, DecodeApprovers, ReadStrings, ReadString, DecodeEach,
         StripMembers;
    ViewOfStripped(ms);
    if key in View(ms) {
      var j := View(ms)[key];
      ReadsAlike(j);
      StripShape(j);
      forall x ensures ReadStrings(Strip(x)) == ReadStrings(x) && ReadString(Strip(x)) == ReadString(x) {
        ReadsAlike(x);
      }
      MapDecodesAlike(j, ReadStrings);
      MapDecodesAlike(j, ReadString);
      if j.JArr? { RulesDecodeAlike(j.items, Strip(j).items); }
      ApproversDecodeAlike(j);
    }
  }

  // ---- list elements ----

  /** A canonical value without its "#" members. */
  function StripVal(c: CVal): CVal
    decreases c
  {
    match c
    case CArr(items) => CArr(seq(|items|, i requires 0 <= i < |items| => StripVal(items[i])))
    case CObj(fields) => CObj(map k | k in fields && !IsMetadata(k) :: StripVal(fields[k]))
    case _ => c
  }

  /** No "#" member at any depth. */
  predicate Clean(c: CVal)
    decreases c
  {
    match c
    case CArr(items) => forall i | 0 <= i < |items| :: Clean(items[i])
    case CObj(fields) => forall k | k in fields :: !IsMetadata(k) && Clean(fields[k])
    case _ => true
  }

  lemma {:induction false} CleanIsStripped(c: CVal)
    ensures StripVal(c) == c <==> Clean(c)
    decreases c
  {
    match c {
      case CArr(items) =>
        forall i | 0 <= i < |items| ensures StripVal(items[i]) == items[i] <==> Clean(items[i]) {
          CleanIsStripped(items[i]);
        }
        var out := StripVal(c).items;
        assert out == items <==> forall i | 0 <= i < |items| :: out[i] == items[i];
      case CObj(fields) =>
        forall k | k in fields ensures StripVal(fields[k]) == fields[k] <==> Clean(fields[k]) {
          CleanIsStripped(fields[k]);
        }
        var out := StripVal(c).fields;
        assert out == fields <==> forall k | k in fields :: k in out && out[k] == fields[k];
      case _ =>
    }
  }

  function CanonPairs(ms: seq<(string, Json)>): (r: seq<(string, CVal)>)
    ensures |r| == |ms| && forall i | 0 <= i < |ms| :: r[i] == (ms[i].0, Canon(ms[i].1))
  {
    seq(|ms|, i requires 0 <= i < |ms| => (ms[i].0, Canon(ms[i].1)))
  }

  lemma CanonOfObject(ms: seq<(string, Json)>)
    ensures Canon(JObj(ms)) == CObj(View(CanonPairs(ms)))
  {
    hide View;
    var j := JObj(ms);
    assert CanonPairs(ms) == seq(|ms|, i requires 0 <= i < |ms| => assert ms[i] < j; (ms[i].0, Canon(ms[i].1)));
  }

  /** Stripping a value strips its canonical form. */
  lemma {:induction false} CanonOfStripped(j: Json)
    ensures Canon(Strip(j)) == StripVal(Canon(j))
    decreases j, 0
  {
    match j {
      case JArr(items) =>
        forall i | 0 <= i < |items| ensures Canon(Strip(items[i])) == StripVal(Canon(items[i])) {
          CanonOfStripped(items[i]);
        }
        assert Canon(Strip(j)).items == StripVal(Canon(j)).items;
      case JObj(ms) =>
        CanonOfObject(ms);
        CanonOfObject(StripMembers(ms));
        CanonOfStrippedMembers(ms);
      case _ =>
    }
  }

  lemma {:induction false} CanonOfStrippedMembers(ms: seq<(string, Json)>)
    ensures View(CanonPairs(StripMembers(ms))) ==
            map k | k in View(CanonPairs(ms)) && !IsMetadata(k) :: StripVal(View(CanonPairs(ms))[k])
    decreases ms, 1
  {
    hide IsMetadata, View, Canon, Strip, StripVal;
    if ms == [] {
      EmptyView<CVal>();
      assert CanonPairs([]) == [];
    } else {
      var init, last := ms[..|ms| - 1], ms[|ms| - 1];
      assert last in ms && last.1 < last && ms == init + [last];
      CanonOfStrippedMembers(init);
      CanonOfStripped(last.1);
      var before := StripMembers(init);
      assert before + [] == before;
      assert CanonPairs(ms) == CanonPairs(init) + [(last.0, Canon(last.1))];
      ViewStep(CanonPairs(init), (last.0, Canon(last.1)));
      assert CanonPairs(before + [(last.0, Strip(last.1))]) == CanonPairs(before) + [(last.0, Canon(Strip(last.1)))];
      ViewStep(CanonPairs(before), (last.0, Canon(Strip(last.1))));
    }
  }

  /** An element of a list section, which the editor keeps whole, reads alike exactly when its canonical form has
      no "#" member at any depth. */
  lemma ElementReadsAlike(j: Json)
    requires j.JObj?
    ensures Canonical(Strip(j)) == Canonical(j) <==> Clean(Canon(j))
  {
    hide Canon, StripVal, Clean, StripMembers;
    CanonOfStripped(j);
    CleanIsStripped(Canon(j));
  }

  /** The five list sections read alike exactly when no element has a "#" member at any depth. */
  lemma {:induction false} ListReadsAlike(items: seq<Json>, out: seq<Json>)
    requires |out| == |items| && forall i | 0 <= i < |items| :: out[i] == Strip(items[i])
    ensures DecodeEach(out, Canonical).Ok? <==> DecodeEach(items, Canonical).Ok?
    ensures DecodeEach(items, Canonical).Ok? ==>
              (DecodeEach(out, Canonical) == DecodeEach(items, Canonical) <==>
               forall c | c in DecodeEach(items, Canonical).value :: Clean(c))
  {
    hide Strip, Canon, Clean;
    if items != [] {
      var n := |items| - 1;
      ListReadsAlike(items[..n], out[..n]);
      StripShape(items[n]);
      if items[n].JObj? { ElementReadsAlike(items[n]); }
      var x, y := DecodeEach(items[..n], Canonical), DecodeEach(out[..n], Canonical);
      if x.Ok? && items[n].JObj? {
        SameLength(out[..n], items[..n]);
        assert x.value + [Canon(items[n])] == y.value + [Canon(out[n])] <==>
               x.value == y.value && Canon(items[n]) == Canon(out[n]) by {
          AppendsAlike(x.value, y.value, Canon(items[n]), Canon(out[n]));
        }
      }
    }
  }

  lemma AppendsAlike(x: seq<CVal>, y: seq<CVal>, a: CVal, b: CVal)
    requires |x| == |y|
    ensures x + [a] == y + [b] <==> x == y && a == b
  {
    if x + [a] == y + [b] {
      assert (x + [a])[..|x|] == x && (y + [b])[..|y|] == y && (x + [a])[|x|] == a && (y + [b])[|y|] == b;
    }
  }

  lemma {:induction false} SameLength(a: seq<Json>, b: seq<Json>)
    requires |a| == |b|
    ensures DecodeEach(a, Canonical).Ok? ==> |DecodeEach(a, Canonical).value| == |a|
    ensures DecodeEach(b, Canonical).Ok? ==> |DecodeEach(b, Canonical).value| == |b|
  {
    if a != [] { SameLength(a[..|a| - 1], b[..|b| - 1]); }
  }
}

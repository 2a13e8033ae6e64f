/** What a document holds for a section (internal/aclmodel/model.go).
    A section's slot is the member whose name folds to the section's; the predicates here say what a slot holds
    for a given model field, and the lemmas tie that to what parsing reads. */
module Slots {
  import opened Base
  import opened Text
  import opened Tree
  import opened Names
  import opened AclModel
  import opened CanonicalJson
  import opened SectionRuns
  import opened ApproverRuns

  /** The first member that spells a section. */
  function FirstOf(ms: seq<Member>, s: Section): (r: Option<Member>)
    ensures r.Some? ==> r.value in ms && SectionOf(r.value.name) == Some(s)
    ensures r.None? ==> forall m | m in ms :: SectionOf(m.name) != Some(s)
  {
    if ms == [] then None
    else if SectionOf(ms[0].name) == Some(s) then Some(ms[0])
    else FirstOf(ms[1..], s)
  }

  function KeyOf(ms: seq<Member>, s: Section): string {
    match FirstOf(ms, s)
    case None => Name(s)
    case Some(m) => m.name
  }

  /** No section is spelled twice. */
  ghost predicate OneSpelling(ms: seq<Member>) {
    forall i, j | 0 <= i < j < |ms| :: SectionOf(ms[i].name).None? || SectionOf(ms[i].name) != SectionOf(ms[j].name)
  }

  lemma {:induction false} FirstOfAppend(ms: seq<Member>, m: Member, s: Section)
    ensures FirstOf(ms + [m], s) ==
            if FirstOf(ms, s).Some? then FirstOf(ms, s) else if SectionOf(m.name) == Some(s) then Some(m) else None
  {
    hide SectionOf;
    if ms != [] {
      assert (ms + [m])[1..] == ms[1..] + [m] && (ms + [m])[0] == ms[0];
      FirstOfAppend(ms[1..], m, s);
    }
  }

  lemma {:induction false} ScanKeysFinds(ms: seq<Member>)
    ensures ScanKeys(ms).Ok? <==> OneSpelling(ms)
    ensures ScanKeys(ms).Ok? ==> forall s :: s in ScanKeys(ms).value.names <==> FirstOf(ms, s).Some?
    ensures ScanKeys(ms).Ok? ==> forall s | FirstOf(ms, s).Some? ::
            ScanKeys(ms).value.names[s] == FirstOf(ms, s).value.name
  {
    hide SectionOf, IsMetadata, FirstOf, OneSpelling;
    if ms != [] {
      var init, m := ms[..|ms| - 1], ms[|ms| - 1];
      assert ms == init + [m];
      ScanKeysFinds(init);
      forall s
        ensures FirstOf(ms, s) ==
                if FirstOf(init, s).Some? then FirstOf(init, s)
                else if SectionOf(m.name) == Some(s) then Some(m) else None
      {
        FirstOfAppend(init, m, s);
      }
      OneSpellingAppend(init, m);
      if IsMetadata(m.name) { MetadataHasNoSection(m.name); }
    } else {
      NothingSpelled();
    }
  }

  lemma NothingSpelled()
    ensures OneSpelling([]) && forall s :: FirstOf([], s).None?
  {
  }

  /** Scanning the keys succeeds exactly when no section is spelled twice, and records each spelling. */
  lemma ScanKeysIsKeyOf(ms: seq<Member>)
    ensures ScanKeys(ms).Ok? <==> OneSpelling(ms)
    ensures ScanKeys(ms).Ok? ==> forall s :: ScanKeys(ms).value.Of(s) == KeyOf(ms, s)
  {
    ScanKeysFinds(ms);
  }

  lemma MetadataHasNoSection(key: string)
    requires IsMetadata(key)
    ensures SectionOf(key).None?
  {
    if SectionOf(key).Some? { SectionOfIsFold(key, SectionOf(key).value); }
  }

  lemma OneSpellingAppend(ms: seq<Member>, m: Member)
    ensures OneSpelling(ms + [m]) <==>
            OneSpelling(ms) && (SectionOf(m.name).None? || FirstOf(ms, SectionOf(m.name).value).None?)
  {
    hide SectionOf;
    var all := ms + [m];
    assert forall i | 0 <= i < |ms| :: all[i] == ms[i];
    assert all[|ms|] == m;
    if OneSpelling(all) {
      forall i, j | 0 <= i < j < |ms|
        ensures SectionOf(ms[i].name).None? || SectionOf(ms[i].name) != SectionOf(ms[j].name)
      {
        assert all[i] == ms[i] && all[j] == ms[j];
      }
      forall i | 0 <= i < |ms| ensures SectionOf(ms[i].name).None? || SectionOf(ms[i].name) != SectionOf(m.name) {
        assert all[i] == ms[i];
      }
    }
  }

  /** A section's member is the one its key names. */
  lemma {:induction false} KeyNamesSlot(ms: seq<Member>, s: Section)
    requires OneSpelling(ms)
    ensures SectionOf(KeyOf(ms, s)) == Some(s)
    ensures MemberOf(ms, KeyOf(ms, s)) == match FirstOf(ms, s) case None => None case Some(m) => Some(m.node)
    ensures forall i, j | 0 <= i < |ms| && 0 <= j < |ms| && ms[i].name == ms[j].name == KeyOf(ms, s) :: i == j
  {
    hide SectionOf, FirstOf, Name, Index;
    SectionOfIsFold(Name(s), s);
    match FirstOf(ms, s)
    case None =>
      assert forall i | 0 <= i < |ms| :: ms[i] in ms;
    case Some(m) =>
      var i :| 0 <= i < |ms| && ms[i] == m;
      var j := Index(ms, m.name).value;
      assert SectionOf(ms[j].name) == SectionOf(ms[i].name);
  }

  /** What parsing finds under a section's key is that member's value. */
  lemma PresentIsSlot(ms: seq<Member>, s: Section)
    requires OneSpelling(ms)
    ensures var slot := MemberOf(ms, KeyOf(ms, s));
            Present(View(StdMembers(ms)), KeyOf(ms, s)) == if Missing(slot) then None else Some(Std(slot.value))
  {
    hide SectionOf, View, Std, FirstOf;
    var k := KeyOf(ms, s);
    KeyNamesSlot(ms, s);
    var js := StdMembers(ms);
    ViewKeys(js);
    if Index(ms, k).Some? {
      var i := Index(ms, k).value;
      assert js[i].0 in View(js);
      var j :| 0 <= j < |js| && js[j].0 == k && js[j].1 == View(js)[k];
      assert ms[j].name == k;
      NullIsNull(ms[i].node);
    } else {
      assert forall j | 0 <= j < |js| :: js[j].0 == ms[j].name;
    }
  }

  // ---- sections a model describes ----

  ghost predicate RulesSlot(slot: Option<Node>, rules: Option<seq<Rule>>) {
    if rules.None? then Missing(slot)
    else slot.Some? && !slot.value.value.Null? && DecodeArray(Std(slot.value), DecodeRule) == Ok(rules.value)
  }

  ghost predicate FlagSlot(slot: Option<Node>, flag: Option<bool>) {
    if flag.None? then Missing(slot) else slot.Some? && slot.value.value == Bool(flag.value)
  }

  /** The document's member for section s holds what the model says. */
  ghost predicate Fits(ms: seq<Member>, m: Model, s: Section) {
    var slot := MemberOf(ms, KeyOf(ms, s));
    match s
    case Groups => MapSlot(slot, m.groups, ReadStrings)
    case TagOwners => MapSlot(slot, m.tagOwners, ReadStrings)
    case Hosts => MapSlot(slot, m.hosts, ReadString)
    case Acls => RulesSlot(slot, m.acls)
    case AutoApprovers => ApproverSlot(slot, m.approvers)
    case RandomizeClientPort => FlagSlot(slot, m.randomize)
    case _ => SeqSlot(slot, Lookup(m.lists, s), Canonical)
  }

  predicate DistinctNames(ms: seq<(string, Json)>) {
    forall i, j | 0 <= i < j < |ms| :: ms[i].0 != ms[j].0
  }

  /** Names are unique in a section that is read as a map, and in the routes of autoApprovers. */
  predicate EntryUnique(name: string, j: Json) {
    j.JObj? && SectionOf(name) in {Some(Groups), Some(TagOwners), Some(Hosts), Some(AutoApprovers)} ==>
      && DistinctNames(j.members)
      && (SectionOf(name) == Some(AutoApprovers) ==>
            forall m | m in j.members && EqualFold(m.0, "routes") && m.1.JObj? :: DistinctNames(m.1.members))
  }

  /** Names are unique within the objects that are read as maps. */
  predicate UniqueEntries(root: Node) {
    Std(root).JObj? ==> forall m | m in Std(root).members :: EntryUnique(m.0, m.1)
  }

  /** The same for one section's member. */
  ghost predicate SectionApart(slot: Option<Node>, s: Section) {
    match s
    case Groups => Apart(slot)
    case TagOwners => Apart(slot)
    case Hosts => Apart(slot)
    case AutoApprovers => ApproversApart(slot)
    case _ => true
  }

  lemma NamesByStd(n: Node)
    requires n.value.Obj?
    ensures Std(n).JObj? && (UniqueNames(n.value.members) <==> DistinctNames(Std(n).members))
  {
    StdOfComposite(n);
    var ms, js := n.value.members, StdMembers(n.value.members);
    if DistinctNames(js) {
      forall i, j | 0 <= i < j < |ms| ensures ms[i].name != ms[j].name { assert js[i].0 != js[j].0; }
    }
  }

  lemma ObjectByStd(n: Node)
    ensures Std(n).JObj? <==> n.value.Obj?
  {
  }

  lemma ApartByStd(n: Node)
    ensures Apart(Some(n)) <==> (Std(n).JObj? ==> DistinctNames(Std(n).members))
  {
    ObjectByStd(n);
    if n.value.Obj? { NamesByStd(n); }
  }

  /** One member's names, by its node and by its value. */
  lemma EntryApart(name: string, n: Node, s: Section)
    requires SectionOf(name) == Some(s)
    ensures EntryUnique(name, Std(n)) <==> SectionApart(Some(n), s)
  {
    hide SectionOf, Std, EqualFold, UniqueNames, DistinctNames;
    ApartByStd(n);
    ObjectByStd(n);
    if s == AutoApprovers && n.value.Obj? {
      var ms, js := n.value.members, StdMembers(n.value.members);
      StdOfComposite(n);
      forall i | 0 <= i < |ms| ensures Apart(Some(ms[i].node)) <==> (js[i].1.JObj? ==> DistinctNames(js[i].1.members)) {
        ApartByStd(ms[i].node);
      }
      if EntryUnique(name, Std(n)) {
        forall m | m in ms && EqualFold(m.name, "routes") ensures Apart(Some(m.node)) {
          var i :| 0 <= i < |ms| && ms[i] == m;
          assert js[i] in js;
        }
      }
      if SectionApart(Some(n), s) {
        forall m | m in js && EqualFold(m.0, "routes") && m.1.JObj? ensures DistinctNames(m.1.members) {
          var i :| 0 <= i < |js| && js[i] == m;
          assert ms[i] in ms;
        }
      }
    }
  }

  /** Names are unique in the document's map objects exactly when they are in each section's member. */
  lemma UniqueBySection(root: Node)
    requires root.value.Obj? && OneSpelling(root.value.members)
    ensures UniqueEntries(root) <==>
            forall s :: SectionApart(MemberOf(root.value.members, KeyOf(root.value.members, s)), s)
  {
    hide SectionOf, FirstOf, Std, EqualFold, OneSpelling, EntryUnique, SectionApart, KeyOf;
    var ms := root.value.members;
    StdOfComposite(root);
    var js := StdMembers(ms);
    if UniqueEntries(root) {
      forall s ensures SectionApart(MemberOf(ms, KeyOf(ms, s)), s) {
        KeyNamesSlot(ms, s);
        match Index(ms, KeyOf(ms, s))
        case None => NothingApart(s);
        case Some(i) =>
          assert js[i] in js;
          EntryApart(ms[i].name, ms[i].node, s);
      }
    }
    if forall s :: SectionApart(MemberOf(ms, KeyOf(ms, s)), s) {
      forall j | j in js ensures EntryUnique(j.0, j.1) {
        var i :| 0 <= i < |js| && js[i] == j;
        match SectionOf(ms[i].name)
        case None => NoSectionUnique(ms[i].name, Std(ms[i].node));
        case Some(s) =>
          MemberIsSlot(ms, i, s);
          EntryApart(ms[i].name, ms[i].node, s);
      }
    }
  }

  lemma NothingApart(s: Section)
    ensures SectionApart(None, s)
  {
  }

  lemma NoSectionUnique(name: string, j: Json)
    requires SectionOf(name).None?
    ensures EntryUnique(name, j)
  {
  }

  lemma MemberIsSlot(ms: seq<Member>, i: nat, s: Section)
    requires OneSpelling(ms) && i < |ms| && SectionOf(ms[i].name) == Some(s)
    ensures MemberOf(ms, KeyOf(ms, s)) == Some(ms[i].node)
  {
    hide SectionOf;
    KeyNamesSlot(ms, s);
    var m := FirstOf(ms, s);
    assert ms[i] in ms;
    var j :| 0 <= j < |ms| && ms[j] == m.value;
    assert SectionOf(ms[i].name) == SectionOf(ms[j].name);
  }

  lemma {:induction false} DecodeEachElem<T>(items: seq<Json>, decode: Json -> Result<T>)
    ensures DecodeEach(items, decode).Ok? <==> forall i | 0 <= i < |items| :: decode(items[i]).Ok?
    ensures DecodeEach(items, decode).Ok? ==>
              |DecodeEach(items, decode).value| == |items| &&
              forall i | 0 <= i < |items| :: decode(items[i]) == Ok(DecodeEach(items, decode).value[i])
  {
    if items != [] {
      var init, last := items[..|items| - 1], items[|items| - 1];
      DecodeEachElem(init, decode);
      if DecodeEach(items, decode).Ok? {
        forall i | 0 <= i < |items| ensures decode(items[i]) == Ok(DecodeEach(items, decode).value[i]) {
          if i < |init| { assert init[i] == items[i]; }
        }
      } else if DecodeEach(init, decode).Err? {
        var i :| 0 <= i < |init| && !decode(init[i]).Ok?;
        assert init[i] == items[i];
      }
      if forall i | 0 <= i < |items| :: decode(items[i]).Ok? {
        assert forall i | 0 <= i < |init| :: init[i] == items[i];
      }
    }
  }

  /** An array decodes as ids exactly when its elements do. */
  lemma ArraySlot<K>(slot: Option<Node>, ids: seq<K>, read: Json -> Result<K>)
    ensures slot.Some? && DecodeArray(Std(slot.value), read) == Ok(ids) <==> SeqSlot(slot, Some(ids), read)
  {
    if slot.Some? && slot.value.value.Arr? {
      var es := slot.value.value.elems;
      StdOfComposite(slot.value);
      DecodeEachElem(StdElems(es), read);
      if SeqSlot(slot, Some(ids), read) {
        forall i | 0 <= i < |es| ensures read(StdElems(es)[i]) == Ok(ids[i]) {}
        assert DecodeEach(StdElems(es), read).value == ids;
      }
    }
  }

  lemma ListSectionFits(ms: seq<Member>, keys: Keys, s: Section, items: Option<seq<CVal>>)
    requires OneSpelling(ms) && keys.Of(s) == KeyOf(ms, s)
    ensures ListSection(View(StdMembers(ms)), keys, s) == Ok(items) <==>
            SeqSlot(MemberOf(ms, KeyOf(ms, s)), items, Canonical)
  {
    hide View, KeyOf, MemberOf, OneSpelling, Canonical, DecodeArray, StdMembers;
    PresentIsSlot(ms, s);
    var slot := MemberOf(ms, KeyOf(ms, s));
    if items.Some? { ArraySlot(slot, items.value, Canonical); }
    if !Missing(slot) { NullIsNull(slot.value); }
  }

  /** What the list sections decode as is what their members hold. */
  lemma {:induction false} DecodedListsFit(ms: seq<Member>, keys: Keys, sections: seq<Section>)
    requires OneSpelling(ms) && (forall s :: keys.Of(s) == KeyOf(ms, s)) && Distinct(sections)
    requires DecodeLists(View(StdMembers(ms)), keys, sections).Ok?
    ensures var lists := DecodeLists(View(StdMembers(ms)), keys, sections).value;
            (forall s | s in lists :: s in sections) &&
            forall s | s in sections :: SeqSlot(MemberOf(ms, KeyOf(ms, s)), Lookup(lists, s), Canonical)
  {
    hide View, KeyOf, MemberOf, OneSpelling, Canonical, SeqSlot, ListSection, StdMembers;
    if sections != [] {
      var init, s := sections[..|sections| - 1], sections[|sections| - 1];
      assert sections == init + [s] && s !in init;
      DecodedListsFit(ms, keys, init);
      var top := View(StdMembers(ms));
      var before := DecodeLists(top, keys, init).value;
      var lists := DecodeLists(top, keys, sections).value;
      ListSectionFits(ms, keys, s, ListSection(top, keys, s).value);
      assert Lookup(lists, s) == ListSection(top, keys, s).value;
      assert forall t | t in init :: Lookup(lists, t) == Lookup(before, t);
    }
  }

  /** Members that hold given lists decode as those lists. */
  lemma {:induction false} FittingListsDecode(ms: seq<Member>, keys: Keys, sections: seq<Section>,
                                              lists: map<Section, seq<CVal>>)
    requires OneSpelling(ms) && (forall s :: keys.Of(s) == KeyOf(ms, s)) && Distinct(sections)
    requires forall s | s in sections :: SeqSlot(MemberOf(ms, KeyOf(ms, s)), Lookup(lists, s), Canonical)
    ensures DecodeLists(View(StdMembers(ms)), keys, sections) == Ok(map s | s in sections && s in lists :: lists[s])
  {
    hide View, KeyOf, MemberOf, OneSpelling, Canonical, SeqSlot, ListSection, StdMembers;
    if sections != [] {
      var init, s := sections[..|sections| - 1], sections[|sections| - 1];
      assert sections == init + [s] && s !in init;
      FittingListsDecode(ms, keys, init, lists);
      ListSectionFits(ms, keys, s, Lookup(lists, s));
      var before := map t | t in init && t in lists :: lists[t];
      var after := map t | t in sections && t in lists :: lists[t];
      assert after == if s in lists then before[s := lists[s]] else before;
    }
  }
}

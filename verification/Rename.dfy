/** Renaming a group, tag or host through a whole draft (frontend/src/pages/acls/model.ts). */
module Rename {
  import opened Text
  import opened Ports
  import opened CanonicalJson
  import opened Records
  import opened DraftModel

  datatype KeySection = GroupKeys | TagKeys | HostKeys

  function SectionKeys(d: Draft, s: KeySection): seq<string> {
    match s
    case GroupKeys => KeysOf(d.groups)
    case TagKeys => KeysOf(d.tagOwners)
    case HostKeys => KeysOf(d.hosts)
  }

  // ---- renaming ----

  function Swap(xs: seq<string>, from: string, to: string): (r: seq<string>)
    ensures |r| == |xs| && forall i | 0 <= i < |xs| :: r[i] == if xs[i] == from then to else xs[i]
  {
    seq(|xs|, i requires 0 <= i < |xs| => if xs[i] == from then to else xs[i])
  }

  /** A string inside an element: the selector itself, or a destination on it. */
  function RenameText(s: string, from: string, to: string): string {
    if s == from then to
    else
      var d := SplitDst(s);
      if !d.bad && d.selector == from then JoinDst(to, d.ports) else s
  }

  /** `renameInValue`: every string of an element outside members called "app". */
  function RenameValue(v: CVal, from: string, to: string): CVal
    decreases v
  {
    match v
    case CStr(s) => CStr(RenameText(s, from, to))
    case CArr(items) => CArr(seq(|items|, i requires 0 <= i < |items| => RenameValue(items[i], from, to)))
    case CObj(fields) =>
      CObj(map k | k in fields :: if Lower(k) == "app" then fields[k] else RenameValue(fields[k], from, to))
    case _ => v
  }

  const NUL: string := "\0"

  /** `mentions`: renaming the selector away changes the element. */
  predicate Mentions(v: CVal, sel: string) { RenameValue(v, sel, NUL) != v }

  function RenameDst(d: string, from: string, to: string): string {
    var parts := SplitDst(d);
    if parts.selector == from then JoinDst(to, parts.ports) else d
  }

  function RenameRule(r: DraftRule, from: string, to: string): DraftRule {
    r.(text := r.text.(
         src := Swap(r.text.src, from, to),
         dst := seq(|r.text.dst|, i requires 0 <= i < |r.text.dst| => RenameDst(r.text.dst[i], from, to))))
  }

  function RenameRules(rules: seq<DraftRule>, from: string, to: string): (r: seq<DraftRule>)
    ensures |r| == |rules| && forall i | 0 <= i < |r| :: r[i] == RenameRule(rules[i], from, to)
  {
    seq(|rules|, i requires 0 <= i < |rules| => RenameRule(rules[i], from, to))
  }

  function RenameItem(it: Item, from: string, to: string): Item {
    var value := RenameValue(it.value, from, to);
    if value == it.value then it else it.(value := value)
  }

  function RenameItems(items: seq<Item>, from: string, to: string): (r: seq<Item>)
    ensures |r| == |items| && forall i | 0 <= i < |r| :: r[i] == RenameItem(items[i], from, to)
  {
    seq(|items|, i requires 0 <= i < |items| => RenameItem(items[i], from, to))
  }

  function RenameExtras(x: Lists<seq<Item>>, from: string, to: string): Lists<seq<Item>> {
    Lists(RenameItems(x.grants, from, to), RenameItems(x.ssh, from, to), RenameItems(x.nodeAttrs, from, to),
          RenameItems(x.tests, from, to), RenameItems(x.sshTests, from, to))
  }

  function SwapKeys<V>(r: Record<V>, from: string, to: string): (s: seq<(string, V)>)
    ensures |s| == |r| && forall i | 0 <= i < |r| :: s[i] == (if r[i].0 == from then to else r[i].0, r[i].1)
  {
    seq(|r|, i requires 0 <= i < |r| => (if r[i].0 == from then to else r[i].0, r[i].1))
  }

  function SwapOwners(r: Record<seq<string>>, from: string, to: string): (s: seq<(string, seq<string>)>)
    ensures |s| == |r| && forall i | 0 <= i < |r| :: s[i] == (r[i].0, Swap(r[i].1, from, to))
  {
    seq(|r|, i requires 0 <= i < |r| => (r[i].0, Swap(r[i].1, from, to)))
  }

  function RenameSection(d: Draft, section: KeySection, from: string, to: string): Draft {
    match section
    case GroupKeys => d.(groups := FromEntries(SwapKeys(d.groups, from, to)))
    case TagKeys => d.(tagOwners := FromEntries(SwapKeys(d.tagOwners, from, to)))
    case HostKeys => d.(hosts := FromEntries(SwapKeys(d.hosts, from, to)))
  }

  /** The reducer's "renameKey" action. */
  function RenameKey(d: Draft, section: KeySection, from: string, to: string): Draft {
    if from == to || from !in SectionKeys(d, section) then d
    else
      var a := RenameSection(d, section, from, to);
      var b := a.(rules := RenameRules(a.rules, from, to));
      var c := if section == GroupKeys then b.(tagOwners := FromEntries(SwapOwners(b.tagOwners, from, to))) else b;
      c.(extras := RenameExtras(c.extras, from, to),
         routes := FromEntries(SwapOwners(c.routes, from, to)),
         exitNode := Swap(c.exitNode, from, to))
  }

  // ---- references ----

  datatype Kind = OfRule | OfTagOwner | OfPolicy

  datatype Reference = Reference(kind: Kind, key: string)

  predicate RuleRefers(r: DraftRule, sel: string) {
    sel in r.text.src || exists i | 0 <= i < |r.text.dst| :: SplitDst(r.text.dst[i]).selector == sel
  }

  function Keep<T>(xs: seq<T>, hit: T -> bool, name: T -> Reference): seq<Reference> {
    if xs == [] then []
    else
      var last := xs[|xs| - 1];
      Keep(xs[..|xs| - 1], hit, name) + if hit(last) then [name(last)] else []
  }

  function RuleReferences(rules: seq<DraftRule>, sel: string): seq<Reference> {
    Keep(rules, (r: DraftRule) => RuleRefers(r, sel), (r: DraftRule) => Reference(OfRule, r.key))
  }

  function OwnerReferences(owners: Record<seq<string>>, sel: string, kind: Kind, prefix: string): seq<Reference> {
    Keep(owners, (e: (string, seq<string>)) => sel in e.1, (e: (string, seq<string>)) => Reference(kind, prefix + e.0))
  }

  function ItemReferences(items: seq<Item>, sel: string): seq<Reference> {
    Keep(items, (it: Item) => Mentions(it.value, sel), (it: Item) => Reference(OfPolicy, it.key))
  }

  function ExtraReferences(x: Lists<seq<Item>>, lists: seq<ExtraList>, sel: string): seq<Reference> {
    if lists == [] then []
    else ExtraReferences(x, lists[..|lists| - 1], sel) + ItemReferences(x.Of(lists[|lists| - 1]), sel)
  }

  /** `referencesOf`: everything in the draft that names the selector, in the order it is shown. */
  function ReferencesOf(d: Draft, sel: string): seq<Reference> {
    RuleReferences(d.rules, sel) + OwnerReferences(d.tagOwners, sel, OfTagOwner, "") +
    ExtraReferences(d.extras, EXTRA_LISTS, sel) + OwnerReferences(d.routes, sel, OfPolicy, "route:") +
    if sel in d.exitNode then [Reference(OfPolicy, "exitNode")] else []
  }

  method RuleReferencesLoop(rules: seq<DraftRule>, sel: string) returns (out: seq<Reference>)
    ensures out == RuleReferences(rules, sel)
  {
    hide RuleRefers;
    out := [];
    for i := 0 to |rules|
      invariant out == RuleReferences(rules[..i], sel)
    {
      assert rules[..i + 1][..i] == rules[..i];
      if RuleRefers(rules[i], sel) { out := out + [Reference(OfRule, rules[i].key)]; }
    }
    assert rules[..|rules|] == rules;
  }

  method OwnerReferencesLoop(owners: Record<seq<string>>, sel: string, kind: Kind, prefix: string)
    returns (out: seq<Reference>)
    ensures out == OwnerReferences(owners, sel, kind, prefix)
  {
    out := [];
    for i := 0 to |owners|
      invariant out == OwnerReferences(owners[..i], sel, kind, prefix)
    {
      assert owners[..i + 1][..i] == owners[..i];
      if sel in owners[i].1 { out := out + [Reference(kind, prefix + owners[i].0)]; }
    }
    assert owners[..|owners|] == owners;
  }

  method ItemReferencesLoop(items: seq<Item>, sel: string) returns (out: seq<Reference>)
    ensures out == ItemReferences(items, sel)
  {
    hide Mentions;
    out := [];
    for i := 0 to |items|
      invariant out == ItemReferences(items[..i], sel)
    {
      assert items[..i + 1][..i] == items[..i];
      if Mentions(items[i].value, sel) { out := out + [Reference(OfPolicy, items[i].key)]; }
    }
    assert items[..|items|] == items;
  }

  method ReferencesOfLoop(d: Draft, sel: string) returns (out: seq<Reference>)
    ensures out == ReferencesOf(d, sel)
  {
    hide RuleReferences, OwnerReferences, ItemReferences;
    var rules := RuleReferencesLoop(d.rules, sel);
    var tags := OwnerReferencesLoop(d.tagOwners, sel, OfTagOwner, "");
    out := rules + tags;
    for n := 0 to |EXTRA_LISTS|
      invariant out == rules + tags + ExtraReferences(d.extras, EXTRA_LISTS[..n], sel)
    {
      assert EXTRA_LISTS[..n + 1][..n] == EXTRA_LISTS[..n];
      var found := ItemReferencesLoop(d.extras.Of(EXTRA_LISTS[n]), sel);
      out := out + found;
    }
    assert EXTRA_LISTS[..|EXTRA_LISTS|] == EXTRA_LISTS;
    var routes := OwnerReferencesLoop(d.routes, sel, OfPolicy, "route:");
    out := out + routes;
    if sel in d.exitNode { out := out + [Reference(OfPolicy, "exitNode")]; }
  }

  // ---- what a renamed element mentions ----

  /** The string is a destination on the selector. */
  predicate SplitsOn(s: string, sel: string) { !SplitDst(s).bad && SplitDst(s).selector == sel }

  /** A string names the selector, alone or as a destination on it. */
  predicate Names(s: string, sel: string) { s == sel || SplitsOn(s, sel) }

  /** Some string of the element, outside members called "app", names the selector. */
  predicate Hits(v: CVal, sel: string)
    decreases v
  {
    match v
    case CStr(s) => Names(s, sel)
    case CArr(items) => exists i | 0 <= i < |items| :: Hits(items[i], sel)
    case CObj(fields) => exists k | k in fields :: Lower(k) != "app" && Hits(fields[k], sel)
    case _ => false
  }

  lemma DestinationOn(to: string, s: string)
    requires to != "" && !SplitDst(s).bad
    ensures SplitDst(JoinDst(to, SplitDst(s).ports)) == Dst(to, SplitDst(s).ports, false)
  {
    SplitParts(s);
    SplitUndoesJoinDst(to, SplitDst(s).ports);
  }

  /** A string changes when renamed exactly when it names the old selector. */
  lemma TextChanges(s: string, from: string, to: string)
    requires from != to && to != ""
    requires !SplitsOn(from, to)
    ensures RenameText(s, from, to) != s <==> Names(s, from)
  {
    hide SplitDst, JoinDst;
    if s != from && Names(s, from) { DestinationOn(to, s); }
  }

  /** The reference search renames to NUL, so it cannot look for NUL itself or for NUL with ports. */
  predicate Searchable(sel: string) { sel != NUL && !SplitsOn(sel, NUL) }

  /** An element mentions a selector exactly when one of its strings names it. */
  lemma {:induction false} MentionsIsHit(v: CVal, sel: string)
    requires Searchable(sel)
    ensures Mentions(v, sel) <==> Hits(v, sel)
    decreases v
  {
    hide Names, RenameText, SplitDst;
    match v {
      case CStr(s) => TextChanges(s, sel, NUL);
      case CArr(items) =>
        forall i | 0 <= i < |items| ensures RenameValue(items[i], sel, NUL) != items[i] <==> Hits(items[i], sel) {
          MentionsIsHit(items[i], sel);
        }
        var out := RenameValue(v, sel, NUL).items;
        assert out == items <==> forall i | 0 <= i < |items| :: out[i] == items[i];
      case CObj(fields) =>
        forall k | k in fields ensures RenameValue(fields[k], sel, NUL) != fields[k] <==> Hits(fields[k], sel) {
          MentionsIsHit(fields[k], sel);
        }
        var out := RenameValue(v, sel, NUL).fields;
        assert out == fields <==> forall k | k in fields :: out[k] == fields[k];
      case _ =>
    }
  }

  /** A string that still names the old selector once renamed: the old name itself when the new one is a
      destination on it, or the one destination that renaming turns into the old name. */
  predicate Sticks(s: string, from: string, to: string) {
    || (s == from && SplitsOn(to, from))
    || (SplitsOn(s, from) && from == JoinDst(to, SplitDst(s).ports))
  }

  /** Some string of the element outside "app" members is one that sticks. */
  predicate HoldsSticking(v: CVal, from: string, to: string)
    decreases v
  {
    match v
    case CStr(s) => Sticks(s, from, to)
    case CArr(items) => exists i | 0 <= i < |items| :: HoldsSticking(items[i], from, to)
    case CObj(fields) => exists k | k in fields :: Lower(k) != "app" && HoldsSticking(fields[k], from, to)
    case _ => false
  }

  lemma RenamedText(s: string, from: string, to: string)
    requires from != to && to != ""
    ensures Names(RenameText(s, from, to), from) <==> Sticks(s, from, to)
    ensures !Names(s, to) ==> (Names(RenameText(s, from, to), to) <==> Names(s, from))
  {
    hide SplitDst, JoinDst;
    SelectorIsShorter(s);
    if s != from && Names(s, from) { DestinationOn(to, s); }
  }

  lemma SelectorIsShorter(s: string)
    ensures !SplitDst(s).bad ==> |SplitDst(s).selector| < |s|
  {
    hide ParsePorts;
  }

  /** A renamed element still names the old selector exactly when one of its strings sticks, and names the new one
      exactly when it named the old one. */
  lemma {:induction false} RenamedValue(v: CVal, from: string, to: string)
    requires from != to && to != ""
    ensures Hits(RenameValue(v, from, to), from) <==> HoldsSticking(v, from, to)
    ensures !Hits(v, to) ==> (Hits(RenameValue(v, from, to), to) <==> Hits(v, from))
    decreases v
  {
    hide Names, RenameText, Sticks;
    match v {
      case CStr(s) => RenamedText(s, from, to);
      case CArr(items) =>
        var out := RenameValue(v, from, to).items;
        forall i | 0 <= i < |items|
          ensures Hits(out[i], from) <==> HoldsSticking(items[i], from, to)
          ensures !Hits(items[i], to) ==> (Hits(out[i], to) <==> Hits(items[i], from))
        {
          RenamedValue(items[i], from, to);
        }
      case CObj(fields) =>
        var out := RenameValue(v, from, to).fields;
        forall k | k in fields && Lower(k) != "app"
          ensures Hits(out[k], from) <==> HoldsSticking(fields[k], from, to)
          ensures !Hits(fields[k], to) ==> (Hits(out[k], to) <==> Hits(fields[k], from))
        {
          RenamedValue(fields[k], from, to);
        }
      case _ =>
    }
  }

  // ---- what a renamed rule refers to ----

  /** The rule names the selector as a source or as a destination that has ports after it. */
  predicate RefersWithPorts(r: DraftRule, sel: string) {
    sel in r.text.src ||
    exists i | 0 <= i < |r.text.dst| :: SplitDst(r.text.dst[i]).selector == sel && r.text.dst[i] != sel
  }

  lemma SelectorWithoutPorts(d: string)
    ensures SplitDst(d).selector == d ==> SplitDst(d).ports == ""
    ensures SplitDst(d).selector != d ==> SplitDst(d).ports != "" && ':' !in SplitDst(d).ports
  {
    hide ParsePorts;
    var i := LastIndex(d, ':');
    if 0 < i < |d| - 1 {
      assert |d[..i]| < |d|;
      var tail := d[i + 1..];
      if ParsePorts(tail).Some? {
        ParseIdempotent(tail);
        NormalChars(ParsePorts(tail).value);
      }
    }
  }

  lemma RenamedDst(d: string, from: string, to: string)
    requires from != to && to != ""
    ensures SplitDst(d).selector == from && d != from ==> SplitDst(RenameDst(d, from, to)).selector == to
    ensures SplitDst(d).selector == from && d == from ==> SplitDst(RenameDst(d, from, to)).selector == to + ":"
    ensures SplitDst(d).selector != from ==> RenameDst(d, from, to) == d
  {
    SelectorWithoutPorts(d);
    var parts := SplitDst(d);
    if parts.selector == from {
      if d == from {
        assert JoinDst(to, "") == to + ":";
        LastIndexOfTail(to, ':', "");
        assert to + [':'] + "" == to + ":";
      } else {
        SplitAtLastColon(to, parts.ports);
      }
    }
  }

  /** A destination without ports that is the old name comes back as the new name and a colon, which may be the
      old name again. */
  predicate RuleSticks(r: DraftRule, from: string, to: string) { from == to + ":" && from in r.text.dst }

  /** A renamed rule refers to the new name exactly if it named the old one as a source or with ports. */
  lemma RenamedRule(r: DraftRule, from: string, to: string)
    requires from != to && to != ""
    ensures RuleRefers(RenameRule(r, from, to), from) <==> RuleSticks(r, from, to)
    ensures !RuleRefers(r, to) ==> (RuleRefers(RenameRule(r, from, to), to) <==> RefersWithPorts(r, from))
  {
    hide SplitDst, RenameDst;
    var out := RenameRule(r, from, to);
    forall i | 0 <= i < |r.text.dst|
      ensures SplitDst(r.text.dst[i]).selector == from && r.text.dst[i] != from ==>
              SplitDst(out.text.dst[i]).selector == to
      ensures SplitDst(r.text.dst[i]).selector == from && r.text.dst[i] == from ==>
              SplitDst(out.text.dst[i]).selector == to + ":"
      ensures SplitDst(r.text.dst[i]).selector != from ==> out.text.dst[i] == r.text.dst[i]
    {
      RenamedDst(r.text.dst[i], from, to);
    }
    assert |to + ":"| == |to| + 1;
    RenamedSources(r.text.src, from, to);
    if from == to + ":" {
      assert from == to + [':'] + "";
      LastIndexOfTail(to, ':', "");
      ColonIsWhole(from);
    }
  }

  lemma ColonIsWhole(d: string)
    requires LastIndex(d, ':') == |d| - 1
    ensures SplitDst(d).selector == d
  {
  }

  lemma RenamedSources(xs: seq<string>, from: string, to: string)
    requires from != to
    ensures from !in Swap(xs, from, to)
    ensures to !in xs ==> (to in Swap(xs, from, to) <==> from in xs)
  {
    var out := Swap(xs, from, to);
    if from in xs {
      var i :| 0 <= i < |xs| && xs[i] == from;
      assert out[i] == to;
    }
  }

  // ---- the whole draft ----

  lemma {:induction false} SameKept<T>(xs: seq<T>, ys: seq<T>, p: T -> bool, q: T -> bool, m: T -> Reference,
                                       n: T -> Reference)
    requires |xs| == |ys|
    requires forall i | 0 <= i < |xs| :: (p(xs[i]) <==> q(ys[i])) && (p(xs[i]) ==> m(xs[i]) == n(ys[i]))
    ensures Keep(xs, p, m) == Keep(ys, q, n)
  {
    if xs != [] { SameKept(xs[..|xs| - 1], ys[..|ys| - 1], p, q, m, n); }
  }

  lemma {:induction false} NothingKept<T>(xs: seq<T>, hit: T -> bool, name: T -> Reference)
    ensures Keep(xs, hit, name) == [] <==> forall x | x in xs :: !hit(x)
  {
    if xs != [] {
      var init, last := xs[..|xs| - 1], xs[|xs| - 1];
      assert xs == init + [last];
      NothingKept(init, hit, name);
      assert last in xs;
    }
  }

  /** Fewer hits keep fewer entries, and as many only when the hits are the same. */
  lemma {:induction false} FewerKept<T>(xs: seq<T>, p: T -> bool, q: T -> bool, name: T -> Reference)
    requires forall x | x in xs :: p(x) ==> q(x)
    ensures |Keep(xs, p, name)| <= |Keep(xs, q, name)|
    ensures |Keep(xs, p, name)| == |Keep(xs, q, name)| <==> forall x | x in xs :: q(x) ==> p(x)
  {
    if xs != [] {
      var init, last := xs[..|xs| - 1], xs[|xs| - 1];
      assert xs == init + [last];
      assert last in xs && forall x | x in init :: x in xs;
      FewerKept(init, p, q, name);
    }
  }

  ghost predicate RulesKeepPorts(rules: seq<DraftRule>, from: string) {
    forall r | r in rules :: RuleRefers(r, from) ==> RefersWithPorts(r, from)
  }

  lemma RulesMove(rules: seq<DraftRule>, from: string, to: string)
    requires from != to && to != ""
    requires RuleReferences(rules, to) == []
    ensures var out := RenameRules(rules, from, to);
            (RuleReferences(out, from) == [] <==> forall r | r in rules :: !RuleSticks(r, from, to)) &&
            |RuleReferences(out, to)| <= |RuleReferences(rules, from)| &&
            (|RuleReferences(out, to)| == |RuleReferences(rules, from)| <==> RulesKeepPorts(rules, from)) &&
            (RulesKeepPorts(rules, from) ==> RuleReferences(out, to) == RuleReferences(rules, from))
  {
    hide RuleRefers, RefersWithPorts, RenameRule, RuleSticks;
    var out := RenameRules(rules, from, to);
    var hit, name := (r: DraftRule) => RuleRefers(r, from), (r: DraftRule) => Reference(OfRule, r.key);
    var hitTo, ported := (r: DraftRule) => RuleRefers(r, to), (r: DraftRule) => RefersWithPorts(r, from);
    NothingKept(rules, hitTo, name);
    forall i | 0 <= i < |rules|
      ensures RuleRefers(out[i], from) <==> RuleSticks(rules[i], from, to)
      ensures (RuleRefers(out[i], to) <==> RefersWithPorts(rules[i], from)) && out[i].key == rules[i].key
    {
      assert rules[i] in rules && !hitTo(rules[i]);
      RenamedRule(rules[i], from, to);
      KeepsKey(rules[i], from, to);
    }
    NothingKept(out, hit, name);
    assert forall i | 0 <= i < |rules| :: out[i] in out && rules[i] in rules;
    forall r | r in rules ensures ported(r) ==> hit(r) { PortedRefers(r, from); }
    FewerKept(rules, ported, hit, name);
    SameKept(rules, out, ported, hitTo, name, name);
    if RulesKeepPorts(rules, from) {
      assert forall i | 0 <= i < |rules| :: rules[i] in rules;
      SameKept(rules, rules, ported, hit, name, name);
    }
  }

  lemma KeepsKey(r: DraftRule, from: string, to: string)
    ensures RenameRule(r, from, to).key == r.key
  {
  }

  lemma PortedRefers(r: DraftRule, sel: string)
    ensures RefersWithPorts(r, sel) ==> RuleRefers(r, sel)
  {
  }

  lemma OwnersMove(owners: Record<seq<string>>, from: string, to: string, kind: Kind, prefix: string)
    requires from != to && IsRecord(owners) && OwnerReferences(owners, to, kind, prefix) == []
    ensures var out := FromEntries(SwapOwners(owners, from, to));
            out == SwapOwners(owners, from, to) && OwnerReferences(out, from, kind, prefix) == [] &&
            OwnerReferences(out, to, kind, prefix) == OwnerReferences(owners, from, kind, prefix)
  {
    var out := SwapOwners(owners, from, to);
    assert KeysOf(out) == KeysOf(owners);
    FromDistinctEntries(out);
    var hit := (e: (string, seq<string>)) => from in e.1;
    var hitTo := (e: (string, seq<string>)) => to in e.1;
    var name := (e: (string, seq<string>)) => Reference(kind, prefix + e.0);
    NothingKept(owners, hitTo, name);
    forall i | 0 <= i < |owners|
      ensures !hit(out[i]) && (hitTo(out[i]) <==> hit(owners[i])) && name(out[i]) == name(owners[i])
    {
      assert owners[i] in owners && !hitTo(owners[i]);
      RenamedSources(owners[i].1, from, to);
    }
    NothingKept(out, hit, name);
    SameKept(owners, out, hit, hitTo, name, name);
  }

  lemma ItemsMove(items: seq<Item>, from: string, to: string)
    requires from != to && Searchable(from) && Searchable(to) && to != ""
    requires ItemReferences(items, to) == []
    ensures var out := RenameItems(items, from, to);
            (ItemReferences(out, from) == [] <==> forall it | it in items :: !HoldsSticking(it.value, from, to)) &&
            ItemReferences(out, to) == ItemReferences(items, from)
  {
    hide Mentions, RenameValue, Hits, HoldsSticking, Searchable;
    var out := RenameItems(items, from, to);
    var hit, hitTo := (it: Item) => Mentions(it.value, from), (it: Item) => Mentions(it.value, to);
    var name := (it: Item) => Reference(OfPolicy, it.key);
    NothingKept(items, hitTo, name);
    forall i | 0 <= i < |items|
      ensures hit(out[i]) <==> HoldsSticking(items[i].value, from, to)
      ensures (hitTo(out[i]) <==> hit(items[i])) && name(out[i]) == name(items[i])
    {
      assert items[i] in items && !hitTo(items[i]);
      var value := items[i].value;
      assert out[i].value == RenameValue(value, from, to);
      MentionsIsHit(value, from);
      MentionsIsHit(value, to);
      MentionsIsHit(out[i].value, from);
      MentionsIsHit(out[i].value, to);
      RenamedValue(value, from, to);
    }
    assert forall i | 0 <= i < |items| :: out[i] in out && items[i] in items;
    NothingKept(out, hit, name);
    SameKept(items, out, hit, hitTo, name, name);
  }

  /** No element of the lists holds a string that sticks. */
  ghost predicate NoneSticks(x: Lists<seq<Item>>, lists: seq<ExtraList>, from: string, to: string) {
    forall l | l in lists :: forall it | it in x.Of(l) :: !HoldsSticking(it.value, from, to)
  }

  lemma {:induction false} ExtrasMove(x: Lists<seq<Item>>, lists: seq<ExtraList>, from: string, to: string)
    requires from != to && Searchable(from) && Searchable(to) && to != ""
    requires ExtraReferences(x, lists, to) == []
    ensures var out := RenameExtras(x, from, to);
            (ExtraReferences(out, lists, from) == [] <==> NoneSticks(x, lists, from, to)) &&
            ExtraReferences(out, lists, to) == ExtraReferences(x, lists, from)
  {
    hide ItemReferences, RenameItems, Searchable, HoldsSticking;
    if lists != [] {
      var init, l := lists[..|lists| - 1], lists[|lists| - 1];
      assert lists == init + [l];
      ExtrasMove(x, init, from, to);
      ItemsMove(x.Of(l), from, to);
      assert RenameExtras(x, from, to).Of(l) == RenameItems(x.Of(l), from, to);
    }
  }

  ghost predicate NoOwner(owners: Record<seq<string>>, sel: string) { forall e | e in owners :: sel !in e.1 }

  lemma NoOwnerNoReference(owners: Record<seq<string>>, sel: string, kind: Kind, prefix: string)
    ensures OwnerReferences(owners, sel, kind, prefix) == [] <==> NoOwner(owners, sel)
  {
    NothingKept(owners, (e: (string, seq<string>)) => sel in e.1,
                (e: (string, seq<string>)) => Reference(kind, prefix + e.0));
  }

  /** Renaming keys moves owner lists about but makes no new ones. */
  lemma OwnersOfRenamedKeys(owners: Record<seq<string>>, from: string, to: string, sel: string)
    requires NoOwner(owners, sel)
    ensures NoOwner(FromEntries(SwapKeys(owners, from, to)), sel)
  {
    var entries := SwapKeys(owners, from, to);
    forall e | e in FromEntries(entries) ensures sel !in e.1 {
      FromEntriesValues(entries, e);
      var i :| 0 <= i < |entries| && entries[i] == e;
      assert owners[i] in owners;
    }
  }

  lemma TagOwnersMove(d: Draft, section: KeySection, from: string, to: string)
    requires WellFormed(d) && from != to && from in SectionKeys(d, section)
    requires OwnerReferences(d.tagOwners, to, OfTagOwner, "") == []
    ensures var out := RenameKey(d, section, from, to).tagOwners;
            var before := OwnerReferences(d.tagOwners, from, OfTagOwner, "");
            var after := OwnerReferences(out, to, OfTagOwner, "");
            |after| <= |before| &&
            (|after| == |before| <==> section == GroupKeys || NoOwner(d.tagOwners, from)) &&
            (section == GroupKeys || NoOwner(d.tagOwners, from) ==>
               after == before && OwnerReferences(out, from, OfTagOwner, "") == [])
  {
    hide OwnerReferences, NoOwner, RenameRules, RenameExtras;
    var out := RenameKey(d, section, from, to).tagOwners;
    NoOwnerNoReference(d.tagOwners, from, OfTagOwner, "");
    if section == GroupKeys {
      OwnersMove(d.tagOwners, from, to, OfTagOwner, "");
    } else {
      NoOwnerNoReference(d.tagOwners, to, OfTagOwner, "");
      NoOwnerNoReference(out, to, OfTagOwner, "");
      NoOwnerNoReference(out, from, OfTagOwner, "");
      if section == TagKeys {
        OwnersOfRenamedKeys(d.tagOwners, from, to, to);
        if NoOwner(d.tagOwners, from) { OwnersOfRenamedKeys(d.tagOwners, from, to, from); }
      }
    }
  }

  /** A rename moves every reference, in place and in order, from the old name to the new one and leaves none
      behind, exactly when no rule reaches the old name only through a destination without ports, tag owners are
      either rewritten (groups) or do not name it, and nothing the draft holds still reads as the old name once
      renamed. */
  lemma RenameMovesReferences(d: Draft, section: KeySection, from: string, to: string)
    requires WellFormed(d) && from in SectionKeys(d, section)
    requires from != to && to != "" && Searchable(from) && Searchable(to) && ReferencesOf(d, to) == []
    ensures var out := RenameKey(d, section, from, to);
            ReferencesOf(out, to) == ReferencesOf(d, from) && ReferencesOf(out, from) == [] <==>
            && RulesKeepPorts(d.rules, from)
            && (section == GroupKeys || NoOwner(d.tagOwners, from))
            && (forall r | r in d.rules :: !RuleSticks(r, from, to))
            && NoneSticks(d.extras, EXTRA_LISTS, from, to)
  {
    hide RuleReferences, OwnerReferences, ExtraReferences, RulesKeepPorts, NoOwner, RenameRules, RenameExtras,
         SwapOwners, Swap, FromEntries, SwapKeys, SectionKeys, NoneSticks, RuleSticks, Searchable;
    var out := RenameKey(d, section, from, to);
    assert out.rules == RenameRules(d.rules, from, to) && out.extras == RenameExtras(d.extras, from, to);
    assert out.routes == FromEntries(SwapOwners(d.routes, from, to)) && out.exitNode == Swap(d.exitNode, from, to);
    assert to !in d.exitNode;
    RulesMove(d.rules, from, to);
    TagOwnersMove(d, section, from, to);
    ExtrasMove(d.extras, EXTRA_LISTS, from, to);
    OwnersMove(d.routes, from, to, OfPolicy, "route:");
    RenamedSources(d.exitNode, from, to);
  }

  // ---- where a rename goes wrong ----

  lemma {:induction false} HasAll(l: ExtraList)
    ensures l in EXTRA_LISTS
  {
    match l
    case GrantList => assert EXTRA_LISTS[0] == l;
    case SshList => assert EXTRA_LISTS[1] == l;
    case NodeAttrList => assert EXTRA_LISTS[2] == l;
    case TestList => assert EXTRA_LISTS[3] == l;
    case SshTestList => assert EXTRA_LISTS[4] == l;
  }

  /** One element that holds a sticking string is enough to leave a reference to the old name. */
  lemma StickingStays(d: Draft, section: KeySection, from: string, to: string, l: ExtraList, it: Item)
    requires WellFormed(d) && from in SectionKeys(d, section)
    requires from != to && to != "" && Searchable(from) && Searchable(to) && ReferencesOf(d, to) == []
    requires it in d.extras.Of(l) && HoldsSticking(it.value, from, to)
    ensures ReferencesOf(RenameKey(d, section, from, to), from) != []
  {
    hide RuleReferences, OwnerReferences, ExtraReferences, RenameRules, RenameExtras, SwapOwners, Swap, FromEntries,
         SwapKeys, SectionKeys, HoldsSticking, Searchable;
    var out := RenameKey(d, section, from, to);
    assert out.extras == RenameExtras(d.extras, from, to);
    ExtrasMove(d.extras, EXTRA_LISTS, from, to);
    HasAll(l);
  }

  /** Renaming "a" to "a:80": an element that names "a" still does. */
  lemma NewNameOnOld(d: Draft, section: KeySection, from: string, ports: string, l: ExtraList, it: Item)
    requires WellFormed(d) && from in SectionKeys(d, section) && from != "" && IsNormal(ports)
    requires var to := JoinDst(from, ports); Searchable(from) && Searchable(to) && ReferencesOf(d, to) == []
    requires it in d.extras.Of(l) && it.value == CStr(from)
    ensures ReferencesOf(RenameKey(d, section, from, JoinDst(from, ports)), from) != []
  {
    hide SplitDst, IsNormal, Searchable, ReferencesOf, RenameKey;
    var to := JoinDst(from, ports);
    SplitUndoesJoinDst(from, ports);
    assert |to| == |from| + 1 + |ports|;
    StickingStays(d, section, from, to, l, it);
  }

  /** Renaming "b:80" to "b": an element that names the destination "b:80:80" comes to name "b:80". */
  lemma OldNameOnNew(d: Draft, section: KeySection, to: string, ports: string, l: ExtraList, it: Item)
    requires var from := JoinDst(to, ports);
             WellFormed(d) && from in SectionKeys(d, section) && to != "" && IsNormal(ports) &&
             Searchable(from) && Searchable(to) && ReferencesOf(d, to) == [] &&
             it in d.extras.Of(l) && it.value == CStr(JoinDst(from, ports))
    ensures ReferencesOf(RenameKey(d, section, JoinDst(to, ports), to), JoinDst(to, ports)) != []
  {
    hide SplitDst, IsNormal, Searchable, ReferencesOf, RenameKey;
    var from := JoinDst(to, ports);
    SplitUndoesJoinDst(from, ports);
    assert |from| == |to| + 1 + |ports|;
    StickingStays(d, section, from, to, l, it);
  }

  /** Renaming keeps every entry, in place and with its value, exactly when the new name is free. */
  lemma RenameKeepsEntries<V>(r: Record<V>, from: string, to: string)
    requires IsRecord(r) && from in KeysOf(r) && from != to
    ensures to !in KeysOf(r) ==> FromEntries(SwapKeys(r, from, to)) == SwapKeys(r, from, to)
    ensures |FromEntries(SwapKeys(r, from, to))| == |r| <==> to !in KeysOf(r)
  {
    var entries := SwapKeys(r, from, to);
    FromEntriesSize(entries);
    var i :| 0 <= i < |r| && KeysOf(r)[i] == from;
    assert KeysOf(entries)[i] == to;
    assert forall k | 0 <= k < |r| && k != i :: KeysOf(entries)[k] == KeysOf(r)[k];
    if to in KeysOf(r) {
      var j :| 0 <= j < |r| && KeysOf(r)[j] == to;
      assert KeysOf(entries)[j] == to;
    } else {
      assert IsRecord(entries);
      FromDistinctEntries(entries);
    }
  }
}

/** Port specifications and destinations in the editor (frontend/src/pages/acls/model.ts). */
module Ports {
  import opened Base
  import opened Text

  const MAX_PORT: nat := 65535

  /** One to five digits. */
  predicate ShortDigits(s: string) { 1 <= |s| <= 5 && AllDigits(s) }

  /** "80" or "80-90", as numbers. */
  function RangeOf(part: string): Option<(nat, nat)> {
    if ShortDigits(part) then Some((Number(part), Number(part)))
    else
      var ends := Split(part, '-');
      if |ends| == 2 && ShortDigits(ends[0]) && ShortDigits(ends[1]) then Some((Number(ends[0]), Number(ends[1])))
      else None
  }

  /** A range with both bounds in 1..65535 and in order. */
  function ParseRange(part: string): (r: Option<(nat, nat)>)
    ensures r.Some? ==> 1 <= r.value.0 <= r.value.1 <= MAX_PORT
  {
    match RangeOf(part)
    case None => None
    case Some((lo, hi)) =>
      if lo < 1 || lo > MAX_PORT || hi < 1 || hi > MAX_PORT || hi < lo then None else Some((lo, hi))
  }

  function NormalRange(lo: nat, hi: nat): string {
    if lo == hi then Decimal(lo) else Decimal(lo) + "-" + Decimal(hi)
  }

  /** The parts in normal form; None when one is malformed, out of range, reversed or listed twice. */
  function NormalParts(parts: seq<string>): Option<seq<string>> {
    if parts == [] then Some([])
    else
      var before :- NormalParts(parts[..|parts| - 1]);
      var range :- ParseRange(parts[|parts| - 1]);
      var norm := NormalRange(range.0, range.1);
      if norm in before then None else Some(before + [norm])
  }

  /** `parsePorts`: the normalized specification, None when it is refused. */
  function ParsePorts(spec: string): Option<string> {
    var s := Trim(spec, JsSpace);
    if s == "" then None
    else if s == "*" then Some("*")
    else
      var out :- NormalParts(TrimEach(Split(s, ','), JsSpace));
      Some(Join(out, ','))
  }

  method ParsePortsLoop(spec: string) returns (r: Option<string>)
    ensures r == ParsePorts(spec)
  {
    hide ParseRange, NormalRange, Trim, Split, Join;
    var s := Trim(spec, JsSpace);
    if s == "" { return None; }
    if s == "*" { return Some("*"); }
    var parts := TrimEach(Split(s, ','), JsSpace);
    var seen: set<string> := {};
    var out: seq<string> := [];
    for i := 0 to |parts|
      invariant NormalParts(parts[..i]) == Some(out)
      invariant forall x :: x in seen <==> x in out
    {
      assert parts[..i + 1][..i] == parts[..i];
      var range := ParseRange(parts[i]);
      if range.None? {
        RefusedStays(parts, i + 1);
        return None;
      }
      var norm := NormalRange(range.value.0, range.value.1);
      if norm in seen {
        RefusedStays(parts, i + 1);
        return None;
      }
      seen := seen + {norm};
      out := out + [norm];
    }
    assert parts[..|parts|] == parts;
    r := Some(Join(out, ','));
  }

  lemma {:induction false} RefusedStays(parts: seq<string>, k: nat)
    requires k <= |parts| && NormalParts(parts[..k]).None?
    ensures NormalParts(parts).None?
    decreases |parts| - k
  {
    if k == |parts| {
      assert parts[..k] == parts;
    } else {
      assert parts[..k + 1][..k] == parts[..k];
      RefusedStays(parts, k + 1);
    }
  }

  // ---- meaning ----

  /** The ports a specification text stands for. */
  predicate Denotes(spec: string, port: nat) {
    var s := Trim(spec, JsSpace);
    if s == "*" then 1 <= port <= MAX_PORT
    else exists part | part in Split(s, ',') ::
           var range := RangeOf(Trim(part, JsSpace));
           range.Some? && range.value.0 <= port <= range.value.1
  }

  /** A specification that is its own normal form. */
  predicate IsNormal(spec: string) { ParsePorts(spec) == Some(spec) }

  /** One range in normal form. */
  predicate NormalPart(part: string) {
    ParseRange(part).Some? && part == NormalRange(ParseRange(part).value.0, ParseRange(part).value.1)
  }

  predicate NormalList(parts: seq<string>) {
    parts != [] && Distinct(parts) && forall part | part in parts :: NormalPart(part)
  }

  lemma DecimalIsShort(n: nat)
    requires n <= MAX_PORT
    ensures ShortDigits(Decimal(n))
  {
    DecimalLength(n, 5);
  }

  function Power10(k: nat): nat { if k == 0 then 1 else 10 * Power10(k - 1) }

  lemma {:induction false} DecimalLength(n: nat, k: nat)
    requires k >= 1 && n < Power10(k)
    ensures |Decimal(n)| <= k
    decreases k
  {
    if n >= 10 {
      assert n / 10 < Power10(k - 1);
      DecimalLength(n / 10, k - 1);
    }
  }

  lemma RangeOfNormal(lo: nat, hi: nat)
    requires lo <= hi <= MAX_PORT
    ensures RangeOf(NormalRange(lo, hi)) == Some((lo, hi))
  {
    DecimalIsShort(lo);
    DecimalIsShort(hi);
    NumberUndoesDecimal(lo);
    NumberUndoesDecimal(hi);
    if lo < hi {
      var a, b := Decimal(lo), Decimal(hi);
      var s := NormalRange(lo, hi);
      assert s == a + ['-'] + b && s[|a|] == '-' && !IsDigit(s[|a|]);
      assert !AllDigits(s);
      SplitAtSeparator(a, '-', b);
      SplitWhole(a, '-');
      SplitWhole(b, '-');
    }
  }

  lemma NormalRangeIsPart(lo: nat, hi: nat)
    requires 1 <= lo <= hi <= MAX_PORT
    ensures NormalPart(NormalRange(lo, hi)) && ParseRange(NormalRange(lo, hi)) == Some((lo, hi))
  {
    RangeOfNormal(lo, hi);
  }

  /** A normal part starts and ends with a digit and holds no comma, colon or star. */
  lemma {:induction false} NormalPartChars(part: string)
    requires NormalPart(part)
    ensures part != "" && IsDigit(part[0]) && IsDigit(part[|part| - 1])
    ensures forall c | c in part :: IsDigit(c) || c == '-'
    ensures Trim(part, JsSpace) == part
  {
    hide Trim, Split, RangeOf, ShortDigits;
    var (lo, hi) := ParseRange(part).value;
    var a, b := Decimal(lo), Decimal(hi);
    assert a[0] in a && b[|b| - 1] in b && a[|a| - 1] in a;
    TrimStops(part, JsSpace);
  }

  lemma {:induction false} NormalPartsAreNormal(parts: seq<string>)
    requires NormalParts(parts).Some?
    ensures var out := NormalParts(parts).value;
            |out| == |parts| && Distinct(out) && (forall part | part in out :: NormalPart(part)) &&
            forall i | 0 <= i < |out| :: ParseRange(out[i]) == ParseRange(parts[i]) && ParseRange(parts[i]).Some?
  {
    hide ParseRange, NormalRange;
    if parts != [] {
      var init, last := parts[..|parts| - 1], parts[|parts| - 1];
      NormalPartsAreNormal(init);
      var before := NormalParts(init).value;
      var range := ParseRange(last).value;
      ParsedBounds(last);
      NormalRangeIsPart(range.0, range.1);
      var norm := NormalRange(range.0, range.1);
      assert NormalParts(parts) == Some(before + [norm]) && ParseRange(norm) == ParseRange(last);
      assert forall i | 0 <= i < |init| :: init[i] == parts[i];
    }
  }

  lemma ParsedBounds(part: string)
    requires ParseRange(part).Some?
    ensures 1 <= ParseRange(part).value.0 <= ParseRange(part).value.1 <= MAX_PORT
    ensures RangeOf(part) == ParseRange(part)
  {
  }

  lemma {:induction false} NormalListParses(parts: seq<string>)
    requires Distinct(parts) && forall part | part in parts :: NormalPart(part)
    ensures NormalParts(parts) == Some(parts)
  {
    if parts != [] {
      var init, last := parts[..|parts| - 1], parts[|parts| - 1];
      assert parts == init + [last];
      assert forall part | part in init :: part in parts;
      NormalListParses(init);
      assert last in parts && last !in init;
    }
  }

  lemma {:induction false} JoinEnds(parts: seq<string>)
    requires parts != [] && forall part | part in parts :: NormalPart(part)
    ensures var s := Join(parts, ',');
            s != "" && IsDigit(s[0]) && IsDigit(s[|s| - 1]) && forall c | c in s :: IsDigit(c) || c == '-' || c == ','
  {
    hide NormalPart;
    assert parts[0] in parts;
    NormalPartChars(parts[0]);
    if |parts| > 1 {
      forall part | part in parts[1..] ensures NormalPart(part) { assert part in parts; }
      JoinEnds(parts[1..]);
    }
  }

  /** Joining a list of distinct normal ranges gives a normal specification. */
  lemma NormalListIsNormal(parts: seq<string>)
    requires NormalList(parts)
    ensures IsNormal(Join(parts, ',')) && Join(parts, ',') != "*"
    ensures Split(Join(parts, ','), ',') == parts && TrimEach(parts, JsSpace) == parts
    ensures Trim(Join(parts, ','), JsSpace) == Join(parts, ',')
  {
    hide NormalPart, Join, Split, Trim, NormalParts;
    var s := Join(parts, ',');
    JoinEnds(parts);
    TrimStops(s, JsSpace);
    forall part | part in parts ensures ',' !in part && Trim(part, JsSpace) == part { NormalPartChars(part); }
    SplitUndoesJoin(parts, ',');
    assert TrimEach(parts, JsSpace) == parts;
    NormalListParses(parts);
  }

  /** A normal specification is "*" or lists distinct normal ranges. */
  lemma NormalIsList(spec: string)
    requires IsNormal(spec) && spec != "*"
    ensures NormalList(Split(spec, ',')) && Join(Split(spec, ','), ',') == spec
  {
    hide NormalPart, Join, Split, Trim;
    var parts := TrimEach(Split(Trim(spec, JsSpace), ','), JsSpace);
    NormalPartsAreNormal(parts);
    NormalListIsNormal(NormalParts(parts).value);
  }

  /** `parsePorts` is idempotent on what it accepts. */
  lemma ParseIdempotent(spec: string)
    requires ParsePorts(spec).Some?
    ensures IsNormal(ParsePorts(spec).value)
  {
    hide Join, Split;
    if Trim(spec, JsSpace) == "*" {
      TrimStops("*", JsSpace);
    } else {
      var parts := TrimEach(Split(Trim(spec, JsSpace), ','), JsSpace);
      NormalPartsAreNormal(parts);
      NormalListIsNormal(NormalParts(parts).value);
    }
  }

  /** A normal list denotes the union of its ranges. */
  lemma ListDenotes(parts: seq<string>, port: nat)
    requires NormalList(parts)
    ensures Denotes(Join(parts, ','), port) <==>
            exists part | part in parts :: ParseRange(part).value.0 <= port <= ParseRange(part).value.1
  {
    hide Join, Split, Trim, RangeOf, NormalRange;
    NormalListIsNormal(parts);
    forall part | part in parts
      ensures Trim(part, JsSpace) == part && RangeOf(part) == ParseRange(part) && ParseRange(part).Some?
    {
      NormalPartChars(part);
    }
  }

  /** Normalizing preserves the denoted set of ports, all of them within 1..65535. */
  lemma ParsePreservesPorts(spec: string, port: nat)
    requires ParsePorts(spec).Some?
    ensures Denotes(ParsePorts(spec).value, port) <==> Denotes(spec, port)
    ensures Denotes(spec, port) ==> 1 <= port <= MAX_PORT
  {
    hide Join, Split, RangeOf, NormalRange;
    var s := Trim(spec, JsSpace);
    if s == "*" {
      TrimStops("*", JsSpace);
    } else {
      hide Trim;
      var raw := Split(s, ',');
      var parts := TrimEach(raw, JsSpace);
      NormalPartsAreNormal(parts);
      var out := NormalParts(parts).value;
      ListDenotes(out, port);
      forall i | 0 <= i < |parts|
        ensures RangeOf(Trim(raw[i], JsSpace)) == ParseRange(out[i]) && ParseRange(out[i]).Some?
      {
        ParsedBounds(parts[i]);
      }
      assert forall i | 0 <= i < |parts| :: raw[i] in raw && out[i] in out;
    }
  }

  // ---- destinations ----

  /** A destination's selector and ports; `bad` when the ports are missing or malformed. */
  datatype Dst = Dst(selector: string, ports: string, bad: bool)

  /** `splitDst`: splits at the last colon. */
  function SplitDst(dst: string): Dst {
    var i := LastIndex(dst, ':');
    if i <= 0 || i == |dst| - 1 then Dst(dst, "", true)
    else
      var ports := dst[i + 1..];
      match ParsePorts(ports)
      case Some(v) => Dst(dst[..i], v, false)
      case None => Dst(dst[..i], ports, true)
  }

  function JoinDst(selector: string, ports: string): string { selector + ":" + ports }

  lemma SplitAtLastColon(selector: string, ports: string)
    requires selector != "" && ports != "" && ':' !in ports
    ensures SplitDst(JoinDst(selector, ports)) ==
            match ParsePorts(ports) { case Some(v) => Dst(selector, v, false) case None => Dst(selector, ports, true) }
  {
    hide ParsePorts;
    var d := JoinDst(selector, ports);
    assert d == selector + [':'] + ports;
    LastIndexOfTail(selector, ':', ports);
    assert d[..|selector|] == selector && d[|selector| + 1..] == ports;
  }

  lemma NormalChars(spec: string)
    requires IsNormal(spec)
    ensures spec != "" && ':' !in spec && Trim(spec, JsSpace) == spec
  {
    if spec == "*" {
      TrimStops(spec, JsSpace);
    } else {
      NormalIsList(spec);
      JoinEnds(Split(spec, ','));
      NormalListIsNormal(Split(spec, ','));
    }
  }

  /** Splitting undoes joining, for a selector and a normal port specification. */
  lemma SplitUndoesJoinDst(selector: string, ports: string)
    requires selector != "" && IsNormal(ports)
    ensures SplitDst(JoinDst(selector, ports)) == Dst(selector, ports, false)
  {
    NormalChars(ports);
    SplitAtLastColon(selector, ports);
  }

  lemma SplitParts(dst: string)
    ensures !SplitDst(dst).bad ==> SplitDst(dst).selector != "" && IsNormal(SplitDst(dst).ports)
  {
    hide ParsePorts;
    var i := LastIndex(dst, ':');
    if 0 < i < |dst| - 1 && ParsePorts(dst[i + 1..]).Some? { ParseIdempotent(dst[i + 1..]); }
  }

  // ---- merging ----

  function Dedup(parts: seq<string>): (r: seq<string>)
    ensures Distinct(r) && forall x :: x in r <==> x in parts
  {
    if parts == [] then []
    else
      var before := Dedup(parts[..|parts| - 1]);
      var last := parts[|parts| - 1];
      assert parts == parts[..|parts| - 1] + [last];
      if last in before then before else before + [last]
  }

  function NonEmpty(parts: seq<string>): seq<string> {
    if parts == [] then []
    else NonEmpty(parts[..|parts| - 1]) + if parts[|parts| - 1] == "" then [] else [parts[|parts| - 1]]
  }

  /** `mergePorts`: both specifications' parts, each once. */
  function MergePorts(a: string, b: string): string {
    if a == "*" || b == "*" then "*"
    else Join(Dedup(NonEmpty(TrimEach(Split(a, ',') + Split(b, ','), JsSpace))), ',')
  }

  lemma {:induction false} NonEmptyKeeps(parts: seq<string>)
    requires forall part | part in parts :: part != ""
    ensures NonEmpty(parts) == parts
  {
    if parts != [] {
      var init, last := parts[..|parts| - 1], parts[|parts| - 1];
      assert parts == init + [last];
      assert forall part | part in init :: part in parts;
      NonEmptyKeeps(init);
      assert last in parts;
    }
  }

  lemma MergedList(a: string, b: string)
    requires IsNormal(a) && IsNormal(b) && a != "*" && b != "*"
    ensures NormalList(Dedup(Split(a, ',') + Split(b, ',')))
    ensures MergePorts(a, b) == Join(Dedup(Split(a, ',') + Split(b, ',')), ',')
  {
    hide Split, Join, NormalPart, Trim, IsNormal;
    NormalIsList(a);
    NormalIsList(b);
    var all := Split(a, ',') + Split(b, ',');
    forall part | part in all ensures NormalPart(part) && part != "" && Trim(part, JsSpace) == part {
      assert part in Split(a, ',') || part in Split(b, ',');
      NormalPartChars(part);
    }
    assert TrimEach(all, JsSpace) == all;
    NonEmptyKeeps(all);
    assert Split(a, ',')[0] in all;
    assert Split(a, ',')[0] in Dedup(all);
  }

  /** Merging two normal specifications gives a normal one that denotes the union. */
  lemma MergeIsUnion(a: string, b: string, port: nat)
    requires IsNormal(a) && IsNormal(b)
    ensures IsNormal(MergePorts(a, b))
    ensures Denotes(MergePorts(a, b), port) <==> Denotes(a, port) || Denotes(b, port)
  {
    ParsePreservesPorts(a, port);
    ParsePreservesPorts(b, port);
    if a == "*" || b == "*" {
      TrimStops("*", JsSpace);
    } else {
      MergedUnion(a, b, port);
    }
  }

  lemma MergedUnion(a: string, b: string, port: nat)
    requires IsNormal(a) && IsNormal(b) && a != "*" && b != "*"
    ensures IsNormal(MergePorts(a, b))
    ensures Denotes(MergePorts(a, b), port) <==> Denotes(a, port) || Denotes(b, port)
  {
    hide Split, Join, NormalPart, ParseRange, Denotes, IsNormal, MergePorts;
    NormalIsList(a);
    NormalIsList(b);
    MergedList(a, b);
    var all := Dedup(Split(a, ',') + Split(b, ','));
    NormalListIsNormal(all);
    ListDenotes(all, port);
    ListDenotes(Split(a, ','), port);
    ListDenotes(Split(b, ','), port);
    assert forall x :: x in all <==> x in Split(a, ',') || x in Split(b, ',');
  }
}

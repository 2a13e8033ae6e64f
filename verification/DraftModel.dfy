/** The editor's client-side draft of a policy (frontend/src/pages/acls/model.ts). */
module DraftModel {
  import opened Base
  import opened Records
  import opened CanonicalJson

  type Record<V> = Entries<string, V>

  /** What a rule says; an absent optional text is "". */
  datatype RuleText = RuleText(
    proto: string, src: seq<string>, dst: seq<string>, name: string, description: string, enabled: bool)

  datatype ModelRule = ModelRule(id: string, text: RuleText)

  datatype DraftRule = DraftRule(key: string, serverId: Option<string>, text: RuleText)
  {
    /** The server rule this one edits; "" counts as none. */
    predicate OnServer() { serverId.Some? && serverId.value != "" }
  }

  datatype ExtraList = GrantList | SshList | NodeAttrList | TestList | SshTestList

  const EXTRA_LISTS: seq<ExtraList> := [GrantList, SshList, NodeAttrList, TestList, SshTestList]

  datatype Lists<T> = Lists(grants: T, ssh: T, nodeAttrs: T, tests: T, sshTests: T)
  {
    function Of(l: ExtraList): T {
      match l
      case GrantList => grants
      case SshList => ssh
      case NodeAttrList => nodeAttrs
      case TestList => tests
      case SshTestList => sshTests
    }
  }

  /** One element of a list section; `origin` is the base element it came from. */
  datatype Item = Item(key: string, origin: Option<nat>, value: CVal)

  /** The server's policy as the editor receives it. */
  datatype PolicyModel = PolicyModel(
    hash: string, groups: Record<seq<string>>, tagOwners: Record<seq<string>>, hosts: Record<string>,
    rules: seq<ModelRule>, lists: Lists<seq<CVal>>, routes: Record<seq<string>>, exitNode: seq<string>,
    randomize: bool)

  datatype Draft = Draft(
    baseHash: string, base: Option<PolicyModel>,
    groups: Record<seq<string>>, tagOwners: Record<seq<string>>, hosts: Record<string>, rules: seq<DraftRule>,
    extras: Lists<seq<Item>>, routes: Record<seq<string>>, exitNode: seq<string>, randomize: bool)

  ghost predicate WellFormed(d: Draft) {
    IsRecord(d.groups) && IsRecord(d.tagOwners) && IsRecord(d.hosts) && IsRecord(d.routes)
  }

  ghost predicate WellFormedModel(m: PolicyModel) {
    IsRecord(m.groups) && IsRecord(m.tagOwners) && IsRecord(m.hosts) && IsRecord(m.routes)
  }

  // ---- loading a draft ----

  /** Client-side keys, fresh at every call of `newKey`: one for each place that asks for one. */
  type KeySupply = (ExtraList, nat) -> string

  function LoadRules(rules: seq<ModelRule>): (r: seq<DraftRule>)
    ensures |r| == |rules|
    ensures forall i | 0 <= i < |r| :: r[i] == DraftRule(rules[i].id, Some(rules[i].id), rules[i].text)
  {
    seq(|rules|, i requires 0 <= i < |rules| => DraftRule(rules[i].id, Some(rules[i].id), rules[i].text))
  }

  function LoadItems(elements: seq<CVal>, keys: nat -> string): (r: seq<Item>)
    ensures |r| == |elements|
    ensures forall i | 0 <= i < |r| :: r[i] == Item(keys(i), Some(i), elements[i])
  {
    seq(|elements|, i requires 0 <= i < |elements| => Item(keys(i), Some(i), elements[i]))
  }

  function KeysFor(keys: KeySupply, l: ExtraList): nat -> string { (n: nat) => keys(l, n) }

  /** `draftFromModel`. */
  function Load(m: PolicyModel, keys: KeySupply): Draft {
    Draft(m.hash, Some(m), m.groups, m.tagOwners, m.hosts, LoadRules(m.rules),
          Lists(LoadItems(m.lists.grants, KeysFor(keys, GrantList)), LoadItems(m.lists.ssh, KeysFor(keys, SshList)),
                LoadItems(m.lists.nodeAttrs, KeysFor(keys, NodeAttrList)),
                  LoadItems(m.lists.tests, KeysFor(keys, TestList)),
                LoadItems(m.lists.sshTests, KeysFor(keys, SshTestList))),
          m.routes, m.exitNode, m.randomize)
  }
}

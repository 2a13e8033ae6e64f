# Headscale policy editing, modelled and proved

This project models the parts of the control panel that rewrite a headscale policy without losing what the
user did not touch, and proves what they are for.

- **The structured patcher** (`internal/aclmodel`). A policy is a syntax tree: objects are ordered member
  sequences, and every node carries its layout extras. `AclModel` decodes a tree into a model, `Plan` diffs the
  model against a submitted input into RFC 6902 operations, `Tree` is an interpreter for those operations
  (sections 4.1 to 4.3, errors as in section 5), and `PolicyDocument` holds the class that plans, applies and
  tidies. The patched tree parses to the requested model, untouched parts are the identical nodes, planning
  again on the document as laid out finds nothing (`PatchSettled`), and the layout pass changes nothing but
  layout, only where it may.
- **Array edits** (`Lcs`). The dynamic-programming table and walk are methods with loop invariants; the
  selection is a longest common subsequence and no shorter script of single removes and adds exists.
- **The rule list with disabled rules** (`RuleList`, `PolicyManager`). Saving splits one list between the live
  policy and a table keyed by fingerprint; loading merges the two by remembered position. Saving and loading
  compose to the identity on rules with distinct fingerprints, across planner, interpreter, layout pass,
  parser, row collection, table and re-insertion; saving twice ships the document once. `RuleOrder` says when
  the disabled rules of any table come back in stored order.
- **The draft editor** (`DraftModel`, `KeyMerge`, `ExtrasMerge`, `RuleMerge`, `Rebase`, `Rename`, `Ports`,
  `RuleForm`, `FormMeaning`). The change summary, the three-way rebase after a conflict, the renaming of a
  group, tag or host with all its references, and the rule form with its port specifications.
- **Two machines.** The login limiter keeps a pruned map that answers as the full failure log would, with a
  bound over every interleaved run; the duplicate-name scanner is an explicit stack over tokens that agrees
  with a recursive definition on the value.

Loops of the source are methods with invariants, proved against functions; objects that update their fields
are classes (`PolicyDocument.Document`, `RuleList.Store`, `PolicyManager.Manager`, `Limiter.Manager`).

## Findings

Each property below fails on some input. The first lemma named gives the exact condition under which it holds,
the others inputs on which it does not.

- A host name may start with "#" (internal/aclmodel/validate.go:176), but parsing skips such members
  (internal/aclmodel/model.go:351). A patch gives the requested model, and planning again finds nothing, only when
  no submitted host name starts with "#" (`PatchCorrect.PatchGivesRequestedModel`, `PatchSettled.PlanIsFixpoint`,
  exact with the next point). `PatchSettled.MetadataHostIsLost`: the host "#a" added to an empty document.
- Parsing accepts an object that repeats a name and reads its last member (internal/aclmodel/model.go:323-361),
  while the planned operation addresses the name's first (internal/aclmodel/patch.go:182-197, 272-305). For any
  document, the operations apply and the result has the requested model exactly when, besides the above, the
  input is clear: no name it makes the patch change is repeated (`PatchCorrect.Clear`,
  `PatchCorrect.PatchGivesRequestedModel`; for one object `MapRuns.MapEditsRun`). A document without repeated
  names is clear for every input (`PatchCorrect.UniqueIsClear`). `RepeatedNames.RepeatedNameStays`:
  {"groups": {"group:a": ["x"], "group:a": ["y"]}}, asked for ["z"], still reads as ["y"].
- The load path clips positions to the list (internal/policy/model.go:117-124). Disabled rules come back in
  stored order exactly when each lands after the one shown before it (`RuleOrder.StoredOrderShown`); different
  positions that are not negative suffice (`RuleOrder.PositionsSuffice`). `RuleOrder.NegativePositionsSwap`:
  positions -2 and -1 come back swapped.
- Renaming a key (frontend/src/pages/acls/model.ts:551-584) moves all references exactly when no rule reaches
  the old name only through a destination without ports, tag owners do not name it (unless a group is renamed),
  and no string of the draft still reads as the old name once renamed (`Rename.RenameMovesReferences`). Such
  strings come from names that read as each other with ports (frontend/src/pages/acls/model.ts:486-491):
  `Rename.NewNameOnOld`, `Rename.OldNameOnNew`. Renaming onto a taken name drops an entry
  (`Rename.RenameKeepsEntries`).
- A rebase records edits by base content (frontend/src/pages/acls/model.ts:748-753). It loses an edit exactly
  when two edited list elements stand for equal base elements (`ExtrasLaws.EveryEditOnce`).
  `ExtrasLaws.CollidingEditsLose`: the first of two such edits is gone.
- A policy may list a rule twice, which gives two rules one id. The count of changes shown then rises in a rebase
  (frontend/src/pages/acls/model.ts:783-794) exactly when the server's copies of removed rules and the edits it
  has not made are more than the rules removed and changed (`RuleLaws.RuleCount`), never if it lists no rule twice
  (`RuleLaws.DistinctNeverRises`). `RuleLaws.RepeatedRuleRaises`: a removed rule that the server lists twice. A
  draft just loaded shows no change exactly when rules with one id read the same (`Rebase.LoadedShowsNothing`).
- The form merges the ports of malformed destinations too (frontend/src/pages/acls/model.ts:234-254). A rebuilt
  rule allows on a selector what it allowed exactly when the merged ports are refused and no destination on it
  was well-formed, or are accepted and each is a port of a well-formed one
  (`FormMeaning.RebuildKeepsMeaningIff`). `FormMeaning.MalformedLoses` loses access, `FormMeaning.MalformedGains`
  gains it: ["a:1,1", "a:2"] comes back as ["a:1,2"].

## Model

| member | source | states |
|---|---|---|
| Lcs.Table | internal/aclmodel/patch.go:309-325 | every cell of the table holds the length for its two suffixes |
| Lcs.Compute | internal/aclmodel/patch.go:309-342 | the walk marks the selection the recurrences define |
| Lcs.MasksAgree | internal/aclmodel/patch.go:326-341 | both masks select the same elements, as many as the table's first cell says |
| Lcs.NoLongerSelection | internal/aclmodel/patch.go:307-342 | no pair of masks that select equal sequences selects more |
| Lcs.KeepsLongest | internal/aclmodel/patch.go:307-342 | what is kept is a common subsequence and none is longer |
| Lcs.EqualListsKeptWhole | internal/aclmodel/patch.go:329-340 | equal lists are kept whole |
| Lcs.ScriptRuns | internal/aclmodel/patch.go:254-267 | removes in descending then adds in ascending order never leave the array's bounds and rebuild the array |
| Lcs.RebuiltKeepsOriginals | internal/aclmodel/patch.go:234-238 | kept positions hold the original nodes in original order, the others the new items |
| Lcs.RebuiltIds | internal/aclmodel/patch.go:234-238 | the rebuilt array has exactly the new identities |
| Lcs.ScriptOfEqualLists | internal/aclmodel/patch.go:254-267 | equal identity lists give no operation |
| Lcs.ScriptsAreLong | internal/aclmodel/patch.go:254-267 | any script between two lists is at least as long as their lengths less twice the common subsequence |
| Lcs.ScriptIsShortest | internal/aclmodel/patch.go:254-267 | no script of single removes and adds that turns the old list into the new one is shorter |
| Pointer.UnescapeUndoesEscape | internal/aclmodel/patch.go:34-40 | unescaping undoes escaping for every string |
| Pointer.EscapedHasNoSlash | internal/aclmodel/patch.go:34-36 | an escaped token contains no "/" |
| Pointer.SplitPointerOfChild | internal/aclmodel/patch.go:513-516 | splitting a child pointer gives back the parent pointer and the key |
| Pointer.TokensOfChild | internal/aclmodel/patch.go:53 | appending an escaped token appends that key to the path addressed |
| Pointer.ArrayIndexOfDecimal | internal/aclmodel/patch.go:257-266 | a decimal index is read back as that array index |
| Tree.RunBelow | internal/aclmodel/patch.go:156-162 | operations under one pointer act on the container there and leave the rest of the tree alone |
| Tree.ViewOfUnique | internal/aclmodel/model.go:171-177 | with unique names, decoding an object sees exactly its members |
| AclModel.SectionOfIsFold | internal/aclmodel/model.go:185-197 | a key belongs to exactly the section its name folds to, and is then never metadata |
| AclModel.NormalizeIdempotent | internal/aclmodel/model.go:474-489 | a normalized rule is its own normal form |
| Decoding.ScanKeysLoop | internal/aclmodel/model.go:179-200 | the key loop records each section's spelling or fails on a second one, as the function says |
| Decoding.DecodeMapLoop | internal/aclmodel/model.go:323-361 | the map loop reads every entry but "#" members, in any order, or fails |
| Decoding.DecodeEachLoop | internal/aclmodel/model.go:223-265 | the element loop decodes all elements or fails |
| Decoding.DecodeApproversLoop | internal/aclmodel/model.go:381-424 | the member loop finds one spelling of each approver member and its value, and refuses second spellings and unknown keys |
| Decoding.DecodeListsLoop | internal/aclmodel/model.go:247-267 | the list sections present are decoded, the others left out |
| Decoding.ParseDocumentLoop | internal/aclmodel/model.go:166-299 | section by section the whole parse agrees with the parse function |
| Decoding.NormalizeLoop | internal/aclmodel/model.go:474-489 | the trimming loops compute the normal form |
| Decoding.EnabledRulesLoop | internal/aclmodel/validate.go:82-91 | the enabled rules in order, normalized |
| Decoding.CanonicalListLoop | internal/aclmodel/validate.go:64-80 | a submitted list in canonical form, or an error on a non-object |
| Slots.ScanKeysIsKeyOf | internal/aclmodel/model.go:179-197 | scanning succeeds exactly when no section is spelled twice, and records each spelling |
| Render.RenderKeysOnce | internal/aclmodel/patch.go:403-424 | every member name is written exactly once, whatever its case |
| Render.CanonUndoesRender | internal/aclmodel/patch.go:393-440 | reading a rendered element back gives the element |
| Render.RuleReadsBack | internal/aclmodel/patch.go:453-463 | a rendered rule decodes as its normal form |
| Render.BlockReadsBack | internal/aclmodel/patch.go:359-372 | a rendered block decodes as its entries less its "#" keys |
| Render.ApproversReadBack | internal/aclmodel/patch.go:374-383 | a rendered autoApprovers section decodes as the given routes and exit nodes |
| Names.ViewReadsLast | internal/aclmodel/model.go:171-177 | decoding reads the last member of each name |
| MapRuns.MapEditsRun | internal/aclmodel/patch.go:182-197 | the edits between two maps run on any object that decodes as the first, touch only differing keys and leave an object that decodes, as the second exactly when no differing key was repeated |
| SectionRuns.DiffMapRun | internal/aclmodel/patch.go:175-232 | the operations of a map section all succeed, the section then decodes, as submitted exactly when no changed name was repeated, and untouched entries are the identical nodes |
| SectionRuns.DiffSeqRun | internal/aclmodel/patch.go:238-268 | the operations of a list section all succeed and the array then holds the submitted identities, kept elements being the original nodes |
| ApproverRuns.ApproversRun | internal/aclmodel/patch.go:272-305 | the approver operations succeed unless the routes member is repeated and has to change |
| ApproverRuns.DiffApproversRun | internal/aclmodel/patch.go:272-305 | when they succeed, both members decode, as submitted exactly when nothing to change was repeated; spellings are kept; unchanged routes, "#" members inside routes, an unchanged exitNode and all other members are the identical nodes |
| PatchRun.ParsedFits | internal/aclmodel/model.go:166-299 | in a parsed document every section's member holds what the model says |
| PatchRun.FittingParses | internal/aclmodel/model.go:166-299 | a tree whose members hold a model parses to that model |
| PatchRun.SetKeepsSections | internal/aclmodel/patch.go:50-53 | writing a section under the spelling in use adds no second spelling and moves no other section |
| PatchCorrect.PatchGivesRequestedModel | internal/aclmodel/patch.go:45-119 | for every document that parses and every validated input: the plan applies, the result parses and its model equals the requested one, exactly when no host name starts with "#" and no name that has to change is repeated; whenever the plan applies the result parses |
| PatchCorrect.UniqueIsClear | internal/aclmodel/patch.go:45-119 | a document without repeated names meets that condition for every input, and its patched document repeats none |
| PatchCorrect.PatchFrame | internal/aclmodel/patch.go:42-44 | the document's own extras, every member in its place with the comments around its name (less a port switch taken out, new sections last), members outside the submitted sections, unchanged entries, "#" members, an unchanged exitNode and kept elements stay as they are; no second spelling appears |
| PatchSettled.EmptyPlan | internal/aclmodel/patch.go:45-104 | a plan is empty exactly when the model already holds every submitted section as asked and no submitted host name starts with "#" |
| PatchSettled.EmptyPlanIsRequested | internal/policy/model.go:152-216 | a document for which nothing is planned already has the requested model, and nothing to change is repeated |
| PatchSettled.PlanIsFixpoint | internal/aclmodel/patch.go:45-104 | planning the same input again on the patched document, under any layout, gives no operation exactly when no submitted host name starts with "#" and no name that had to change was repeated |
| PatchSettled.MetadataHostIsLost | internal/aclmodel/validate.go:174-177 | a valid host name "#a" is added to an empty document, read back as absent, and planned again |
| RepeatedNames.RepeatedNameStays | internal/aclmodel/patch.go:182-197 | a parsed document with two members "group:a", planned and patched for another member list, does not read as requested |
| PatchCorrect.ParseIgnoresLayout | internal/aclmodel/model.go:171-177 | trees with equal values parse to the same model |
| Layout.TidiedKeepsValues | internal/aclmodel/patch.go:556-558 | a tidied tree has the same standard JSON |
| Layout.TidiedTransitive | internal/aclmodel/patch.go:559-627 | layout changes within the permitted places compose, added line breaks keeping the siblings' indentation |
| PolicyDocument.DiffMapLoop | internal/aclmodel/patch.go:182-197 | the two loops over sorted keys emit exactly the removals, then the additions and replacements |
| PolicyDocument.DiffSeqLoop | internal/aclmodel/patch.go:254-267 | the two loops over the masks emit exactly the edit script |
| PolicyDocument.Document.Plan | internal/aclmodel/patch.go:45-119 | the plan is the concatenation over sections, with the prior layout of every container it works in |
| TidyPass.LaidLikeSiblings | internal/aclmodel/patch.go:572-600 | an addressed node that stood on its container's line ends up indented like the container's first child on a line of its own |
| PolicyDocument.Document.Tidy | internal/aclmodel/patch.go:559-627 | only layout changes and only at addressed nodes, last children and closings of touched containers, not before or after the document; every addressed node ends up on its own line like its siblings, and trailing commas are back |
| PolicyDocument.Document.Apply | internal/aclmodel/patch.go:153-169 | fails exactly when an operation does, and otherwise has the patched values; unless the document was in canonical format it is the patched tree with all that Tidy promises |
| RuleList.CollectRows | internal/policy/model.go:218-244 | the loop with its index of seen fingerprints computes the rows, last duplicate winning in place |
| RuleList.MetaRowsDistinct | internal/policy/model.go:236-241 | no two rows share a fingerprint |
| RuleList.Store.ReplaceRuleMeta | internal/store/aclmeta.go:39-67 | the table holds exactly the rows written, or is unchanged when the transaction fails |
| RuleList.Store.ListRuleMeta | internal/store/aclmeta.go:18-37 | every row once, in position order and, at one position, in fingerprint order |
| RuleList.ListingIsUnique | internal/store/aclmeta.go:21 | a table has exactly one listing in that order |
| RuleList.ModelState | internal/policy/model.go:94-126 | the map and insertion loops compute the merge of live rules and stored rows |
| RuleList.EveryRuleShownOnce | internal/policy/model.go:94-126 | for any table the enabled rules shown are the document's in order, and each shown row appears exactly once |
| RuleOrder.StoredOrderShown | internal/policy/model.go:105-126 | for any table and either order of equal positions, disabled rules appear in stored order exactly when each lands after the one shown before it |
| RuleOrder.PositionsSuffice | internal/policy/model.go:117-124 | different positions that are not negative always land apart, however large |
| RuleOrder.NegativePositionsSwap | internal/policy/model.go:117-124 | rules stored at -2 and -1 come back in the other order |
| RuleList.SavedListIsShown | internal/policy/model.go:84-126 | after the rows of distinct rules are written, the list shown is the submitted one with names, descriptions and flags |
| PolicyManager.Manager.GetModel | internal/policy/model.go:80-82 | shows the served document merged with a listing of the table, exactly when the document parses |
| PolicyManager.Manager.SaveModel | internal/policy/model.go:149-216 | for any served document, who is turned away and how; an admitted request fails exactly when an operation does, fails the guard exactly when a host name starts with "#" or a name to change is repeated, is rejected only by headscale, and otherwise saves; a save leaves the patched document with its comments, the requested model, an empty next plan and the submitted rows, a failure leaves everything |
| PolicyManager.Manager.SaveTwice | internal/policy/model.go:149-216 | after any save, saving the same input again ships no document |
| PolicyManager.Manager.SaveThenLoad | internal/policy/model.go:149-216 | any admitted save of rules with distinct fingerprints, forced or based on the served document, followed by a load shows the same list |
| KeyMerge.DiffKeysLoop | frontend/src/pages/acls/model.ts:697-705 | the two key loops compute the added, removed and changed keys |
| KeyMerge.MergeKeysLoop | frontend/src/pages/acls/model.ts:775-781 | the copy and delete loops compute the merge |
| KeyMerge.ThreeWayMerge | frontend/src/pages/acls/model.ts:771-781 | at every key the draft's answer if it differs from the base's, else the server's, absence being an answer |
| KeyMerge.CountIsDiffering | frontend/src/pages/acls/model.ts:697-705 | the counts add up to the number of keys at which the records differ |
| KeyMerge.MergeCount | frontend/src/pages/acls/model.ts:775-781 | a merged section shows no more changes than before |
| KeyMerge.MergeAgain | frontend/src/pages/acls/model.ts:775-781 | merging again onto the same server record changes nothing |
| ExtrasMerge.DiffExtrasLoop | frontend/src/pages/acls/model.ts:661-673 | the loop counts additions, edits and the base positions nothing stands for |
| ExtrasMerge.RebaseExtrasLoop | frontend/src/pages/acls/model.ts:742-769 | the loop with its counters of removals and its map of edits computes the closed form: first copies dropped, first survivor edited, orphans and additions appended |
| ExtrasLaws.SurvivorsInOrder | frontend/src/pages/acls/model.ts:755-765 | the survivors are exactly the surviving server elements in server order, with their positions as origins |
| ExtrasLaws.RebaseAccounts | frontend/src/pages/acls/model.ts:742-769 | as multisets, result, dropped and replaced elements balance server elements, recorded edits and additions; each content loses the smaller of removals and occurrences |
| ExtrasLaws.EditsAreComplete | frontend/src/pages/acls/model.ts:748-753 | the recorded edits are the user's when base contents differ, and fewer otherwise |
| ExtrasLaws.EveryEditOnce | frontend/src/pages/acls/model.ts:742-769 | the balance closes over the user's own edits exactly when no two edited items stand for equal base elements |
| ExtrasLaws.CollidingEditsLose | frontend/src/pages/acls/model.ts:748-765 | of two edits to equal base elements the first is lost |
| ExtrasLaws.RebasedSummary | frontend/src/pages/acls/model.ts:661-673 | what the summary against the server sees in a rebased list |
| ExtrasLaws.RebaseCount | frontend/src/pages/acls/model.ts:742-769 | a rebased list shows no more changes than before |
| ExtrasLaws.RebaseAgain | frontend/src/pages/acls/model.ts:742-769 | rebasing again onto the same server list gives the same origins and values |
| ExtrasLaws.UnchangedIsLoaded | frontend/src/pages/acls/model.ts:804-811 | an untouched list rebases to the server's list as loaded, so the shortcut that skips it is harmless |
| RuleMerge.DiffRulesLoop | frontend/src/pages/acls/model.ts:707-719 | the loops compute added, changed and removed rules |
| RuleMerge.RebaseRulesLoop | frontend/src/pages/acls/model.ts:783-794 | the loop with its map of edits computes kept, orphaned and added rules |
| RuleLaws.ThreeWayRules | frontend/src/pages/acls/model.ts:783-794 | for any base and draft: a server rule the base also had goes with all its copies if the draft dropped it; else its first copy reads as the draft has it where that differs from the base, and the other copies as the server has them |
| RuleLaws.RuleCount | frontend/src/pages/acls/model.ts:783-794 | what a rebased rule list shows, and exactly when that is no more than before |
| RuleLaws.DistinctNeverRises | frontend/src/pages/acls/model.ts:783-794 | a server that lists no rule twice meets that condition |
| RuleLaws.RepeatedRuleRaises | frontend/src/pages/acls/model.ts:783-794 | a removed rule that the server lists twice makes the count rise from one to two |
| RuleLaws.RulesAgain | frontend/src/pages/acls/model.ts:783-794 | rebasing rules again onto the same server rules gives the same list, rules listed twice included |
| Rebase.DiffDraftLoop | frontend/src/pages/acls/model.ts:707-736 | the summary of a whole draft |
| Rebase.RebaseDraftLoop | frontend/src/pages/acls/model.ts:772-818 | the rebase of a whole draft |
| Rebase.RebaseIsThreeWay | frontend/src/pages/acls/model.ts:771-818 | every keyed section, the exit-node approvers and the port switch obey the three-way law |
| Rebase.RebaseNeverAddsChanges | frontend/src/pages/acls/model.ts:729-735 | the total number of changes shown never rises, unless the server lists the removed rules more often than the base did |
| Rebase.RebaseIsIdempotent | frontend/src/pages/acls/model.ts:772-818 | rebasing a rebased draft with its own summary gives the same draft up to client keys and entry order |
| Rebase.LoadedShowsNothing | frontend/src/pages/acls/model.ts:405-429 | a draft just loaded shows no changes exactly when every rule has an id and rules with one id read the same |
| Rename.ReferencesOfLoop | frontend/src/pages/acls/model.ts:835-853 | the loops list every reference in order |
| Rename.MentionsIsHit | frontend/src/pages/acls/model.ts:501-503 | an element changes under renaming exactly when one of its strings outside "app" members names the selector |
| Rename.RenamedValue | frontend/src/pages/acls/model.ts:486-499 | a renamed element names the old selector exactly when one of its strings reads as it once renamed, and the new one exactly if it named the old one |
| Rename.RenamedRule | frontend/src/pages/acls/model.ts:510-519 | a renamed rule refers to the new name exactly if it named the old one as a source or with ports, and to the old one exactly when that is the new one with a colon |
| Rename.RenameMovesReferences | frontend/src/pages/acls/model.ts:551-584 | all references move, in place and in order, and none stays, exactly under a condition on port-less destinations, tag owners and strings that read as the old name once renamed |
| Rename.RenameKeepsEntries | frontend/src/pages/acls/model.ts:553-555 | the section keeps every entry in place exactly when the new name is free |
| Rename.StickingStays | frontend/src/pages/acls/model.ts:486-491 | one such string in a list element leaves a reference to the old name in the renamed draft |
| Rename.NewNameOnOld | frontend/src/pages/acls/model.ts:486-491 | renaming to the old name with ports leaves a reference to the old name in the draft |
| Rename.OldNameOnNew | frontend/src/pages/acls/model.ts:486-491 | renaming a name that reads as the new one with ports leaves a reference to it in the draft |
| Ports.ParsePortsLoop | frontend/src/pages/acls/model.ts:68-90 | the loop with its set of seen ranges computes the normal form or refuses |
| Ports.ParseIdempotent | frontend/src/pages/acls/model.ts:67-90 | an accepted specification's normal form is accepted unchanged |
| Ports.ParsePreservesPorts | frontend/src/pages/acls/model.ts:67-90 | normalizing keeps the set of ports denoted, within 1 to 65535 |
| Ports.SplitUndoesJoinDst | frontend/src/pages/acls/model.ts:51-65 | splitting undoes joining for nonempty selectors and normal specifications |
| Ports.MergeIsUnion | frontend/src/pages/acls/model.ts:225-230 | merging normal specifications gives a normal one that denotes the union |
| RuleForm.RuleToFormLoop | frontend/src/pages/acls/model.ts:234-254 | the loop collects selectors once and their merged ports |
| RuleForm.CollectIsFaithful | frontend/src/pages/acls/model.ts:237-242 | the ports collected for a selector are exactly those the destinations allow it |
| RuleForm.RebuiltAllows | frontend/src/pages/acls/model.ts:256-267 | whatever the user edits, a valid form's destinations allow exactly the listed selectors on the ports shown |
| RuleForm.RebuildKeepsMeaning | frontend/src/pages/acls/model.ts:234-277 | a rule rebuilt without its saved list allows exactly what it allowed, when every destination splits |
| FormMeaning.RebuiltMeans | frontend/src/pages/acls/model.ts:234-277 | a rebuilt rule allows a selector a port exactly when the ports collected for it are accepted and denote the port |
| FormMeaning.RebuildKeepsMeaningIff | frontend/src/pages/acls/model.ts:234-277 | for any rule, malformed destinations included, the exact condition under which a rebuild keeps what a selector is allowed |
| FormMeaning.MalformedLoses | frontend/src/pages/acls/model.ts:234-254 | a rule whose one malformed destination makes the rebuild lose access |
| FormMeaning.MalformedGains | frontend/src/pages/acls/model.ts:225-254 | a rule whose malformed destination makes the rebuild allow more |
| Limiter.Manager.AllowAttempt | internal/auth/auth.go:71-95 | the pruning loop answers as a count over the full failure log does |
| Limiter.Manager.RecordFailure | internal/auth/auth.go:97-103 | the failure is added to the map and the log, and the two stay in agreement |
| Limiter.StepKeepsBound | internal/server/handlers_auth.go:7-24 | every step of checks, records and completions keeps the bound |
| Limiter.FailuresStayBounded | internal/auth/auth.go:63-69 | in every run with at most k attempts in flight no window holds more than 19 + k failures, nor 4 + k from one address |
| DuplicateScan.DuplicateMember | internal/hsclient/hstest/fake.go:673-721 | the stack loop computes the scan |
| DuplicateScan.ScanValue | internal/hsclient/hstest/fake.go:683-720 | scanning one value reports its first repeat or moves past it with the stack restored |
| DuplicateScan.RepeatIsRepeat | internal/hsclient/hstest/fake.go:670-672 | a first repeat exists exactly when some object at some depth repeats a name under case folding |
| DuplicateScan.ScanFindsRepeats | internal/hsclient/hstest/fake.go:670-721 | the scan of any value's tokens reports a duplicate exactly when there is one, and which |
| StripMetadata.StripStrips | internal/hsclient/hstest/fake.go:723-743 | stripping leaves no "#" member at any depth and changes nothing exactly when there was none |
| StripMetadata.StrippedReadsAlike | internal/hsclient/hstest/fake.go:723-743 | a reader that strips "#" members first reads groups, tag owners, hosts, rules, autoApprovers and the port switch as the editor does |
| StripMetadata.ListReadsAlike | internal/hsclient/hstest/fake.go:723-743 | it reads the five list sections as the editor does exactly when no element has a "#" member at any depth |
| StripMetadata.ElementReadsAlike | internal/hsclient/hstest/fake.go:723-743 | one element reads alike exactly when its canonical form has no "#" member |

## Left out

- Text: lexing, escaping, printing and the canonical formatter are library code; the model works on trees, takes
  printing and parsing as inverse, and takes the formatter as any function that keeps values.
- The patch library: new nodes arrive without layout, removed ones take theirs along, and a pointer is taken to
  address the first member of a repeated name.
- Fingerprints: the hash is taken as injective, so the normalized rule is its own fingerprint; numbers are compared as written.
- Case: folding and lower-casing are ASCII, plus the two characters outside ASCII that fold to ASCII letters.
- Go map iteration order: members equal under case folding are rendered in some order, the layout pass visits
  containers in some order; neither changes a value.
- Twice-spelled rule fields: an array decoded over an earlier one may keep old entries where the new one has
  nulls; the model reads null entries as "".
- The layout pass reads array positions leniently; plans only contain plain decimals, which are read alike.
- AclModel.Validated: keeps only what the patcher relies on (key prefixes, objects in list sections); address
  parsing, protocol names and length limits are not part of this model.
- AclModel.ModelFromInput: section presence flags that comparison ignores are not carried.
- AclModel.EqualModels: early returns on differing lengths are not separate steps.
- RuleList.Store.ListRuleMeta: the text order of fingerprints is any order that tells them apart.
- The metadata table is a map behind two operations; the database can only refuse a whole transaction.
- PolicyManager.Manager: the request lock, mode, version history, warnings and signals are not part
  of this model; headscale's answer and the commit are inputs.
- PolicyDocument.Document: the class holds the tree as a value and replaces it whole; sharing of subtrees by
  pointer is not modelled.
- StripMetadata.StripStrips: works on standard JSON values, not on the mutable syntax tree.
- Ports.ParsePortsLoop: error wording is not modelled, nor are the other destination and selector validations.
- RuleForm.FormToRule: the saved snapshot is compared as data, so the entry order of its port record does not
  matter here.
- Rename.RenameMovesReferences: asks for a nonempty new name, as the editor does, and for names other than the NUL
  marker the reference search renames to, alone or as its selector.
- Rename.ReferencesOfLoop: the references' labels are display text and not part of this model.
- JavaScript records are own entries in order; prototype lookups and integer-like key order are not modelled.
- RuleLaws.RulesAgain: asks that rules with one id read the same, as do the other rule laws; a policy edited by
  hand may spell one rule in two ways.
- Rebase.RebaseNeverAddsChanges: the exact condition is given for the rule list; in the total a rise there may be
  offset by another section. A draft without a base model has no summary to rebase with.
- Client keys: the random keys are any supply of strings; the results do not depend on them.
- List elements are objects, so an edited element is never a falsy value.
- Limiter.FailuresStayBounded: clocks are integers that never run back; the delay after a failure only spaces
  steps out.
- HTTP handlers, cookies, sessions, the headscale client, Docker signalling, file writes, DNS records, routes,
  audit log and React components: input and output, or short branches that would only add easy members.

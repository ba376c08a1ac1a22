# Asterius administration console and conformance gate: a verified model

The Asterius identity provider ships an administration console written in
TypeScript and a two-stage conformance gate written in Python. This project models
the parts of both that are easy to get wrong (protocols over events that arrive in
any order, printers that a parser must undo, documents that must survive an edit)
and proves what they keep.

Verify everything with `dafny verify dfyconfig.toml`.

| module | models |
|---|---|
| `NavigationGuard` | the unsaved-draft guard: stamps on session history entries, undoing a traversal after it has happened, offering it again |
| `Routes`, `RouteState` | fragment routes and their parameters, printed and parsed; when two addresses are one editor |
| `JsonLexer`, `JsonTokenizer`, `JsonPrinting` | the highlighting tokenizer, the two regular expressions behind it, and `JSON.stringify` |
| `MapBounded` | the four-worker concurrent map |
| `ShellQuoting` | the commands offered for copying, and the POSIX shell reading them |
| `LineageShape`, `LineageTree`, `LineageForest` | the lineage forest: as a map, as objects in memory, and the loops that build it |
| `AuditPager`, `FindingsPager` | the two generation-fenced pagers |
| `TextLists`, `ClientDraft`, `ClientSetup` | the client registration draft and the security part of its form |
| `FreshNames`, `PolicyScopes`, `ScopeDiff` | unused names, policy scope edits and the change list |
| `AssuranceLadder` | moving and adding assurance levels |
| `ArchitectureGraph` | the architecture diagram and its edits |
| `ConformanceReport`, `ConformanceVerdict`, `ConformanceGate` | the report, the verdict on it, and both together |

Where handlers update state in place there is a class (`NavigationGuard.Guard`,
`AuditPager.Explorer`, `FindingsPager.Screening`) or a method with loops; each is
proved equal to a step function, and the laws are proved about runs of those steps.

## Premises

- Session history: one traversal is in flight at a time and changes the URL, and at
  mount the stamps that are there are in order, from 0 at the current entry if it has
  none. A navigation to the URL already there replaces the entry without its stamp.
- The pagers' server holds one fixed trail per query and pages through it in order.
- React runs the effect of a committed render before it renders again, so before the
  answer to a call made by a press on that render.
- `JSON.parse` undoes `JSON.stringify` on the values it returns: objects whose names are
  distinct and in the order JavaScript enumerates them, and numbers as they are printed.
  Two such values stringify alike exactly when they are equal.
- `crypto.randomUUID()` returns ids that are not in use.

## What the code does not do

Seven properties one would expect are false of the code. Each has a failing case and an
exact condition.

- An untouched route parameter whose name repeats in the address changes its value on
  the next update: `RepeatedNameSwitches`, `UntouchedKeptIff`.
- A click on an entry's own link takes its stamp away. A refused traversal back to it is
  undone to the wrong entry, and the draft's screen can then be left without a question:
  `UnstampedEntryMisses`, `MissLosesDraft`, `UndoneIff`, `DeliverKeepsIff`.
- "Load more" in the audit trail mixes two trails when it is pressed on a render whose
  rows are not the latest refresh's, after that refresh has started: `StaleRows`,
  `PressIff`.
- "Continue" in the findings does the same with two sections: `StaleReport`, `PressIff`.
- The list of scope changes misses an added `__proto__` that is an empty object, and its
  rows do not remove a dropped one: reading a property an object lacks reaches its
  prototype. `AddedProtoUnseen`, `DroppedProtoStays`, `ChangesEmpty`, `ChangesReplay`.
- Mutual-TLS aliases stay on when a certificate-bound draft enters the public profile,
  although the comment at console/src/client-draft.ts:226 promises no incompatible
  metadata: `AliasesLeftOn`, `AliasesExact`, `AliasesAfter`.
- Absent members of a read client document can be posted as values, although the comment
  at console/src/client-draft.ts:282-285 rules that out for security metadata and the
  profile is one of them: `AbsentMembers`, `ServerRoundTrip`.

## Model

| member | source | states |
|---|---|---|
| NavigationGuard.MountEstablishes | console/src/navigation-guard.tsx:36-37 | mounting on any history whose stamps are in order, some of them possibly missing, establishes the protocol invariant |
| NavigationGuard.DeliverKeepsIff | console/src/navigation-guard.tsx:41-58 | the hashchange handler keeps it exactly when the entry arrived at has its stamp or is the one after the position |
| NavigationGuard.ArriveKeeps | console/src/navigation-guard.tsx:52-57 | completing a traversal keeps it, on the way out and on the way back |
| NavigationGuard.StepKeeps | console/src/navigation-guard.tsx:15-58 | every user, browser and registry event keeps it, up to that exact condition on deliveries |
| NavigationGuard.RunKeeps | console/src/navigation-guard.tsx:36-58 | along every run whose arrivals are so found the stamps are in order, and at rest the position is the current entry's number and the application shows that entry |
| NavigationGuard.FullRun | console/src/navigation-guard.tsx:36-58 | along every run without a link, address or assignment to the URL already there no stamp is missing and every arrival is found; setting the fragment that is there is harmless |
| NavigationGuard.StepStays | console/src/navigation-guard.tsx:50-51 | while a draft is held no step but the adoption of a saved route shows another editor |
| NavigationGuard.DraftIsKept | console/src/navigation-guard.tsx:12-58 | over every run in which the draft is not saved, discarded or expired and no saved route is adopted it stays registered and the screen stays in its editor |
| NavigationGuard.UndoingRun | console/src/navigation-guard.tsx:43-57 | a refusal passes through its stages only, whatever dirty flags and dialogs do meanwhile |
| NavigationGuard.RefusedTraversal | console/src/navigation-guard.tsx:47-57 | a refused Back or Forward of any distance comes to rest with entries, index, position and screen as before, a missing stamp supplied, and the traversal on offer |
| NavigationGuard.RefusedPush | console/src/navigation-guard.tsx:47-57 | a refused push ends the same way, with the refused entry stamped as the one Forward destination |
| NavigationGuard.RefusalSettles | console/src/navigation-guard.tsx:43-57 | four browser events after a refused traversal the offer is made and all else is as before |
| NavigationGuard.PushSettles | console/src/navigation-guard.tsx:43-57 | three browser events after a refused push the offer is made, with the refused entry stamped |
| NavigationGuard.OfferAnswered | console/src/navigation-guard.tsx:72-75 | "Keep editing" changes only the dialog; "Discard" lands on exactly the entry first asked for with no draft left |
| NavigationGuard.OfferOvertaken | console/src/navigation-guard.tsx:19-21 | if the draft vanishes during the undoing, the traversal is replayed without asking |
| NavigationGuard.ClickAnswered | console/src/navigation-guard.tsx:26-35 | a click out of the editor touches only the dialog, and discarding follows the link with the next stamp |
| NavigationGuard.ExpiredPasses | console/src/navigation-guard.tsx:39-39 | after expiry there is no draft and no dialog, and traversals go through |
| NavigationGuard.TraversalPasses | console/src/navigation-guard.tsx:50-50 | whatever drafts are held, a traversal within the editor, or any without a draft, shows its target and leaves the registry and the dialog alone |
| NavigationGuard.PushPasses | console/src/navigation-guard.tsx:31-50 | so does a push within the editor, by an address, a link or the script, with the next stamp |
| NavigationGuard.PassesIff | console/src/navigation-guard.tsx:50-57 | a traversal passes exactly when there is no draft or the editor is the same |
| NavigationGuard.SkipLinkStays | console/src/navigation-guard.tsx:31-31 | the skip link neither asks nor navigates |
| NavigationGuard.RegisterIs | console/src/navigation-guard.tsx:15-18 | registering adds or removes one form only, and the flag says whether any is left |
| NavigationGuard.LeaveIs | console/src/navigation-guard.tsx:19-21 | leaving runs at once without a draft and asks with one, and discarding then does what was asked |
| NavigationGuard.AdoptionIs | console/src/route-state.ts:35-38 | adopting a saved route changes its entry's address and the screen, keeps the stamp, and touches nothing else |
| NavigationGuard.UndoneIff | console/src/navigation-guard.tsx:47-57 | for any stamps, the undoing returns to its entry exactly when the target's stamp is the position plus the distance, or it has none and the distance is one |
| NavigationGuard.UnstampedEntryMisses | console/src/navigation-guard.tsx:31-57 | from a fresh tab: a click on an entry's own link, then a refused step Back to it, ends two entries away with the draft on screen |
| NavigationGuard.MissLosesDraft | console/src/navigation-guard.tsx:31-57 | a change of tab at that entry is then let through and replaces the draft's screen |
| NavigationGuard.Guard.constructor | console/src/navigation-guard.tsx:36-38 | mounting in place is `Mount` |
| NavigationGuard.Guard.OnHashChange | console/src/navigation-guard.tsx:41-58 | the handler in place is the step for a delivered hashchange |
| NavigationGuard.Guard.SetRegistry | console/src/navigation-guard.tsx:15-18 | registering in place is its step |
| NavigationGuard.Guard.RequestLeave | console/src/navigation-guard.tsx:19-21 | leaving in place runs the action or asks |
| NavigationGuard.Guard.Click | console/src/navigation-guard.tsx:26-35 | the click handler in place is its step |
| NavigationGuard.Guard.SetFragment | console/src/route-state.ts:20-20 | setting the fragment in place is its step, and nothing when it is already there |
| NavigationGuard.Guard.Expired | console/src/navigation-guard.tsx:39-39 | expiry in place is its step |
| NavigationGuard.Guard.Discard | console/src/navigation-guard.tsx:73-75 | confirming in place is its step |
| NavigationGuard.Guard.KeepEditing | console/src/navigation-guard.tsx:73-73 | cancelling in place is its step |
| Routes.QueryRoundTrip | console/src/routes.ts:42-50 | a printed query parses back to the same list, contains no question mark, and is empty only for no parameters |
| Routes.FragmentRoundTrip | console/src/routes.ts:31-50 | parameters come back from a printed fragment in order; the route comes back exactly when it is non-empty and free of question marks |
| Routes.SerializeInjective | console/src/route-state.ts:31-31 | equal printed parameters are equal parameters |
| Routes.AddressReads | console/src/routes.ts:36-44 | an address names the route before its first question mark, or the overview, and the rest is its query |
| Routes.BodyForms | console/src/routes.ts:31-33 | the hash sign and one slash after it are not part of the address |
| Routes.PiecesInOrder | console/src/routes.ts:42-44 | a query is read piece by piece in order |
| Routes.PieceReads | console/src/routes.ts:42-44 | a piece is a name and value around its first equals sign, a name alone, or nothing when empty |
| Routes.EscapesRead | console/src/routes.ts:42-44 | escapes are read in either case and a stray percent sign is itself |
| RouteState.SetRouteParameters | console/src/route-state.ts:15-21 | the loop computes the new fragment from the old and the changes |
| RouteState.FromEntriesEffect | console/src/route-state.ts:20-20 | the record keeps, under every name, the list's last value |
| RouteState.UpdatedReads | console/src/route-state.ts:15-21 | through print and parse the update is map update and deletion on the same route and a fresh map on another |
| RouteState.UntouchedKeptIff | console/src/route-state.ts:15-21 | an untouched parameter reads as before exactly when its first and last values agree |
| RouteState.RepeatedNameSwitches | console/src/route-state.ts:15-21 | a repeated name changes from its first to its last value on any other change |
| RouteState.SameEditorIsIdentity | console/src/route-state.ts:24-32 | two addresses are one editor exactly when they agree on everything but the tab and the guide, parameter by parameter in order, on the users or clients route |
| RouteState.ViewChangeStays | console/src/route-state.ts:28-31 | adding a parameter anywhere to an editor's address stays in that editor exactly when it is the tab or the guide |
| RouteState.SameEditorReads | console/src/route-state.ts:28-31 | every other parameter then reads the same on both |
| RouteState.SameEditorChains | console/src/route-state.ts:24-32 | the relation is symmetric and transitive |
| JsonLexer.StringMatch | console/src/json-tokenizer.ts:17-17 | the string expression matches a prefix exactly when it is a quoted sequence of elements, so at most one prefix |
| JsonLexer.LongestNumber | console/src/json-tokenizer.ts:51-57 | the number match is the longest prefix that is a number of RFC 8259 section 6, and there is none without a match |
| JsonTokenizer.WhitespaceEnd | console/src/json-tokenizer.ts:26-32 | the loop stops at the end of the whitespace run |
| JsonTokenizer.TokenAt | console/src/json-tokenizer.ts:70-87 | a token is a non-empty prefix of what is left |
| JsonTokenizer.TokenAtIs | console/src/json-tokenizer.ts:70-87 | for any text: the whitespace run, else the string, else the longest number, else a keyword, else one unit that is punctuation or plain |
| JsonTokenizer.Push | console/src/json-tokenizer.ts:100-107 | pushing appends text and kinds and keeps neighbours different |
| JsonTokenizer.TokenizeJson | console/src/json-tokenizer.ts:96-116 | for every text the tokens are non-empty, spell the source, differ from their neighbours and give every code unit the kind of the plain scan |
| JsonTokenizer.ScanString | console/src/json-tokenizer.ts:34-49 | a string is a key exactly when a colon follows, whitespace aside, whatever it contains |
| JsonTokenizer.ScanNumber | console/src/json-tokenizer.ts:51-57 | a number in front of anything that cannot continue it is one number |
| JsonTokenizer.ScanWord | console/src/json-tokenizer.ts:59-68 | the three keywords are recognised |
| JsonPrinting.QuotedIsString | console/src/json-tokenizer.ts:17-17 | the quoted form of any text is one string |
| JsonPrinting.PrintedKinds | console/src/json-tokenizer.ts:34-116 | every JSON value printed compactly or indented is classified as printed: names, strings, numbers, literals, punctuation and whitespace |
| JsonPrinting.TextKinds | console/src/json-tokenizer.ts:89-116 | every JSON text of RFC 8259, with whitespace anywhere between its tokens, is classified by its tokens |
| JsonPrinting.HighlightText | console/src/json-tokenizer.ts:96-116 | tokenizing any JSON text gives the text and the kinds of its tokens |
| JsonPrinting.Highlight | console/src/json-tokenizer.ts:96-116 | tokenizing a printed value gives its text and its intended kinds |
| MapBounded.ResumeKeeps | console/src/kubernetes-model.ts:20-22 | resuming any waiting worker keeps the pool's invariant and settles one more call |
| MapBounded.WidthLaw | console/src/kubernetes-model.ts:20-22 | with c calls completed and f failed exactly min(workers - f, n - c - f) are in flight, hence min(4, n - c) before a failure |
| MapBounded.EveryInterleaving | console/src/kubernetes-model.ts:18-24 | in every order of completions indexes are claimed in order and once, at most n calls settle, and the promise reports the truth |
| MapBounded.Quiescent | console/src/kubernetes-model.ts:18-24 | at rest the promise is settled, and fulfilled exactly when every call was |
| MapBounded.SettledStays | console/src/kubernetes-model.ts:20-22 | a settled promise stays as it is, whatever settles later |
| MapBounded.SettledOnce | console/src/kubernetes-model.ts:20-22 | the first rejection refuses the promise, and a fulfilled call never does |
| MapBounded.RunPool | console/src/kubernetes-model.ts:18-24 | the pool ends for every schedule, and fulfils with the i-th call's value at i |
| ShellQuoting.QuoteRead | console/src/kubernetes-model.ts:11-11 | the shell reads a quoted value as one unchanged word, and refuses it exactly when it contains a NUL |
| ShellQuoting.FlagsRead | console/src/kubernetes-access.tsx:180-180 | a copied flag list is read as one command of exactly those words, and refused exactly when a flag contains a NUL |
| ShellQuoting.LoginRead | console/src/kubernetes-model.ts:12-14 | the login command is read as two fixed commands with cluster and account each one unchanged argument, and refused exactly when one contains a NUL |
| LineageShape.PathIsSafe | console/src/agent-task-model.ts:47-50 | a normalized path has at most ten distinct ids and ends in its grant |
| LineageShape.PathIsWhereItBelongs | console/src/agent-task-model.ts:47-50 | a grant sits at its ancestry exactly when that has one to ten ids, none twice, down to the grant, and alone otherwise |
| LineageShape.ForestPaths | console/src/agent-task-model.ts:44-60 | the forest's paths are the non-empty prefixes of where the first fifty rows belong |
| LineageShape.RowIsShown | console/src/agent-task-model.ts:55-55 | a row is shown where it belongs unless a later one of the fifty belongs there |
| LineageShape.InsertEffect | console/src/agent-task-model.ts:51-57 | recording a grant adds its path's prefixes, places it, and moves nothing else |
| LineageShape.BuildIs | console/src/agent-task-model.ts:44-60 | the paths are exactly the prefixes of the normalized paths, and each shows the last grant recorded there or none |
| LineageShape.LastAtIs | console/src/agent-task-model.ts:55-55 | the grant shown at a path is the one no later row at that path follows |
| LineageShape.BuildBounded | console/src/agent-task-model.ts:48-50 | no id repeats on a path, none is deeper than ten, and every grant sits at its own path below all its prefixes |
| LineageShape.OrderIs | console/src/agent-task-model.ts:54-54 | paths are listed once each in the order first met, and later rows move none of them |
| LineageTree.OneParent | console/src/agent-task-model.ts:53-56 | no entry has two parents or two places under one |
| LineageTree.SoundGrows | console/src/agent-task-model.ts:54-54 | pushing a new entry keeps the tree, the separation of arrays and the sibling order |
| LineageTree.Find | console/src/agent-task-model.ts:53-53 | the search finds the entry at the path one step down, and nothing exactly when there is none |
| LineageTree.Push | console/src/agent-task-model.ts:54-54 | the push in memory grows the layout by one entry and changes no other array |
| LineageForest.Step | console/src/agent-task-model.ts:53-56 | one step of the inner loop is one step of the map |
| LineageForest.Walk | console/src/agent-task-model.ts:51-57 | the inner loop is the descent of the map |
| LineageForest.LineageTreeOf | console/src/agent-task-model.ts:44-60 | the forest built in memory is a tree in separate arrays in which each of the first fifty rows has all its recorded ancestors as entries and is shown where it belongs, with no other entries, in the order first met |
| AuditPager.AnswerKeeps | console/src/audit.tsx:194-194 | an answer keeps the pager's invariant, late and duplicate ones included |
| AuditPager.StepKeeps | console/src/audit.tsx:189-236 | every event keeps it, up to the exact condition of `PressIff` on presses |
| AuditPager.StepNotStuck | console/src/audit.tsx:192-236 | no event leaves a spinner or a disabled button waiting for nothing |
| AuditPager.ShowsOnePrefix | console/src/audit.tsx:189-236 | for every arrival order the rows and cursor are a contiguous prefix of the trail of the latest refresh, which is the applied filters' once no refresh is due, and nothing waits for nothing |
| AuditPager.PressShows | console/src/audit.tsx:221-226 | an answered press shows the rows it was made on and the page after them, and changes nothing else |
| AuditPager.RefreshShows | console/src/audit.tsx:189-205 | a refresh shows a spinner, then exactly its first page or the failure |
| AuditPager.LateIsDropped | console/src/audit.tsx:194-229 | an answer or a failure from before the latest refresh changes nothing |
| AuditPager.LoadsAll | console/src/audit.tsx:189-236 | pressing up to a page without a cursor shows the whole trail |
| AuditPager.PressIff | console/src/audit.tsx:207-225 | for all servers, answers and runs whose earlier presses were harmless, a press leaves a prefix on screen exactly when the render's rows are the latest refresh's or its own effect is still due |
| AuditPager.StaleRows | console/src/audit.tsx:218-225 | a run after which a press, with the refresh still on its way, appends to rows of another trail |
| AuditPager.RefreshRestores | console/src/audit.tsx:189-205 | whatever is shown, a refresh and its commit restore the invariant |
| AuditPager.Explorer.RefreshWith | console/src/audit.tsx:189-206 | refreshing in place is its step |
| AuditPager.Explorer.PressMore | console/src/audit.tsx:214-221 | loading more in place is its step |
| AuditPager.Explorer.OnPage | console/src/audit.tsx:194-226 | a page in place is its step |
| AuditPager.Explorer.OnError | console/src/audit.tsx:195-235 | a failure in place is its step |
| FindingsPager.AppendedPrefix | console/src/governance-findings.tsx:37-37 | a page appended to the prefix it continues is the longer prefix, findings and scanned count alike |
| FindingsPager.StepKeeps | console/src/governance-findings.tsx:25-40 | every event keeps the pager's invariant, up to the exact condition of `PressIff` on presses |
| FindingsPager.StepNotStuck | console/src/governance-findings.tsx:26-40 | while mounted a busy screen always has its current call on its way or a refresh due |
| FindingsPager.ShowsOnePrefix | console/src/governance-findings.tsx:25-40 | for every arrival order a report is about the section of the latest refresh and holds exactly the findings of its first scanned records, and nothing waits for nothing |
| FindingsPager.PressShows | console/src/governance-findings.tsx:34-39 | an answered press extends the report it was made on, or reports an answer for another section |
| FindingsPager.RefreshShows | console/src/governance-findings.tsx:26-32 | a refresh empties the screen, then shows exactly its first page or the error |
| FindingsPager.LateIsDropped | console/src/governance-findings.tsx:29-38 | an answer or a failure from before the latest call changes nothing |
| FindingsPager.LoadsAll | console/src/governance-findings.tsx:26-40 | continuing up to a page without a cursor shows every finding of the section |
| FindingsPager.PressIff | console/src/governance-findings.tsx:33-37 | for all servers, answers and runs whose earlier presses were harmless, a press leaves a report on the latest section exactly when the render's report is the latest refresh's or its own effect is still due |
| FindingsPager.StaleReport | console/src/governance-findings.tsx:35-37 | a run after which a press on a button not yet disabled appends to another section's findings |
| FindingsPager.RefreshRestores | console/src/governance-findings.tsx:26-33 | whatever is shown, a refresh and its commit restore the invariant |
| FindingsPager.Screening.RefreshSection | console/src/governance-findings.tsx:26-32 | refreshing in place is its step |
| FindingsPager.Screening.PressMore | console/src/governance-findings.tsx:34-36 | continuing in place is its step |
| FindingsPager.Screening.OnReport | console/src/governance-findings.tsx:29-39 | a report in place is its step |
| FindingsPager.Screening.OnError | console/src/governance-findings.tsx:30-39 | a failure in place is its step |
| TextLists.TrimIs | console/src/client-draft.ts:118-118 | trimming leaves trimmed text made of what was there, and leaves exactly that alone |
| TextLists.ListIsClean | console/src/client-draft.ts:115-120 | whatever is typed, the list holds trimmed, non-blank, one-line entries |
| TextLists.ListRoundTrip | console/src/client-draft.ts:110-120 | a list survives its textarea exactly when its entries are such |
| TextLists.LineIs | console/src/client-draft.ts:115-120 | a line is one entry without the whitespace around it, or none when blank |
| TextLists.LinesInOrder | console/src/client-draft.ts:115-120 | the list of a text is its first line's followed by the rest's |
| ClientDraft.BuildDocument | console/src/client-draft.ts:294-358 | the document assembled by successive assignment is `DocumentFrom`, or refused when the key box is not JSON |
| ClientDraft.ServerRoundTrip | console/src/client-draft.ts:123-161 | a server document survives reading and posting on every carried member exactly when it is representable: no defaulted member absent, one non-blank subject at most, clean lists, trimmed non-blank optional strings, no keys without a method |
| ClientDraft.AbsentMembers | console/src/client-draft.ts:123-161 | an absent profile, details list, logout list or claim flag is posted as its default, while absent bindings, aliases and response modes stay absent |
| ClientDraft.PostedIsRepresentable | console/src/client-draft.ts:294-358 | every posted document is representable |
| ClientDraft.DraftRoundTrip | console/src/client-draft.ts:294-358 | posting, reading back and posting again posts the same document |
| ClientDraft.WholeRoundTrip | console/src/client-draft.ts:294-358 | a server document survives in full exactly when it is representable and requires pushed requests as its profile says |
| ClientDraft.PushedIs | console/src/client-draft.ts:298-298 | pushed requests are required exactly under FAPI, which a document without a profile counts as |
| ClientDraft.PostedSpelled | console/src/client-draft.ts:345-356 | optional strings are posted without the whitespace around them, and not at all when blank |
| ClientDraft.DraftShows | console/src/client-draft.ts:123-161 | every box starts out showing its own member |
| ClientSetup.MethodsFit | console/src/client-draft.ts:203-219 | whatever discovery lists, only methods the profile allows are offered |
| ClientSetup.MethodsOffered | console/src/client-draft.ts:203-219 | every method that fits the profile is offered when discovery lists it or it is in use |
| ClientSetup.ProfileSelects | console/src/client-draft.ts:227-254 | a profile change selects the profile and its method, drops what belonged to the old one, keeps the constraint where it can, and touches nothing else |
| ClientSetup.MethodSelects | console/src/client-draft.ts:257-265 | a method change selects the method and keeps the subject for PKI mutual TLS only |
| ClientSetup.ConstraintSelects | console/src/client-draft.ts:268-277 | selecting a sender constraint shows it as selected and touches nothing but it and the aliases |
| ClientSetup.StepKeeps | console/src/client-setup.tsx:24-81 | every offered change keeps the security rules |
| ClientSetup.ReachableDrafts | console/src/client-draft.ts:227-277 | from the empty draft: public exactly without a method, secrets and bearer only under OIDC, never two bindings, aliases on when needed, a certificate subject posted only for `tls_client_auth` |
| ClientSetup.ProfileDropsKeys | console/src/client-draft.ts:240-242 | changing to a profile other than FAPI posts no keys and no subject |
| ClientSetup.AliasesExact | console/src/client-draft.ts:251-275 | for every draft, a change that sets the aliases sets them to the need except on entering public from a certificate-bound draft, and other changes leave them as they were |
| ClientSetup.AliasesAfter | console/src/client-draft.ts:251-275 | over whole runs the last change that sets the aliases decides, by that same exception |
| ClientSetup.AliasesLeftOn | console/src/client-draft.ts:251-252 | two offered changes reach that exception |
| FreshNames.FindFree | console/src/conditional-policy-builder-model.ts:19-20 | the loop ends for every finite set of names and finds the first free one |
| PolicyScopes.MergeIs | console/src/conditional-policy-builder-model.ts:28-28 | a patched scope reads the patch where it has a value and the old scope elsewhere |
| PolicyScopes.MergeProper | console/src/conditional-policy-builder-model.ts:28-28 | a patched scope still has distinct names in enumeration order and printable values, so it can be written and read back |
| PolicyScopes.PutEnumerable | console/src/conditional-policy-builder-model.ts:28-35 | assigning a property keeps names distinct and array indexes in front by value |
| PolicyScopes.PutExisting | console/src/conditional-policy-builder-model.ts:28-28 | assigning to an existing member changes it in place |
| PolicyScopes.PutNew | console/src/conditional-policy-builder-model.ts:28-35 | a new member that is no array index goes to the end |
| PolicyScopes.OpensIff | console/src/conditional-policy-builder-model.ts:6-12 | a text opens exactly when it is an object whose rules are a list and whose scopes are one if present |
| PolicyScopes.NewScopeIs | console/src/conditional-policy-builder-model.ts:35-37 | a new scope reports only and applies to nothing |
| PolicyScopes.PatchScope | console/src/conditional-policy-builder-model.ts:23-30 | refused for unreadable text or a scope that is no object; otherwise the JSON values of the patch go into that scope and nothing else in the document changes |
| PolicyScopes.AddScope | console/src/conditional-policy-builder-model.ts:31-38 | appends one scope with the first free id, which no scope object has, keeps ids distinct and everything else |
| PolicyScopes.RemoveScope | console/src/conditional-policy-builder-model.ts:39-43 | drops that scope, or none out of range, and keeps everything else |
| ScopeDiff.ScopeChanges | console/src/conditional-policy-builder-model.ts:70-84 | the loop computes the change list, and none for unreadable text |
| ScopeDiff.RowsAtIs | console/src/conditional-policy-builder-model.ts:77-82 | the rows of an index rebuild the draft's scope exactly when no saved `__proto__` is dropped and no added one is empty, and there are none exactly when the two agree up to an empty `__proto__` |
| ScopeDiff.ChangesReplay | console/src/conditional-policy-builder-model.ts:70-84 | replaying all rows on the saved scopes gives the draft scopes, up to top-level member order, exactly when that holds at every index |
| ScopeDiff.ChangesEmpty | console/src/conditional-policy-builder-model.ts:78-82 | the list is empty exactly when the scopes agree up to an empty `__proto__` that one side lacks |
| ScopeDiff.UsualScopes | console/src/conditional-policy-builder-model.ts:78-82 | without members of that name both conditions are plain agreement |
| ScopeDiff.AddedProtoUnseen | console/src/conditional-policy-builder-model.ts:82-82 | a scope with an added empty `__proto__` has no rows |
| ScopeDiff.DroppedProtoStays | console/src/conditional-policy-builder-model.ts:82-82 | the rows of a scope that lost its `__proto__` do not rebuild it, whatever its value was |
| ScopeDiff.KeysDistinct | console/src/conditional-policy-builder-model.ts:80-82 | row keys are distinct |
| AssuranceLadder.MoveLevel | console/src/assurance-policy-model.ts:12-25 | the two splices compute `Moved`, and out-of-range requests return the ladder |
| AssuranceLadder.MoveIs | console/src/assurance-policy-model.ts:17-24 | the moved level is at the target, the others keep their order, nothing is lost, and the reverse move restores the ladder |
| AssuranceLadder.MovePosition | console/src/assurance-policy-model.ts:20-23 | where every level ends up |
| AssuranceLadder.DragsConserve | console/src/assurance-policy-model.ts:12-25 | any sequence of drags conserves the levels and is undone by dragging back |
| AssuranceLadder.EnableAuthenticator | console/src/assurance-policy-model.ts:28-39 | adds one password and code level with the first free name in front of the first level with a passkey, unless there is a code level or there are 32 |
| AssuranceLadder.AdditionIs | console/src/assurance-policy-model.ts:33-38 | names stay distinct, existing levels keep their order, the new one is right below the first passkey level, 32 is not passed, and asking again changes nothing |
| ArchitectureGraph.StepKeeps | console/src/architecture-flows.tsx:221-242 | every edit keeps the diagram's invariant |
| ArchitectureGraph.ConnectKeeps | console/src/architecture-flows.tsx:72-72 | connecting keeps it |
| ArchitectureGraph.TemplateKeeps | console/src/architecture-flows.tsx:170-183 | the web template satisfies it |
| ArchitectureGraph.AddBffKeeps | console/src/architecture-model.ts:39-48 | adding the backend-for-frontend preset keeps it |
| ArchitectureGraph.ReachableGraphs | console/src/architecture-model.ts:26-36 | every reachable diagram joins existing distinct nodes of allowed kinds, each pair once; nothing leaves a role, user or stream and nothing enters an identity provider |
| ArchitectureGraph.RemovalIs | console/src/architecture-flows.tsx:239-256 | removing a node takes it and exactly the edges touching it; removing an edge takes exactly that |
| ArchitectureGraph.AddedNodeIs | console/src/architecture-flows.tsx:221-228 | a new node can be connected exactly where its kind allows, and removing it restores the diagram |
| ArchitectureGraph.ConnectIs | console/src/architecture-flows.tsx:72-72 | connecting adds the edge exactly when the pair is valid, which it then no longer is, and removing the edge undoes it |
| ArchitectureGraph.AddBffIs | console/src/architecture-flows.tsx:229-234 | the preset adds an application and an API, joined, after what is there |
| ArchitectureGraph.TemplateIs | console/src/architecture-flows.tsx:170-183 | the template is an application using an API and a role that a group has as well |
| ArchitectureGraph.RedrawIs | console/src/architecture-flows.tsx:236-238 | changing a node's data keeps every id, kind and edge |
| ArchitectureGraph.WarningIsExact | console/src/architecture-flows.tsx:309-309 | for any diagram with distinct edge ids the editor's warning is off exactly when the edges are in order |
| ConformanceReport.CountsSum | conformance/runner/report.py:197-198 | the counts add up to the number of modules |
| ConformanceReport.SortIs | conformance/runner/report.py:227-227 | the written list is a sorted permutation of the lines read |
| ConformanceReport.SortStable | conformance/runner/report.py:227-227 | lines with one name stay in reading order |
| ConformanceReport.LeqIs | conformance/runner/report.py:227-227 | names compare by the first code point that differs, and a name comes before its extensions |
| ConformanceReport.LinesAre | conformance/runner/report.py:170-207 | the lines are those of the instances the suite holds, and no others |
| ConformanceReport.PlansCount | conformance/runner/report.py:187-198 | each count is of the instances with that result, with null, missing and empty ones under UNKNOWN |
| ConformanceReport.ReadModule | conformance/runner/report.py:181-209 | reading instances keeps the tally, and stops exactly at an unrecognised one |
| ConformanceReport.Report | conformance/runner/report.py:128-257 | the exit code and the written file: refused for no plans, an unrecognised line, no line or nothing finished; the counts are of instances by their own result |
| ConformanceVerdict.LoadWaivers | scripts/conformance-verdict.py:72-101 | accepted exactly when every waiver is complete and no module is waived twice, and then keyed by module |
| ConformanceVerdict.Classify | scripts/conformance-verdict.py:190-200 | the red modules split into waived and unwaived |
| ConformanceVerdict.Decide | scripts/conformance-verdict.py:136-239 | the precedence of exits, with and without a report; whenever modules are judged each red one is listed once by whether it is waived and the stale waivers are those that cover none; exits 0 and 75 leave none unwaived |
| ConformanceGate.Release | scripts/conformance-verdict.py:136-239 | both stages exit 0 exactly when every instance of every plan is readable, one has finished, each passed or is named by a complete waiver, the waiver file is in order and the report is young enough |
| ConformanceGate.LineIs | conformance/runner/report.py:182-207 | what a line says of the instance it was read from: recognised, finished, green, and the name a waiver needs |
| ConformanceGate.FailureIsHeld | scripts/conformance-verdict.py:192-200 | a failed module without a waiver is not released |
| ConformanceGate.ClearMeans | scripts/conformance-verdict.py:190-200 | in a clear run every module that is not green is named by exactly one waiver with a ticket, a reason and a date |

## Left out

- The Rust server crates, the operator, the deployment and the end-to-end tests are not part of this model.
- React rendering, dialogs and toasts, and all network calls: an answer is an arbitrary later step.
- The guard's `beforeunload` handler and links to other documents, which end the page.
- A traversal between two entries with the same URL, which fires no event.
- How a URL's fragment is percent-encoded by `location.hash`: routes are taken to be free of such characters.
- UTF-8 in route parameters: text there is octets, so the replacement of malformed sequences is not modelled.
- The enumeration order JavaScript gives integer-like names in the record of `setRouteParameters`: it decides the order of the printed parameters, not what they read as.
- Shell expansions, other operators, patterns and comments outside quotes: the reader refuses them.
- The mutable `lastIndex` of the sticky expressions: each is a function of the text from the cursor on.
- The wording of change rows (`change`) and the "Not present" display; rows hold the values themselves.
- NavigationGuard.DraftIsKept: needs every arrival to be found, which `FullRun` gives for all runs without a navigation to the URL already there; `MissLosesDraft` is a run without it.
- AuditPager.ShowsOnePrefix: a press must meet the condition of `PressIff`, without which the law is false; `RefreshRestores` says what ends it.
- FindingsPager.ShowsOnePrefix: a press must meet the condition of its own `PressIff`, without which the law is false.
- MapBounded.RunPool: what a call does besides settling is not modelled; its outcome is a function of its index.
- ClientDraft.WholeRoundTrip: leaves out the members the draft does not carry, such as `client_id`.
- The report's plan listing, its `CONFORMANCE_SINCE` filter, the archive download and the clock; the age is a number.
- `branding-model.ts`, `rate-limit-model.ts`, `resource-server-model.ts`, `groups-model.ts`, `overview-model.ts`, `access-reviews-model.ts`, `navigation.ts` and the condition editor: they label, filter or check one value at a time, and keep no state and have no inverse.

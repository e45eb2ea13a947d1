# TSPack, modelled and proved in Dafny

TSPack is a package and project manager written in Go. This project models the parts of it that
compute something non-trivial on their own and proves what they promise. Operations that the program
performs step by step are methods with loops, proved against specification functions or predicates;
what the program promises about them is proved as lemmas over all inputs, all runs or all graphs.
`dafny verify dfyconfig.toml` checks everything.

| modules | part of the program |
|---|---|
| `Orders`, `Sequences`, `Decimals`, `LastWriter` | shared: stable sorting, sequences, decimal numerals, last-writer searches |
| `Authoring`, `DeclarationLaws`, `Tape`, `TapeLaws`, `TapeOrder`, `TapePlaces` | the dependency tape: normalise, sort, one pass with two "latest" maps; and its layers and conflicts by name |
| `Edits`, `EditLaws`, `EditFields` | adding, removing, replacing declarations and explaining what changed |
| `Concepts` | lowering concept fragments to declarations |
| `StreamMatcher`, `Readiness`, `Watching`, `Polling` | the bounded-memory output matcher (a heap class), the readiness protocol (a state machine), which streams may share a matcher, and what each look of the poller decides |
| `ReadyUrl` | placeholders in readiness URLs, and the environment map |
| `Dependencies`, `BuildOrder` | the two-phase depth-first build planner (a class) |
| `Regexes`, `Globs` | a regular-expression language with its reader, and globs translated to it |
| `Artifacts` | replacing an artifact by renames, any of which may fail |
| `Routes`, `ImportWalks`, `WalkOrder`, `Boundary`, `TargetCheck`, `Explain`, `RuleMatches` | the breadth-first walks over the import graph |
| `ShellWords` | the shell-command splitter |
| `KeyAllocation` | fresh keys for migrated dependencies |
| `AuditPages`, `AuditReport` | audit pagination and the findings report |

## How the walks are proved

The three import walks keep a queue with repeated entries and a parent map that the first finder
writes. Routes are lists of import positions, compared by length and then position by position
(`Routes.Before`). The invariant (`ImportWalks.Inv`, `ImportWalks.Scanning`) attaches to every queue
entry the route it was queued under. It follows that a file is scanned under the least route that
reaches it, so the three walks report one and the same path (`WalkOrder.Witness`), which is a shortest
simple path, and scan in one and the same order (`WalkOrder.ScanOrder`).

## How meanings are kept apart from definitions

Specification functions are checked against statements that do not use them: glob matching against what each
wildcard stands for, the emitted expression against a reader of regular-expression text, the build order against
writing out every dependency and dropping repetitions, the tape against the layers by name, and so on.

## Where the code does less than one might expect

Each of these is proved with the exact condition.

- A tape depends on the order of the list exactly when two different declarations share one sort key
  (`TapeOrder.OrderIndependentIff`).
- Two declarations write one slot exactly if they have one identity and one effective name, provided no source
  holds a colon and no name a bar; with a bar in a name they can share a slot although they are of different
  packages (`DeclarationLaws.SlotsIdentify`, `DeclarationLaws.SlotsCanCollide`).
- An explicit addition lands at the end of the tape exactly if no explicit declaration has a greater layer
  order and the next order does not wrap round the 64-bit integers (`EditLaws.AddGoesLast`).
- Readiness can be reported although neither stream contains the pattern, and an early exit although one of
  them does, exactly when both streams are watched, which is the default, and the pattern has two bytes or
  more (`Watching.NeverMixesIff`, `Watching.NeverMissesIff`).
- A failing replacement of an artifact can lose contents that were at the output or at `.previous`, in exactly
  the cases of `Artifacts.LosesCopy`: at the output, only if the existence test fails although the file is
  there; at `.previous` alone, where a failed restore leaves them, whenever the next call can remove the
  backup. So two failing calls in a row can lose the output without any fault in the existence test
  (`Artifacts.TwoFailuresCanLose`), and a sequence of failing calls does exactly as
  `Artifacts.FailuresLoseExactlyWhen` says. A failure can also bring a stale `.previous` back to life
  (`Artifacts.FailureResurrectsExactlyWhen`).
- Of several npm lock entries with one name and version, such as a package and its patched realization, only
  the first gets the advisories; the others are reported clean (`AuditPages.LosesNothingIff`,
  `AuditReport.PatchedIsReportedClean`).
- A package listed in two sections keeps one key exactly if it got its preferred key the first time
  (`KeyAllocation.SameKeyAgain`, `KeyAllocation.OnePackageTwoKeys`).
- The command splitter drops exactly the empty arguments (`ShellWords.QuotingRoundTrip`), and a backslash
  escapes inside single quotes too, unlike in a shell.
- `*` and `?` in compiler globs match line breaks where `**` does not (`Globs.StarMeaning`, `Globs.QuestionMeaning`).

## Model

| member | source | states |
|---|---|---|
| Authoring.NormalizeIdempotent | internal/authoring/tape.go:119-138 | Normalising reaches a normal form at once, and a declaration in normal form is a fixed point at any position; the position matters only to a declaration without an ID |
| Authoring.PrecedesIsWeakOrder | internal/authoring/tape.go:50-63 | The four-part comparator is a strict weak order, and ties are exactly equal (layer rank, layer order, order, ID) keys |
| DeclarationLaws.SourceIsNamed | internal/authoring/types.go:38-53 | A source is identified by its kind and the first given of package, name, ref, path and repo |
| DeclarationLaws.ValidIdentities | internal/authoring/types.go:59-61 | An identity is valid exactly if source and name hold more than white space |
| DeclarationLaws.DefaultsAre | internal/authoring/tape.go:119-138 | Normalising sets only unset fields: layer base, authority owned, editability derived, the source's range and identity, and an ID with the position in at least four digits |
| DeclarationLaws.EffectiveName | internal/authoring/types.go:171-177 | The effective name is the key, or else the source's name |
| DeclarationLaws.SlotsIdentify | internal/authoring/tape.go:114-117 | With no colon in sources and no bar in names, one slot means one identity and one effective name |
| DeclarationLaws.SlotsCanCollide | internal/authoring/tape.go:114-117 | With a bar in a name, declarations of two packages can write one slot |
| Tape.NormalizeDeclarations | internal/authoring/tape.go:45-48 | Every declaration is normalised at its own index, in list order |
| Tape.OpenEntry | internal/authoring/tape.go:71-87 | Opening an entry rewrites in place exactly the entry it shadows, the latest earlier one of its slot, and raises that shadowing |
| Tape.CompareKeys | internal/authoring/tape.go:90-102 | A fatal conflict is raised exactly against the latest earlier entry of the effective key, if identities differ |
| Tape.RecordEntry | internal/authoring/tape.go:68-104 | One round keeps entries, conflicts and both "latest" maps in step with the tape read so far |
| Tape.Build | internal/authoring/tape.go:44-112 | The loop computes the resolution of the sorted, normalised tape: entries, shadow references, conflicts and effective list; where declarations stand on that tape is `TapePlaces.TapeFollowsLayers` |
| Tape.HasFatalConflicts | internal/authoring/tape.go:186-193 | True exactly when some conflict of the resolution is fatal |
| TapeLaws.TapeContents | internal/authoring/tape.go:45-63 | The tape is an ordered permutation of the normalised declarations |
| TapeLaws.EntriesMeaning | internal/authoring/tape.go:70-88 | An entry is effective exactly if no later entry writes its slot; otherwise it refers to the very next entry of that slot |
| TapeLaws.EffectiveIsWinners | internal/authoring/tape.go:106-110 | The effective list projects the unshadowed declarations, in tape order |
| TapeLaws.OneWinnerPerSlot | internal/authoring/tape.go:68-110 | Each slot on the tape has exactly one winner, its last declaration |
| TapeLaws.ConflictsAndEffectiveAddUp | internal/authoring/tape.go:68-110 | Non-fatal conflicts and effective dependencies together number the declarations |
| TapeLaws.RebuildIsIdempotent | internal/authoring/tape.go:44-112 | Rebuilding the effective declarations gives the same effective list, every entry effective and nothing shadowed |
| TapeLaws.FatalIffSomeClash | internal/authoring/tape.go:90-103 | Although only adjacent holders of a key are compared, a fatal conflict is reported exactly if any two declarations on the tape share an effective key and differ in identity |
| TapeLaws.NoFatalMeansDistinct | internal/authoring/tape.go:90-110 | Without a fatal conflict all effective dependencies have pairwise distinct effective identities |
| TapePlaces.TapeFollowsLayers | internal/authoring/tape.go:50-63 | On every tape declarations stand by layer (base, concept, template, any other, project, package, compatibility, explicit), and within a layer by layer order, order and ID |
| TapePlaces.LaterLayerWins | internal/authoring/tape.go:140-159 | Of two declarations of one slot the one of the earlier layer is shadowed, by one no later than the other |
| TapePlaces.ConflictsAreExact | internal/authoring/tape.go:71-102 | The conflicts are exactly the shadowings of neighbouring declarations of a slot, classified by the first of kind, optionality and constraint in which they differ, and the collisions of neighbouring declarations of a name |
| TapePlaces.ConflictsInOrder | internal/authoring/tape.go:68-104 | Conflicts are listed by the later declaration's position, a shadowing before a collision |
| TapeOrder.OrderIndependent | internal/authoring/tape.go:44-63 | If equal sort keys occur only between identical named declarations, every permutation gives the same tape |
| TapeOrder.OrderMatters | internal/authoring/tape.go:50-63 | If two declarations with one sort key differ, two listings of the same declarations give different tapes |
| TapeOrder.OrderIndependentIff | internal/authoring/tape.go:44-112 | For declarations with IDs: every listing order gives the identical resolution if and only if equal sort keys occur only between identical declarations |
| Edits.MatchingDeclarationIndexes | internal/authoring/edit.go:148-179 | The indexes of exactly the declarations the selector matches, in list order |
| Edits.NextOrder | internal/authoring/edit.go:181-189 | One more than the greatest order in that layer and layer order (at least -1), wrapping as 64-bit integers do |
| Edits.EffectiveEntriesByIdentity | internal/authoring/edit.go:220-228 | The effective entries of a resolution by slot |
| Edits.BuildEditResult | internal/authoring/edit.go:191-209 | The result holds both resolutions and the given changes, followed by the explanation of each slot that changed hands, for some order of walking the map |
| Edits.Add | internal/authoring/edit.go:51-71 | Before and after are the resolutions of the list without and with the prepared declaration, and the change is explained |
| Edits.Remove | internal/authoring/edit.go:73-97 | No match is not-found, several are ambiguous, and one match is taken out of the normalised list and explained |
| Edits.Replace | internal/authoring/edit.go:99-128 | The single match is replaced in place, keeping the ID and position it carries over, and explained; else the errors of a removal |
| Edits.ChangeConstraint | internal/authoring/edit.go:130-146 | A constraint change is the replacement by the same declaration with the new constraint, with the same errors |
| EditFields.SelectsByField | internal/authoring/edit.go:148-179 | Each selector field selects by the declaration's field of that name, identity by the effective identity, and editable-only by editability; an empty selector selects everything |
| EditFields.AdditionFillsIn | internal/authoring/edit.go:51-67 | An addition is explicit, owned, editable and by the user unless it says otherwise, and comes after all of its layer and layer order unless the order wraps |
| EditFields.ReplacementTakesPlace | internal/authoring/edit.go:112-120 | A replacement in the same layer without ID and order takes over those of the replaced declaration and its place; no other declaration moves |
| EditFields.ConstraintTakesEffect | internal/authoring/edit.go:143-145 | A changed constraint is on the tape, and is the range its source is asked for |
| EditLaws.EffectiveBySlotIsInForce | internal/authoring/edit.go:220-228 | The map compared by edits holds, for each slot, exactly the declaration in force there |
| EditLaws.ChangesAre | internal/authoring/edit.go:191-209 | If one slot at most changes hands, the changes are the edit and that slot's report whatever order the map is walked in |
| EditLaws.ChangesAreTwo | internal/authoring/edit.go:191-209 | If two slots at most change hands, their reports follow the edit in one order or the other |
| EditLaws.AddGoesLast | internal/authoring/edit.go:51-71 | An explicit addition is last on the tape if and only if no explicit declaration has a larger layer order and the next order does not wrap; then it takes its own slot and no other moves |
| EditLaws.AddPlaces | internal/authoring/edit.go:51-71 | At any layer, an addition under a fresh ID takes its own slot unless it precedes the declaration in force there, and changes no other slot |
| EditLaws.AddExplained | internal/authoring/edit.go:51-71 | At any layer, an addition under a fresh ID reports itself, and a shadowing exactly if its slot was occupied by a declaration it does not precede |
| EditLaws.RemoveExplained | internal/authoring/edit.go:73-97 | Removing an effective declaration promotes and reports its predecessor in the slot; removing any other moves no slot and reports only itself |
| EditLaws.RemoveShadowed | internal/authoring/edit.go:73-97 | Removing a shadowed declaration leaves the effective list exactly as it was |
| EditLaws.ReplacementExplained | internal/authoring/edit.go:99-128 | With unique IDs, the replacement is placed in every slot as the replaced declaration was, over the tape of the others; at most their two slots change hands, and are reported after the edit |
| EditLaws.AddThenRemove | internal/authoring/edit.go:51-97 | Removing what was added, by its ID, restores the resolution from before the addition if the ID was fresh, wherever the addition landed |
| EditLaws.ConstraintKeepsOrder | internal/authoring/edit.go:130-146 | Changing a constraint keeps every declaration at its place on the tape |
| EditLaws.ConstraintKeepsEntries | internal/authoring/edit.go:130-146 | Which declarations are in force and what shadows what does not depend on constraints |
| EditLaws.ConstraintChangeExplained | internal/authoring/edit.go:130-146 | A constraint change reports itself and nothing else |
| Concepts.AppendConceptDependencies | internal/concepts/authoring.go:47-81 | One section appends its declarations in order and advances the shared order counter by as many |
| Concepts.DependencyDeclarations | internal/concepts/authoring.go:14-45 | The lowered list holds the declaration of every contribution of every fragment, in order, with descending layer orders |
| Concepts.LoweringSays | internal/concepts/authoring.go:14-80 | Field by field, what the list holds at each position: per fragment its dependencies, tools and peers in order, with kind, ID, source, origin, layer and orders |
| Concepts.FirstFragmentWins | internal/concepts/authoring.go:14-80 | Although the tape is last-wins, each slot's effective declaration comes from the first fragment declaring it, and there from the last one in the order dependencies, tools, peers |
| StreamMatcher.OutputMatcher.constructor | internal/cli/run_command.go:874-876 | A new matcher has seen nothing and keeps nothing |
| StreamMatcher.OutputMatcher.Observe | internal/cli/run_command.go:878-904 | Observing a chunk extends the history by it and refines the functional matcher; the caller's buffer never becomes part of the matcher |
| StreamMatcher.OutputMatcher.Matched | internal/cli/run_command.go:906-913 | True exactly if the pattern occurs in all bytes observed so far |
| StreamMatcher.TailSuffices | internal/cli/run_command.go:886-903 | If the history lacks the pattern, history plus chunk contains it exactly if the last pattern-length-minus-one bytes plus chunk do |
| StreamMatcher.ObserveTracks | internal/cli/run_command.go:878-904 | One observation keeps the verdict equal to a whole-text search and the tail equal to the last pattern-length-minus-one bytes |
| StreamMatcher.StreamingIsSearch | internal/cli/run_command.go:867-913 | After any sequence of chunks the matcher has seen the pattern exactly if it occurs in their concatenation |
| StreamMatcher.MemoryIsBounded | internal/cli/run_command.go:894-903 | However much is observed, fewer bytes are kept than the pattern has |
| StreamMatcher.TailIsRecent | internal/cli/run_command.go:894-903 | While the pattern has not been seen, these are the last bytes observed, all of them or as many as may matter |
| StreamMatcher.ChunkingDoesNotMatter | internal/cli/run_command.go:867-913 | Two ways of cutting the same bytes into chunks give the same verdict, and the same tail while the pattern has not been seen |
| StreamMatcher.ForwardRead | internal/cli/run_command.go:924-930 | A read overwrites the shared buffer, and the matcher's history grows by exactly the data read |
| StreamMatcher.CopyOutputPipe | internal/cli/run_command.go:915-936 | With one buffer reused for all reads, what is written on and what the matcher has seen are exactly the bytes delivered |
| StreamMatcher.DeliveredMeaning | internal/cli/run_command.go:924-933 | The bytes delivered are those of the reads up to and including the first with an error |
| Readiness.StepKeepsInv | internal/cli/run_command.go:240-266 | Every enabled step of copiers, waiter and poller keeps the protocol invariant |
| Readiness.RunKeepsInv | internal/cli/run_command.go:240-266 | The invariant holds in every state of every interleaving |
| Readiness.VerdictsAreRight | internal/cli/run_command.go:450-469 | In every interleaving, ready is returned only if the pattern is in the bytes observed; an early exit only if it is nowhere in all bytes read, and with the stored exit result; when each verdict must come is `Polling.PollerDecides` |
| Readiness.SingleStreamVerdicts | internal/cli/run_command.go:450-469 | Watching one stream, both verdicts are exact for the bytes read from that stream |
| Readiness.DoneFreezesOutput | internal/cli/run_command.go:259-264 | Once the done channel is closed nothing is read or observed any more |
| Readiness.NothingContiguousIsMissed | internal/cli/run_command.go:856-865 | Watching both streams, an early exit is never returned if the pattern lies in consecutively observed output |
| Watching.SeparableIsExact | internal/cli/run_command.go:856-865 | If not both streams are watched, or the pattern has at most one byte, no run returns ready without the pattern in a stream, and none an early exit with it in one |
| Watching.BothStreamsCanMiss | internal/cli/run_command.go:856-865 | For every pattern of two bytes or more, a run on both streams that returns an early exit although stdout contains the pattern |
| Watching.BothStreamsCanMix | internal/cli/run_command.go:856-865 | For every pattern of two bytes or more, a run on both streams that returns ready although neither stream contains the pattern |
| Watching.NeverMixesIff | internal/cli/run_command.go:450-469 | No run returns ready with the pattern in neither stream, if and only if not both are watched or the pattern has at most one byte |
| Watching.NeverMissesIff | internal/cli/run_command.go:450-469 | No run returns an early exit with the pattern in a stream, if and only if not both are watched or the pattern has at most one byte |
| Polling.PollerDecides | internal/cli/run_command.go:450-469 | In every run, each look at the matcher returns ready if and only if the observed bytes hold the pattern; the poller leaves the loop exactly if the done channel was closed, looks again, and then reports an early exit with the process's result; the deadline decides last |
| Polling.TimesOutExactlyWhen | internal/cli/run_command.go:450-469 | A timeout is returned exactly by a passed deadline in a round whose look was in vain and which found the done channel open |
| Polling.FinishedMeaning | internal/cli/run_command.go:915-936 | A copier has finished exactly if its stream is not watched, or its last read came and all that was read was observed; after the last read there is none |
| Polling.ReadyWhileRunning | internal/cli/run_command.go:450-455 | For every pattern and every watched stream, ready can be returned while the process runs |
| Polling.TimeoutIsPossible | internal/cli/run_command.go:450-469 | For every pattern and selection, a timeout can be returned |
| ReadyUrl.ReadPrints | internal/cli/run_command.go:1006-1036 | Every template reads as a sequence of characters and placeholders that prints back to it |
| ReadyUrl.ReadIsOnly | internal/cli/run_command.go:1006-1036 | And as only one: reading undoes printing |
| ReadyUrl.CutMeaning | internal/cli/run_command.go:1042 | An entry is cut into key and value exactly if it is key, equals sign, value with no equals sign in the key |
| ReadyUrl.BoundMeaning | internal/cli/run_command.go:1039-1048 | A name's value is that of the last entry binding it; unbound exactly if no entry does |
| ReadyUrl.RunEnvMap | internal/cli/run_command.go:1039-1048 | The map holds exactly the last bindings, whatever the platform's comparison of names |
| ReadyUrl.SecretNames | internal/cli/run_command.go:1050-1058 | Exactly the names of the target's secret items |
| ReadyUrl.IsValidRunEnvKey | internal/cli/run_command.go:1155-1172 | True exactly for nonempty names of letters, digits and underscores that do not start with a digit |
| ReadyUrl.ValidNameMeaning | internal/cli/run_command.go:1155-1172 | Valid names are those of the listed letters, underscores and digits that do not start with a digit |
| ReadyUrl.InterpolateRunReadyUrl | internal/cli/run_command.go:1002-1037 | The scan succeeds exactly if every placeholder of the template's one reading is closed and its name valid, not that of a secret item, and bound; the text is then the characters with each placeholder replaced by the last binding of its name, and otherwise the leftmost problem is reported: invalid name, else secret, else missing |
| ReadyUrl.EvalMeaning | internal/cli/run_command.go:1006-1036 | The same for the functional evaluation, under any map of values and set of secret names |
| ReadyUrl.PrintedTemplate | internal/cli/run_command.go:1006-1036 | Any well-formed pieces with fillable placeholders, printed and interpolated, come to the pieces with values substituted: substituted text is never read again |
| ReadyUrl.PlaceholderIsReplaced | internal/cli/run_command.go:1006-1036 | In a template, plain text followed by a placeholder comes to that text and the placeholder's value, and then what the rest comes to |
| Dependencies.OrderedIsAcyclic | internal/cli/scriptc_build.go:547-567 | No member of a repetition-free order with dependencies first is on a cycle |
| Dependencies.ChainCloses | internal/cli/scriptc_build.go:551-553 | Meeting a target in progress again shows a dependency cycle through it |
| BuildOrder.Planner.SelectTarget | internal/cli/scriptc_build.go:520-535 | Selection adds exactly what the name reaches, closed under dependencies, or names an undeclared target it reaches; it ends on cyclic input too |
| BuildOrder.Planner.Visit | internal/cli/scriptc_build.go:547-567 | A visit emits the target after everything it needs, or names a target on a cycle |
| BuildOrder.Planner.SelectRequest | internal/cli/scriptc_build.go:519-544 | The selected names are exactly the closure of the request |
| BuildOrder.Planner.EmitAll | internal/cli/scriptc_build.go:568-572 | Visiting the listed targets in order emits, for every prefix of the list, exactly what that prefix needs |
| BuildOrder.Planner.Order | internal/cli/scriptc_build.go:514-573 | Succeeds exactly if the closure of the request is declared and acyclic; the result is then the closure, each target once and after its dependencies, grouped by the listed targets, and exactly the first occurrences when every listed target is written out after its dependencies in turn; otherwise the error names an undeclared or cyclic member, undeclared ones first |
| BuildOrder.LastNameCounts | internal/cli/scriptc_build.go:515-518 | Of several targets with one name the last counts |
| Globs.GlobExpression | internal/cli/scriptc_build.go:347-371 | The text built character by character is the anchored rendering of the pattern's fragments |
| Globs.EmitFragment | internal/cli/scriptc_build.go:350-369 | One round emits the first fragment of the rest of the pattern and moves past it |
| Globs.CompilerGlobMatches | internal/cli/scriptc_build.go:347-373 | With any engine that does what the text of an expression says, matching is the direct meaning of the glob |
| Globs.MatchesAnyCompilerInput | internal/cli/scriptc_build.go:338-345 | True exactly if some pattern's meaning accepts the path |
| Globs.TranslationPreservesMeaning | internal/cli/scriptc_build.go:347-373 | The emitted expression accepts a text if and only if the direct recursive reading of the glob does |
| Globs.AnchoredReads | internal/cli/scriptc_build.go:347-371 | Read as a regular expression, the emitted text is the fragments' expressions in turn: no literal can be read as an operator |
| Globs.StarMeaning | internal/cli/scriptc_build.go:352-363 | After plain text, a star stands for any stretch without a slash and a double star for any without a line break, whatever follows |
| Globs.QuestionMeaning | internal/cli/scriptc_build.go:364-365 | After plain text, a question mark stands for exactly one character other than a slash |
| Globs.DirectoriesMeaning | internal/cli/scriptc_build.go:354-358 | After plain text, a double star and slash stand for nothing or for any directories with their last slash |
| Globs.RenderInjective | internal/cli/scriptc_build.go:347-371 | Different fragments render differently |
| Globs.SoundEngineExists | internal/cli/scriptc_build.go:347-373 | There is such an engine |
| Globs.DepthIsKept | internal/cli/scriptc_build.go:347-373 | A pattern without a double star only matches texts with its own number of slashes |
| Globs.BelowDirectory | internal/cli/scriptc_build.go:347-373 | A plain path, slash and double star match exactly the newline-free texts below that path |
| Globs.AtAnyDepth | internal/cli/scriptc_build.go:347-373 | A double star and slash before a plain name match exactly that name below any directories |
| Artifacts.ReplaceArtifactAtomically | internal/cli/scriptc_build.go:425-439 | For every combination of failing operations, the file system goes through exactly the specified states and the result says whether publishing succeeded |
| Artifacts.SuccessClearsBackup | internal/cli/scriptc_build.go:425-439 | After a success nothing is left at the backup unless it could not be removed, and then exactly what was moved aside or a stale backup |
| Artifacts.InterruptionLosesExactlyWhen | internal/cli/scriptc_build.go:425-439 | In every state of a call, for every combination of faults: either the staged contents are at the output, or contents that were at the output or its backup survive there, unless in the exactly named cases |
| Artifacts.FailuresMove | internal/cli/scriptc_build.go:425-439 | Over any sequence of failing calls, with whatever is staged for each, the faults alone determine where given contents end up: at the output, only at the backup, or lost |
| Artifacts.FailuresLoseExactlyWhen | internal/cli/scriptc_build.go:425-439 | Without faults in the existence test, a sequence of failing calls loses the output's contents if and only if one call strands them at the backup and a later one removes it, with only stuck calls between |
| Artifacts.UnpublishableFail | internal/cli/scriptc_build.go:425-439 | Calls whose publishing rename fails all report failure |
| Artifacts.TwoFailuresCanLose | internal/cli/scriptc_build.go:425-439 | From any file system with an output, two calls that cannot publish lose it if the first cannot move it back |
| Artifacts.WriteFileAtomically | internal/cli/scriptc_build.go:414-423 | A nil return means that the path holds the contents; only whole files ever stand there; and after a failure any contents are where the faults of the replacement put them, or untouched if it was not reached |
| Routes.LeastPathUnique | internal/boundary/boundary.go:359-371 | There is only one least path to a file |
| Routes.AlongFollowsImports | internal/boundary/boundary.go:489-522 | A path starts at the seed and follows imports of the chosen kinds |
| Routes.ReachableIsClosure | internal/boundary/boundary.go:489-522 | The reachable files are the least set with the seed and whatever its members import by a run-time, or if asked type-only, relative import that resolves |
| Routes.LeastIsShortestAndSimple | internal/boundary/boundary.go:489-522 | A least route has minimal length and visits no file twice |
| ImportWalks.FollowImport | internal/boundary/boundary.go:514-518 | Queueing an import keeps the scan invariant, whether or not the seed may get a parent |
| ImportWalks.HeadIsLeast | internal/boundary/boundary.go:494-501 | The file about to be scanned was found by its least route |
| ImportWalks.DoneIsReachable | internal/boundary/boundary.go:494-521 | When the queue is empty, the scanned files are exactly the reachable ones |
| WalkOrder.WitnessMeaning | internal/boundary/boundary.go:489-522 | A witness path exists exactly for reachable files, and is the path of the least route |
| WalkOrder.WitnessIsShortestPath | internal/boundary/boundary.go:489-522 | A witness starts at the seed, ends at the file, follows imports, repeats no file and is as short as any |
| WalkOrder.ScanOrderUnique | internal/boundary/boundary.go:43-87 | There is one scan order for a graph and an entry |
| WalkOrder.ScanOrderDistinct | internal/boundary/boundary.go:54-58 | No file is scanned twice |
| Boundary.BuildFilePath | internal/boundary/boundary.go:359-371 | Climbing the parent map ends and gives the path that the map spells out |
| Boundary.ParentsSpellPath | internal/boundary/boundary.go:359-371 | At any time in a walk, the parent map spells out the path that found a file, even if it also holds a parent of the seed |
| Boundary.ReachablePathsFromSeed | internal/boundary/boundary.go:489-522 | The result has exactly the files reachable over the chosen import kinds, each with its witness path; the walk ends on every finite graph |
| TargetCheck.BuildPath | internal/boundary/boundary.go:373-388 | The reported path is the path the parent map spells out, followed by the package |
| TargetCheck.CheckTarget | internal/boundary/boundary.go:43-87 | The check scans the reachable files in scan order and makes exactly their reports in that order |
| TargetCheck.ReportsAreExact | internal/boundary/boundary.go:60-85 | It validates exactly the external run-time imports of reachable files, with the file's witness path, and reports exactly their run-time imports that do not resolve and their scanning problems |
| TargetCheck.ReportsInOrder | internal/boundary/boundary.go:54-85 | Reports come by file in scan order, a file's problems first and then its imports in order |
| Explain.FirstPathTo | internal/check/explain.go:121-152 | A path is found exactly if run-time imports reach the target, and it is the witness path |
| Explain.ExplainAgreesWithCheck | internal/check/explain.go:121-166 | On every graph, cycles to the entry included, an explanation exists exactly for the files the check scans and is the file path in every report made there |
| RuleMatches.BuildTransitiveRuleMatches | internal/boundary/boundary.go:398-436 | Each file's matches are the stable sort of one match per transitive rule and seed reaching it; files without matches are absent |
| RuleMatches.MatchesAreExact | internal/boundary/boundary.go:412-435 | A file is matched by exactly the transitive rules that reach it from a seed, with the witness path, in the order of pattern and seed |
| RuleMatches.MatchesKeepRuleOrder | internal/boundary/boundary.go:425-434 | Matches of one pattern and one seed keep the order of their rules |
| ShellWords.ReadDerives | internal/cli/migrate_command.go:1523-1573 | Every command is derived by the grammar of bare characters, escapes and quotes |
| ShellWords.DerivesUnique | internal/cli/migrate_command.go:1523-1573 | In only one way: the grammar is unambiguous |
| ShellWords.SimpleMeaning | internal/cli/migrate_command.go:1551-1568 | A command is simple exactly if some derivation closes every quote and escape and has no shell metacharacter outside them |
| ShellWords.SplitSimpleShellCommand | internal/cli/migrate_command.go:1523-1573 | The lexer returns the words and the simplicity of the command's one derivation |
| ShellWords.LineSplits | internal/cli/migrate_command.go:1523-1573 | However its arguments are quoted or escaped, a line splits into exactly the nonempty ones, and is simple exactly if they hold no bare metacharacter |
| ShellWords.QuotingRoundTrip | internal/cli/migrate_command.go:1523-1573 | Arguments written as they are, in single quotes or in double quotes (with a backslash before that quote and backslashes), in any mixture and separated by white space, come back exactly, except that empty ones are lost; the line is simple unless an operator stands outside quotes |
| KeyAllocation.TakenAtMost | internal/cli/migrate_command.go:1020-1027 | Distinct taken candidates are no more than there are keys, which bounds the search |
| KeyAllocation.SuffixIsFirstFree | internal/cli/migrate_command.go:1020-1027 | The suffix found is the first free one and at most the number of keys plus one |
| KeyAllocation.FreeCandidate | internal/cli/migrate_command.go:1020-1027 | The unbounded suffix loop ends with the first free candidate |
| KeyAllocation.MigrationIdentifierForPackage | internal/cli/migrate_command.go:1008-1028 | The key is the base unless another package holds it, else the first free candidate; only that key is added, and a collision is recorded exactly for candidates |
| KeyAllocation.WriteOnce | internal/cli/migrate_command.go:1014-1024 | A key, once given, stays with its package for the whole run |
| KeyAllocation.KeysNeverAlias | internal/cli/migrate_command.go:1008-1028 | In any run of allocations, equal keys mean equal packages |
| KeyAllocation.SameKeyAgain | internal/cli/migrate_command.go:1014-1019 | A package allocated twice gets the same key exactly if it got its base the first time |
| KeyAllocation.BaseIsGiven | internal/cli/migrate_command.go:1014-1019 | A package gets its base exactly if no other package was given that key before |
| KeyAllocation.KeyMeaning | internal/cli/migrate_command.go:1008-1028 | The key is the identifier, or `dependency` without one; where another package holds it, it is followed by the least number from 2 on that makes a free key |
| KeyAllocation.CollisionsAreExact | internal/cli/migrate_command.go:1020-1027 | Exactly the allocations that did not give the wished key are recorded |
| KeyAllocation.OnePackageTwoKeys | internal/cli/migrate_command.go:941-1006 | A package that shares its base with another, listed after it among the dependencies and again among the development dependencies, is emitted under two keys |
| KeyAllocation.MigrateDependencies | internal/cli/migrate_command.go:941-1006 | Emits peers and then the non-peers of the three other sections in order, with the keys that allocation in that order gives, and records exactly the dropped duplicates and the collisions |
| KeyAllocation.MigratedKeysNeverAlias | internal/cli/migrate_command.go:941-1006 | Two emitted dependencies with one key name one package |
| KeyAllocation.KeptOrDropped | internal/cli/migrate_command.go:958-962 | An entry is emitted exactly if it is listed and no peer; otherwise its name is recorded, and none is counted twice |
| KeyAllocation.EmitsExactly | internal/cli/migrate_command.go:941-1006 | Emitted are all peers, and of the other three sections exactly what is no peer; what needs attention is every dependency and every development dependency that is no known tool |
| KeyAllocation.EmitsInOrder | internal/cli/migrate_command.go:941-1006 | Peers come first, then dependencies, optional ones and development ones, each in listed order |
| AuditPages.PackageIndex | internal/audit/audit.go:403-410 | The first package with that name and version, or 0 |
| AuditPages.MergeResults | internal/audit/audit.go:267-279 | After a batch, what is collected or still pending is what was before, for every package and advisory |
| AuditPages.CollectIds | internal/audit/audit.go:254-280 | The loop ends for every service with finitely many pages, fails exactly if a batch does, and holds all pages' advisories for the first package of each name and version |
| AuditPages.AllIdsMeaning | internal/audit/audit.go:254-280 | A package's advisories are those on the pages that page tokens lead to from the first |
| AuditPages.DistinctLosesNothing | internal/audit/audit.go:254-280 | With distinct names and versions, every package gets the advisories of all its pages |
| AuditPages.RepeatedNamesLose | internal/audit/audit.go:268-272 | A second entry with the same name and version is reported clean although the service has an advisory for it |
| AuditPages.LosesNothingIff | internal/audit/audit.go:254-280 | The loop loses nothing from any service if and only if names and versions are pairwise distinct |
| AuditReport.NpmPackages | internal/audit/audit.go:389-401 | The first auditable entry of each ID, sorted by ID |
| AuditReport.AuditedOnce | internal/audit/audit.go:389-401 | Every auditable entry's ID is asked about exactly once, in the order of the IDs |
| AuditReport.WorseIsWeakOrder | internal/audit/audit.go:306-314 | The findings comparator is a strict weak order |
| AuditReport.FetchRecords | internal/audit/audit.go:281-293 | Fetching succeeds exactly if every collected advisory has a record, and holds the service's records |
| AuditReport.ScanLock | internal/audit/audit.go:219-316 | A report is made exactly if no batch and no record fails; it is the stable sort of one finding per package and collected advisory |
| AuditReport.FindingsAreExact | internal/audit/audit.go:295-314 | The findings are exactly the pairs of a package and an advisory collected for it, worst first, then by package and advisory |
| AuditReport.WorstComeFirst | internal/audit/audit.go:306-314 | Findings stand by severity from critical over high, moderate and low to unknown, then by package and by advisory |
| AuditReport.FindingsListedOnce | internal/audit/audit.go:262-305 | If records carry the ID asked for, no two findings have the same advisory, package and version, whatever packages are asked about |
| AuditReport.ReportIsComplete | internal/audit/audit.go:262-314 | With distinct names and versions besides, the report has exactly one finding for each package and advisory on any of its pages, in the promised order |
| AuditReport.PatchedIsReportedClean | internal/audit/audit.go:389-410 | A patched package beside its raw entry is reported clean whatever the service has for it |

## Left out

- Conflict messages and other display text.
- The loop bodies of the larger methods are separate methods here, and a loop's ghost companions (routes, readings, cuts) have no counterpart in the program.
- The map of effective entries and other Go maps are walked in an arbitrary order; results that depend on it are stated for every order.
- Go's stable sort is a library routine: an insertion sort stands for it, and `Orders.StableSortUnique` shows that any stable sort agrees.
- Concepts.DependencyDeclarations: requires the number of fragments and contributions to fit a 64-bit integer, as slice lengths do.
- Process launching, signals, HTTP and TCP probes, and clocks: whether the deadline has passed is a parameter; the model does not assume that every byte the child wrote is delivered.
- Locks: each observation of the matcher is one atomic step, which the mutex guarantees.
- The regular-expression engine, which is a parameter that does what expressions of the language in `Regexes` denote; bytes outside ASCII in globs.
- Path cleaning and slash conversion before globs and walks, and the boundary glob `MatchFrom`, whose matching seeds are a parameter.
- Files' imports come as sorted lists with their resolution decided: scanning, sorting and resolving imports are not modelled, and neither are the rule predicates that validate an external import.
- The type-boundary walk (`checkTargetTypeBoundaries`), which repeats the walk of the target check over a larger set of imports.
- How file operations fail inside the operating system: each operation either happens or not, as a parameter says.
- Deriving an identifier from a package name, and which tools are known, are parameters of the key allocation; the order of each section's names is given.
- The coverage part of the audit report, dependency paths, severity texts, fixed versions and references; the advisory client's transport.
- The order in which records are fetched, and which missing record is named when one cannot be fetched.
- Invalid UTF-8 in shell commands, which Go reads as replacement characters.
- Manifests, reports, flags, help texts and JSON, which are straight-line string building.

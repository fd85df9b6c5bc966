# Verified model of the fiia agent's audit package

fiia records what an Ansible run provisions on a node in a manifest and checks the
node against it. This project models the four parts of the audit package that carry
its logic and proves what they promise:

* **Playbook scanner.** A YAML document is a tree, the file system a map from
  absolute path to parse result. `Templates` spells out the pattern for template
  references as a leftmost, shortest scan; `Playbooks` says what one task manages;
  `Scan` is the traversal as a fold over leaf tasks; `Scanner` is the same traversal
  as the imperative object of the source, proved to compute the fold; `ScanOrigins`
  and `ScanTheorems` say what comes out and why; `ScanWritten` says it of playbooks as
  they are written, `ScanSilence` which tasks leave no trace, `ScanContexts` and
  `ScanTwice` what is lost when a file is used in two ways.
* **Worker pools.** `Pool` is one state machine of spawning, rendezvous, working,
  publishing (in or out of a mutex), closing, exiting and waiting, with every step
  of every goroutine interleaved. `FileChecks` and `FileIndexes` instantiate it.
* **Record, generate, check.** `Records` (index deltas merged into the tracked
  files), `Generation` (a manifest from live state), `Encoding` (the manifest as a
  JSON tree), `ManifestWriter` (installing it on disk), `Systems` (one verification),
  `LocalChecks` (the one-shot check against the daemon's).
* **Remediation.** `Remediation` is one enforcement pass, `RemediationReports` what it
  does and tells when commands fail, `AuditLoop` the loop around it, `Lifecycle` what
  recording, generating, checking and remediating mean for each other.

Reading guide to the modelling choices:

* The state of a scan maps each visited file to the variables of its first visit,
  because a later include of the same file is skipped whatever its variables are. Most
  statements about templated playbooks are relative to that map; those about
  template-free ones, and those of `ScanContexts`, are not.
* Outputs whose order follows Go's map iteration are stated as sets. The imperative
  scanner and the record methods take keys in an arbitrary order, so their contracts
  hold for every order.
* Warnings, deviations and notices are data, not text. Two warnings with different
  contents count as different.
* Commands that fail, refuse or do more than asked are part of the model: a `Faults`
  value for systemctl, and for the package manager an arbitrary function to the system it
  leaves, with its packages, files, units and whether packages can still be listed. An
  *obedient* manager removes what it is asked to, possibly more (as `apt-get autoremove`
  does), may take files and running units along, and installs nothing; an *exact* one
  removes what it is asked to and changes nothing else.
* The methods that use a worker pool take its schedule: any run of `Pool` from start to
  end. `Pool.RunCanComplete` shows that each run that has begun has such an end.
* How writing a manifest ends is a phase of `ManifestWriter`, and generating and recording
  take it as an input: by `ManifestWriter.WriteIsAtomic` it decides which content is there.
* The walk and `stat` look at one map from path, as spelled, to node; the content hash of
  a file is an uninterpreted non-empty string.
* Loops and objects of the source are methods and classes here; each is tied by its
  contract to a function whose properties are proved separately.

Where code and documentation disagree, the model follows the code:

* The scanner's documentation says unresolvable items, `unarchive` members among them,
  are never silently dropped. `unarchive` is not among the file modules, so it adds
  nothing to what a scan makes of a task (`ScanSilence.UnarchiveIsSilent`), and the branch
  for it is dead code that the model leaves out. A path argument that is not a text, such
  as a number, is dropped as well (`ScanSilence.NumberIsSilent`), and so are the calls
  beside an include or a block (`ScanSilence.IncludeHides`, `ScanSilence.BlockHides`).
  `ScanSilence.SilentIff` says exactly which leaf tasks leave no trace.
* Against the same promise, a file that is included again under other variables is
  skipped without a warning, with all it would manage under them
  (`ScanTwice.SecondUseIsLost`). `ScanContexts.CoversContextsIff` says exactly when every
  use of every file is covered.
* The summary of a remediation pass is documented as what the pass changed. A stop or
  disable that fails is reported as done, and disabling an unauthorized service is not
  reported; `RemediationReports.ReportIsTrueIff` says exactly when the summary is true.
* The one-shot check is documented to match what the daemon would emit. It always uses
  the default check set and the full mode, so it does so for every system exactly under
  the settings that `LocalChecks.LocalMatchesIff` names.
* A failing chmod makes writing a manifest report an error after the new manifest has
  been installed (`ManifestWriter.FailedChmodInstalls`).

Findings that are true of the code only under a condition come with that condition:
safe substitution (`Templates.SubstituteSafeIff`), silent tasks (`ScanSilence.SilentIff`),
files used in two ways (`ScanContexts.CoversContextsIff`), true remediation summaries
(`RemediationReports.ReportIsTrueIff`), local checks (`LocalChecks.LocalMatchesIff`),
monotonicity of configured check sets (`FileChecks.ConfiguredMonotoneIff`), agreement of
the fast and the full check (`FileChecks.FastEqualsFullIff`), fusing record cycles
(`Records.FusedCyclesAgreeIff`), a clean check after remediation
(`Remediation.CleanAfterPassIff`, `AuditLoop.CleanAfterWholePassIff`), a quiet second
pass (`AuditLoop.SecondPassEmptyIff`) and a loop that comes to rest
(`AuditLoop.LoopConvergesIff`).

## Model

| member | source | states |
|---|---|---|
| Templates.SpanLenIsShortest | internal/agent/audit/scan.go:303-305 | the scan finds at a position exactly the shortest match of the pattern that starts there, and none if there is none |
| Templates.HasTemplateIffSpan | internal/agent/audit/scan.go:305 | a string counts as templated exactly when the pattern matches somewhere in it |
| Templates.SubstituteLeavesUnbound | internal/agent/audit/scan.go:307-316 | when no value pulled in can open a reference, the references of the result are exactly the unbound ones of the input, in order and unchanged |
| Templates.CannotOpenIff | internal/agent/audit/scan.go:303 | a value cannot open a reference, a condition on its braces and newlines, exactly when it never changes what is found in the text behind it |
| Templates.SubstituteSafeIff | internal/agent/audit/scan.go:307-316 | the references of the result are the unbound ones for all strings exactly when no value that a reference can name can open one |
| Templates.SubstituteIdempotent | internal/agent/audit/scan.go:307-316 | when no value pulled in can open a reference, a second substitution changes nothing |
| Templates.SubstituteResolvesIff | internal/agent/audit/scan.go:305-316 | under the same condition a template survives exactly when some reference names no variable; what a reference names, white space around the name aside, is `SpacedReference` |
| Templates.SubstituteTemplateFree | internal/agent/audit/scan.go:307-316 | a template-free string is left alone |
| Templates.OpenBraceMakesTemplate | internal/agent/audit/scan.go:307-316 | the condition matters: a one-brace value forms a new reference with the text behind it |
| Templates.TrimSpace | internal/agent/audit/scan.go:310 | a trimmed name neither starts nor ends with white space |
| Templates.TrimSpaceExact | internal/agent/audit/scan.go:310 | trimming drops white space at both ends and nothing else |
| Templates.SpaceIsUnicode | internal/agent/audit/scan.go:310 | white space is what Unicode counts as such |
| Templates.SpacedReference | internal/agent/audit/scan.go:303-316 | a reference written with any white space around its name stands for the value of that name, and stays as written when there is none |
| Templates.LiteralFirst | internal/agent/audit/scan.go:307-316 | text without an opening brace stays in front of whatever follows |
| Text.ContainsIff | internal/agent/audit/scan.go:283 | a text contains another exactly when it occurs at some position |
| Text.ReplaceAllFirst | internal/agent/audit/scan.go:294 | text in front of the first occurrence stays, that occurrence is replaced, and so on behind it |
| Paths.CleanIdempotent | internal/agent/audit/scan.go:51-58 | cleaning twice is cleaning once, so lexically different spellings of a file share one visited key |
| Paths.CleanIsCanonical | internal/agent/audit/scan.go:51 | a visited key is "/" or consists of proper names, without empty, "." and ".." segments |
| Paths.CleanFixesIff | internal/agent/audit/scan.go:51 | a rooted path is its own key exactly when it is of that form |
| Paths.JoinIgnoresSpelling | internal/agent/audit/scan.go:174-176 | what a relative include resolves to does not depend on how the including directory is spelled |
| Paths.JoinName | internal/agent/audit/scan.go:174-176 | a name joined to a clean directory is the path of the directory, a slash and the name; in the root directory the slash and the name |
| Paths.DirOfChild | internal/agent/audit/scan.go:69 | the directory of what lies in a directory is that directory, and of what lies in the root the root |
| Paths.JoinUp | internal/agent/audit/scan.go:174-176 | a step up undoes a step down |
| Paths.JoinUpAtRoot | internal/agent/audit/scan.go:174-176 | at the root a step up leads nowhere |
| Paths.JoinStays | internal/agent/audit/scan.go:174-176 | a dot and an additional slash lead nowhere |
| Paths.CleanAnyLeadsThere | internal/agent/audit/record.go:38 | cleaning a path, rooted or not, does not change where it leads from any working directory |
| Playbooks.LastFileWins | internal/agent/audit/scan.go:123-142 | a variable gets its value from the last usable vars file that defines it as a scalar |
| Playbooks.UndefinedIsKept | internal/agent/audit/scan.go:123-142 | unusable vars files, and those that do not define a variable, leave it as it was |
| Playbooks.ExpandPath | internal/agent/audit/scan.go:278-301 | the result is one unresolved marker or a non-empty list of absolute template-free paths |
| Playbooks.ExpandItems | internal/agent/audit/scan.go:292-300 | one path per loop item, in order |
| Playbooks.CreatesArgIsFirst | internal/agent/audit/scan.go:27 | the word captured is the whole word of the leftmost match of the pattern, and nothing is captured only when the pattern matches nowhere |
| Scan.ScanFile | internal/agent/audit/scan.go:50-96 | terminates on every store, self-including and mutually including files among them; visited files stay visited |
| Scan.ScanLeaves | internal/agent/audit/scan.go:146-196 | terminates together with the file scan by unvisited files, then remaining tasks |
| Scan.ScanFileProgress | internal/agent/audit/scan.go:50-96 | each newly visited file has its includes followed, its paths recorded and its warnings issued, and no other file is recorded |
| Scan.ScanLeavesProgress | internal/agent/audit/scan.go:146-196 | the same for a list of leaf tasks, whose own paths, warnings and includes are all accounted for, and no other file is recorded |
| ScanOrigins.ScanIsSound | internal/agent/audit/scan.go:35-96 | each visited file is a root scanned without variables, or at the end of a chain of includes from one, scanned under the variables in force at the include; each warning is due to a visited file or names an include of one whose target does not load |
| ScanTheorems.ScanIsExact | internal/agent/audit/scan.go:35-96 | for any include graph and any templates: the visited set is the least one containing the roots and closed under the includes as resolved at first visit, the files are exactly those its members manage, and the variables of a first visit are those of a chain of includes from a root |
| ScanTheorems.ScanIsStaticClosure | internal/agent/audit/scan.go:35-96 | no template-free include or path of a visited file is missed; with no templated include in a visited file the visited set is the least closed one, with no templated path in one the output is the union of the managed paths |
| ScanTheorems.ScanDropsNothing | internal/agent/audit/scan.go:29-34 | under the variables of its first visit, each path reference of a task of a visited file ends in the files or in the warnings, dynamic includes and unusable vars files are warned about, and each visited file that did not load is named in a warning |
| ScanContexts.CoversContextsIff | internal/agent/audit/scan.go:55-58 | a scan visits each file in every way the playbooks use it, along all chains of includes from the roots, exactly when they use no file under two different variables |
| ScanContexts.ManagedFilesReturned | internal/agent/audit/scan.go:55-58 | whatever is returned is managed in some use of a file; with no file used in two ways everything that is so managed is returned |
| ScanTwice.SecondUseIsLost | internal/agent/audit/scan.go:55-58 | a playbook that includes the same tasks with two different destinations: the second is neither returned nor warned about |
| ScanTwice.SecondDestinationIsLost | internal/agent/audit/scan.go:55-58 | the same at one input |
| ScanTheorems.RefNeverDropped | internal/agent/audit/scan.go:211-232 | one path reference gives files or a warning, never both and never neither |
| ScanTheorems.ScannedFilesPlain | internal/agent/audit/scan.go:281-300 | every path returned is absolute and template-free |
| ScanTheorems.ScanFailsIff | internal/agent/audit/scan.go:38-42 | a scan fails exactly at a root that does not load and was not reached earlier as an include |
| ScanTheorems.LoadableRootsScan | internal/agent/audit/scan.go:38-42 | when all roots load the scan succeeds |
| ScanSilence.SilentIff | internal/agent/audit/scan.go:167-276 | a leaf task yields neither files nor warnings of its own exactly when it includes a file that can be followed, or includes none and each of its file modules has a mapping with no non-empty text under its path arguments and no absent state, and a command among its keys comes without created and removed paths |
| ScanSilence.IncludeHides | internal/agent/audit/scan.go:167-181 | beside an include no key but the name changes what a scan makes of a task |
| ScanSilence.BlockHides | internal/agent/audit/scan.go:155-165 | beside the sections of a block no key but its variables changes which leaf tasks it has |
| ScanSilence.UnarchiveIsSilent | internal/agent/audit/scan.go:17-25 | taking an unarchive key, short or fully qualified, out of any leaf task changes neither its files nor its warnings nor its includes, against the documented promise |
| ScanSilence.TextlessIsSilent | internal/agent/audit/scan.go:211-215 | a task made only of calls without a text among their arguments yields neither files nor warnings |
| ScanSilence.NumberIsSilent | internal/agent/audit/scan.go:211-215 | a copy whose destination is a number yields neither files nor warnings |
| ScanTheorems.FileLeavesTasks | internal/agent/audit/scan.go:146-165 | which leaf tasks a file has does not depend on the variables it is scanned under |
| ScanWritten.TaskScannedIff | internal/agent/audit/scan.go:69-96 | the leaf tasks of a file are exactly the mappings it is written to hold: in a bare task list, or in the four sections of its plays, at any depth of block, rescue and always; a document that does not load holds none |
| ScanWritten.WrittenInFile | internal/agent/audit/scan.go:146-165 | each such task is scanned, with the variables it gives itself before any it inherits |
| ScanWritten.RelativeIncludeEdge | internal/agent/audit/scan.go:168-178 | a relative template-free include in a file leads to where the directory of that file and it join, and nowhere else |
| ScanWritten.IncludeBeside | internal/agent/audit/scan.go:174-176 | a name included from a file in a directory is the file of that name in the same directory |
| ScanWritten.IncludeIsVisited | internal/agent/audit/scan.go:168-181 | no visited file loses a file it includes from its own directory, under any of the four include keys |
| ScanWritten.BadIncludeIsWarned | internal/agent/audit/scan.go:60-80 | the first include of a file that does not load is warned about with its path and the reason: not readable, not parsed, or neither list nor mapping |
| ScanWritten.RootIsVisited | internal/agent/audit/scan.go:50-58 | a root is known by its path, a relative one by its path from the working directory |
| ScanWritten.WrittenPathIsReturned | internal/agent/audit/scan.go:15-25 | each absolute template-free path that a task of a visited file is written to manage is returned, for every file module and path argument, short or with its collection, at any depth and whatever else the playbooks hold |
| ScanWritten.WrittenCreatesIsReturned | internal/agent/audit/scan.go:237-266 | the same for the path a command is written to create |
| ScanWritten.CreatesIsRead | internal/agent/audit/scan.go:27 | the word behind `creates=` in a command line is found, up to the next space, tab, line end or form feed |
| ScanWritten.WrittenLineIsReturned | internal/agent/audit/scan.go:237-275 | and when it is an absolute template-free path it is returned |
| ScanWritten.ReferringExpands | internal/agent/audit/scan.go:281-288 | a path with a reference to a variable stands for the one with the value in its place |
| ScanWritten.ReferringPathIsReturned | internal/agent/audit/scan.go:146-196 | a variable that a task gives itself is put into the paths it manages, and these are returned |
| ScanWritten.ItemExpands | internal/agent/audit/scan.go:281-301 | a path that refers to the loop item stands for one path per item; without items it is unresolved |
| ScanWritten.LoopIsRead | internal/agent/audit/scan.go:342-355 | a loop gives its scalar items, and `with_items` gives them where there is no loop |
| ScanWritten.LoopIsDynamic | internal/agent/audit/scan.go:342-355 | without a list, or with one element that is no scalar, there are no items |
| ScanWritten.LoopPathsAreManaged | internal/agent/audit/scan.go:146-196 | each path of a loop is managed, in either spelling of the loop |
| ScanWritten.VarsFileIsRead | internal/agent/audit/scan.go:123-142 | a vars file is found beside the playbook by its name, or at its absolute path however spelled, and gives its scalars |
| ScanWritten.MissingVarsFileIsWarned | internal/agent/audit/scan.go:127-131 | one that is not there is warned about by the path it was looked for under |
| ScanWritten.PlayVarIsRead | internal/agent/audit/scan.go:112-144 | a play gives a variable the value of the last usable vars file that has it, else its own |
| ScanWritten.RelativePathIsWarned | internal/agent/audit/scan.go:216-220 | a relative path is warned about with its argument and text, under the name of its task |
| ScanTheorems.PlainPathExpands | internal/agent/audit/scan.go:281-288 | a template-free path stands for itself when absolute and is unresolved otherwise, whatever variables and loop there are |
| Scanner.Expand | internal/agent/audit/scan.go:281-301 | the loop computes the specified expansion, stopping at the first item that does not resolve |
| Scanner.MergeVars | internal/agent/audit/scan.go:368-377 | the later mapping wins, for any iteration order |
| Scanner.CopyScalars | internal/agent/audit/scan.go:114-122 | exactly the scalar entries are copied over, for any iteration order |
| Scanner.CommandLines | internal/agent/audit/scan.go:237-248 | finds whether a command key is present and exactly the one-line commands |
| Scanner.ScanLeavesAppend | internal/agent/audit/scan.go:156-165 | nested sections scanned one after the other equal the flat fold over their leaves |
| Scanner.ScanLeavesWarn | internal/agent/audit/scan.go:90-92 | warnings already issued never influence what is scanned |
| Scanner.PlaybookScanner.PlayVarsOf | internal/agent/audit/scan.go:112-144 | the play's variables with later vars files winning, and a warning for each unusable file |
| Scanner.PlaybookScanner.Collect | internal/agent/audit/scan.go:216-230 | records exactly the paths and warnings of one path reference |
| Scanner.PlaybookScanner.ScanModuleArgs | internal/agent/audit/scan.go:198-233 | the first present argument decides; a non-mapping and an absent state are warned about |
| Scanner.PlaybookScanner.ScanModules | internal/agent/audit/scan.go:183-191 | all file modules of a task are recorded, the same for every key order |
| Scanner.PlaybookScanner.ScanCommandCreates | internal/agent/audit/scan.go:235-276 | the created paths of a command task are recorded and a removes path is warned about |
| Scanner.PlaybookScanner.ScanBlocks | internal/agent/audit/scan.go:155-165 | block, rescue and always are scanned in turn, and only then is the task nested |
| Scanner.PlaybookScanner.ScanInclude | internal/agent/audit/scan.go:167-181 | a relative include is taken from the directory of the including file, a templated one and a failing one are warned about, any other is scanned; which file that is, is `ScanWritten.IncludeBeside` |
| Scanner.PlaybookScanner.ScanTaskList | internal/agent/audit/scan.go:146-196 | the nested traversal computes the fold over the leaf tasks |
| Scanner.PlaybookScanner.Load | internal/agent/audit/scan.go:60-78 | a file is handed to the file system when it was not before, which completes its visit |
| Scanner.PlaybookScanner.ScanFile | internal/agent/audit/scan.go:50-96 | computes the specified scan of a file; the visited files stay those handed to the file system, each once |
| Scanner.ScanPlaybooks | internal/agent/audit/scan.go:35-44 | fails where the specified scan fails; otherwise returns its files and warnings without repeats |
| Sequences.Dedupe | internal/agent/audit/scan.go:425-437 | keeps the first occurrence of each element |
| Sequences.FirstOccurrences | internal/agent/audit/scan.go:425-437 | same elements, no repeats |
| Sequences.FirstOccurrencesOrdered | internal/agent/audit/scan.go:425-437 | elements come in the order of their first occurrences |
| Pool.BoundedWorkers | internal/agent/audit/manifest.go:275-289 | at least one worker, at most one per item and per processor, and as many as those allow |
| Pool.StepInv | internal/agent/audit/manifest.go:250-264 | every step of any goroutine keeps the pool's invariant and strictly decreases its measure |
| Pool.PoolCompletes | internal/agent/audit/manifest.go:242-264 | every interleaving can go on until it is done, is bounded in length, and ends with each job published exactly once |
| Pool.RunCanComplete | internal/agent/audit/manifest.go:242-264 | however a run has begun, it can be carried on to its end |
| Pool.DeadlockFreeIff | internal/agent/audit/manifest.go:275-289 | the pool can block exactly when there are jobs and no worker |
| Pool.WorkersDisjoint | internal/agent/audit/record.go:57-81 | two workers never hold the same job, no job is redone, and at most one worker is inside the mutex |
| FileChecks.CheckFilePassesIff | internal/agent/audit/manifest.go:291-338 | exactly when an entry passes |
| FileChecks.CheckFileIssueIff | internal/agent/audit/manifest.go:295-338 | exactly when each issue is the one reported for an entry |
| FileChecks.RecordedPassesIff | internal/agent/audit/manifest.go:295-338 | a recorded file passes later exactly when what is compared agrees with what was there at recording: mode, size and time when in the check set, the content unless the fast mode trusts size and time |
| FileChecks.CheckInOrderMembers | internal/agent/audit/manifest.go:266-273 | the deviations reported are those of the single entries, each under its path |
| FileChecks.CheckFilesAnyInterleaving | internal/agent/audit/manifest.go:240-273 | every interleaving of the check pool ends with the deviations of checking the files one by one, each slot written once |
| FileChecks.CollectDeviations | internal/agent/audit/manifest.go:266-273 | the slots that hold an issue, labelled, in file order |
| FileChecks.CheckFiles | internal/agent/audit/manifest.go:242-273 | the pool under any schedule, and its slots collected, give the deviations of checking the files one by one |
| FileChecks.FastIsSubsequence | internal/agent/audit/manifest.go:317-324 | the fast check reports a subsequence of the full check with identical labels |
| FileChecks.FastEqualsFullIff | internal/agent/audit/manifest.go:317-324 | both agree exactly when each file whose hash is skipped is readable and has the recorded hash |
| FileChecks.CheckSetMonotone | internal/agent/audit/manifest.go:310-335 | a larger check set flags at least the same entries |
| FileChecks.ConfiguredMonotoneIff | internal/agent/audit/manifest.go:190-193 | for configured sets this holds exactly unless the smaller is empty and the larger neither empty nor with mode |
| FileIndexes.WalkIsUnder | internal/agent/audit/record.go:34-51 | the walk of a root finds exactly the regular files under the paths that names listed in open directories spell behind the cleaned root, slashes between them |
| FileIndexes.WalkIgnoresSpelling | internal/agent/audit/record.go:38-51 | a directory given as a root in two spellings is walked to the same paths, so overlapping roots share their keys |
| FileIndexes.CollectEntries | internal/agent/audit/record.go:33-55 | the entries of all non-empty roots in order |
| FileIndexes.BuildIndexAnyInterleaving | internal/agent/audit/record.go:25-89 | on a fixed file system every interleaving, with any overlap of the roots, gives the readable regular files under them with their attributes |
| FileIndexes.BuildFileIndex | internal/agent/audit/record.go:25-89 | the walk and then the pool on any schedule give the index of the roots: the readable regular files at those paths, with their attributes |
| FileIndexes.FileIsIndexed | internal/agent/audit/record.go:38-52 | what a directory lists is indexed exactly when it is a readable regular file and no link, under the directory's path, a slash and the name: in the root directory only the slash, in the working directory the name alone |
| FileIndexes.WritesAreGuarded | internal/agent/audit/record.go:76-78 | the map changes only when a worker that holds the mutex publishes |
| FileIndexes.IndexedPathsNonEmpty | internal/agent/audit/record.go:34-37 | an index never has an empty path |
| Records.DiffIsLeastPatch | internal/agent/audit/record.go:121-138 | the delta rebuilds the later index from the earlier, no smaller set does, and it is empty exactly when they are equal |
| Records.DiffIndexes | internal/agent/audit/record.go:121-138 | the delta, strictly sorted, for every iteration order |
| Records.ListingUnique | internal/agent/audit/record.go:196-200 | only one file list fits what is tracked, so map order cannot show |
| Records.ListingTracks | internal/agent/audit/record.go:183-200 | reading a written file list back gives what was tracked |
| Records.Recorder.RecordBegin | internal/agent/audit/record.go:151-161 | what is saved are exactly the readable regular files under the roots with their attributes, whatever the schedule, and the count is theirs |
| Records.Recorder.RecordEnd | internal/agent/audit/record.go:163-209 | merges what changed under the roots since the saved index into the tracked files; the package and service snapshots become the listings of the system, or empty where listing fails; declared packages and services and the schema stay, and the time is now; the counts add up to the delta with added counting the paths present; without a saved index, or when the write fails before the rename, the manifest stays |
| Records.ApplyDelta | internal/agent/audit/record.go:187-195 | the loop over the delta computes the merge and both counts |
| Records.TrackedIsLastChange | internal/agent/audit/record.go:183-200 | after any cycles a path is tracked as the last cycle that changed it left it, or not at all |
| Records.DriftIsNotAdopted | internal/agent/audit/record.go:121-138 | cycles that leave a path alone leave its entry alone, however it moved between them |
| Records.UnbrokenIsCurrent | internal/agent/audit/record.go:183-200 | a tracked path that nothing happened to between the cycles is tracked as the last cycle found it |
| Records.RecordingTracks | internal/agent/audit/record.go:167-209 | the file lists written one after the other are exactly what the history says is tracked |
| Records.FusedCyclesAgreeIff | internal/agent/audit/record.go:121-138 | one cycle in place of two gives the same entry exactly on the fused delta, off the first delta, or where the entry was already final |
| Orders.StrictListingUnique | internal/agent/audit/record.go:136-200 | a set has one strictly increasing listing |
| Orders.SortSorts | internal/agent/audit/record.go:136-200 | sorting sorts |
| Orders.SortedUnique | internal/agent/audit/generate.go:54-56 | there is one sorted list of given elements |
| Orders.BelowIff | internal/agent/audit/record.go:136-200 | the order sorted by is the lexicographic one: a proper prefix, or the smaller character where two texts first differ |
| Systems.OutsideMembers | internal/agent/audit/manifest.go:74-87 | exactly the listed elements outside the allowed ones, as a subsequence of the listing |
| Systems.UnauthorizedSet | internal/agent/audit/manifest.go:74-87 | the loop computes that list |
| Systems.CheckPackages | internal/agent/audit/manifest_linux.go:54-77 | the deviations of the declared packages in order |
| Systems.CheckServices | internal/agent/audit/manifest_linux.go:101-166 | the deviations of the declared services in order, by exit code |
| Systems.CheckUnauthorized | internal/agent/audit/manifest_linux.go:168-213 | entries outside a non-empty snapshot are flagged; an empty snapshot or a failing listing disables the check |
| Systems.RunManifest | internal/agent/audit/manifest.go:162-209 | clean exactly when no part finds a deviation, drift with all of them in order otherwise, no manifest when none loads, under any schedule of the file pool |
| Systems.DeviationsIff | internal/agent/audit/manifest_linux.go:56-213 | a verification reports exactly the deviations there are, each kind for its own reason: a package is missing or has another version than the declared one, a service that should run or be enabled is not, systemctl refuses to tell, an installed package or active service is outside a non-empty snapshot, a file has its issue |
| Systems.CheckLocal | internal/agent/audit/local.go:15-29 | the one-shot check is the verification with the default check set in full |
| LocalChecks.LocalMatchesIff | internal/agent/audit/local.go:15-18 | it matches a daemon on every system and manifest exactly when the daemon runs in full and its check set holds mode and neither size nor mtime |
| Systems.PackagesCleanIff | internal/agent/audit/manifest_linux.go:56-77 | no package deviation exactly when each declared package passes |
| Systems.ServicesCleanIff | internal/agent/audit/manifest_linux.go:101-134 | no service deviation exactly when each declared service passes |
| Systems.UnlistedEmptyIff | internal/agent/audit/manifest_linux.go:171-213 | exactly when nothing is unauthorized |
| Remediation.RemovedPackagesExact | internal/agent/audit/remediate_linux.go:63-77 | whatever the manager did, the report is exactly the installed entries outside the snapshot that are gone, in listing order |
| Remediation.Reconcile | internal/agent/audit/remediate_linux.go:67-77 | the entries a second listing no longer shows |
| Remediation.Machine.RemediatePackages | internal/agent/audit/remediate_linux.go:36-78 | asks once for everything unauthorized to go, and only if there is something and the listing works; the system is then as the manager leaves it, and the report is the reconciled one when the second listing works |
| Remediation.Machine.RemediateServices | internal/agent/audit/remediate_linux.go:80-120 | the loops compute the specified pass, failing commands included |
| Remediation.Machine.EnforceService | internal/agent/audit/remediate_linux.go:94-119 | one declared service is started or stopped, then enabled or disabled, as specified |
| Remediation.Machine.Remediate | internal/agent/audit/remediate_linux.go:29-34 | packages first, then services, in one report: the exact new system for any manager and failing commands |
| Remediation.ServicesAfterPass | internal/agent/audit/remediate_linux.go:82-120 | the exact state of every service after a pass whose commands succeed |
| Remediation.CleanAfterPassIff | internal/agent/audit/manifest_linux.go:116-134 | the service check after a pass is clean exactly under a condition on the manifest |
| Remediation.CleanAfterPassDistinct | internal/agent/audit/manifest_linux.go:116-134 | with distinct names: exactly when every declared-running service is in the snapshot or the snapshot is empty |
| Remediation.QuietIffSettled | internal/agent/audit/remediate_linux.go:82-120 | a pass reports nothing exactly on a settled system, which it leaves unchanged |
| Remediation.SettledAfterPassIff | internal/agent/audit/remediate_linux.go:82-120 | one pass settles the services exactly when the manifest is stable |
| Remediation.PassRestarts | internal/agent/audit/remediate_linux.go:86-101 | an active must-run service outside the snapshot is stopped and started by the same pass |
| Remediation.AbsentSystemctlKeeps | internal/agent/audit/remediate_linux.go:80-120 | where there is no systemctl a pass over the services does and reports nothing |
| Remediation.PassKeepsDistinct | internal/agent/audit/remediate_linux.go:80-120 | a pass never lists a unit twice, whichever commands fail and whichever queries are refused |
| RemediationReports.ServicesAfterFaultyPass | internal/agent/audit/remediate_linux.go:82-120 | the exact state of every service after a pass whichever commands fail: stuck after the first turn where only one way works, as it was where none does |
| RemediationReports.ReportIsTrueIff | internal/agent/audit/manifest.go:31-35 | the report is what an observer of the units sees change exactly when no reported stop or disable failed, no unit is listed twice, and no unauthorized service got disabled |
| RemediationReports.ReportHidesDisables | internal/agent/audit/remediate_linux.go:86-90 | with working commands: exactly when no unauthorized service was enabled |
| AuditLoop.RunPass | internal/agent/audit/remediate_linux.go:29-34 | a run of the machine whose commands succeed changes the system and reports exactly as the pass that the loop results are about, for any manager |
| AuditLoop.CleanAfterWholePassIff | cmd/agent/main.go:477-494 | for any obedient manager the check after a pass is clean exactly when files are intact and declared packages as recorded once the manager is done, and services can be brought in line |
| AuditLoop.ExactConvergesIff | internal/agent/audit/remediate_linux.go:42-78 | for an exact manager that condition can be read off beforehand: declared packages are installed as recorded and listed in the snapshot |
| AuditLoop.PassEmptyIff | internal/agent/audit/manifest.go:44-51 | a pass reports nothing exactly when no package went away and the services were settled |
| AuditLoop.SecondPassEmptyIff | internal/agent/audit/manifest.go:44-51 | a second pass is empty exactly when the declared services are stable, for any manager that removes at least what it is asked to |
| AuditLoop.LoopConvergesIff | cmd/agent/main.go:199-226 | for any obedient manager every verdict after the first is clean exactly when the first is or the condition holds: one drift verdict at most, or drift for ever |
| AuditLoop.ConvergentDrift | cmd/agent/main.go:199-226 | under the condition the first verdict holds only unauthorized packages and service states, but for files when the manager changes files and a version mismatch of a package installed twice |
| AuditLoop.ConvergentDriftExact | cmd/agent/main.go:199-226 | with an exact manager there are no such exceptions |
| AuditLoop.LoopOnlyWatches | cmd/agent/main.go:214-218 | without remediation the loop changes nothing and repeats its verdict |
| AuditLoop.OffenderRestartsForever | cmd/agent/main.go:199-226 | with a declared-running service missing from a non-empty snapshot every verdict is drift, and from the second tick on it flags the service, which each pass stops and starts |
| AuditLoop.CheckAndRemediate | cmd/agent/main.go:459-495 | the one-shot re-check is clean exactly under the same condition, for any obedient manager |
| AuditLoop.Agent.AuditTick | cmd/agent/main.go:207-219 | the verdict is that of the system before the remediation it triggers; a clean tick and a tick without remediation leave the system as it was, and a file changes only by what the package manager does |
| AuditLoop.Agent.RunAuditLoop | cmd/agent/main.go:201-226 | any number of ticks, each under any schedule of the file pool, emits the specified verdicts |
| Encoding.SaveLoad | internal/agent/audit/manifest.go:223-238 | loading what was saved gives the manifest back with empty snapshots as nil, for schema 1 only |
| Encoding.FileRoundTrip | internal/agent/audit/manifest.go:129-136 | a file entry survives omitted zero values |
| Encoding.ManifestsEqualIff | internal/agent/audit/generate.go:170-183 | the comparison sees everything but the time and nil against empty snapshots |
| Encoding.SavedComparesEqual | internal/agent/audit/generate.go:59-64 | what is on disk compares equal to the same manifest generated at any time |
| Encoding.NilIsNotEmpty | internal/agent/audit/generate.go:170-183 | for declared lists nil and empty compare different |
| Encoding.MistypedIsRejected | internal/agent/audit/manifest.go:223-238 | what loads is an object, and none of its known fields has a value of another type |
| Encoding.MistypedEntryIsRejected | internal/agent/audit/manifest.go:223-238 | nor does an entry of one of its lists |
| Encoding.EntryFieldsAreTyped | internal/agent/audit/manifest.go:129-148 | nor a field of such an entry |
| ManifestWriter.StepInv | internal/agent/audit/generate.go:72-94 | every step, failing or partial, keeps the destination complete |
| ManifestWriter.WriteIsAtomic | internal/agent/audit/generate.go:72-94 | stopped anywhere, the destination holds the complete old or new content, the new one exactly after the rename; no third file changes |
| ManifestWriter.FailedChmodInstalls | internal/agent/audit/generate.go:87-93 | an error from the last step leaves the new content installed |
| ManifestWriter.EndIff | internal/agent/audit/generate.go:73-94 | a write is over exactly when it succeeded or failed; until then every step can fail and is blamed for it |
| Generation.SplitCSVMembers | cmd/agent/main.go:366-374 | the pieces are non-empty, trimmed and free of commas |
| Generation.SplitList | cmd/agent/main.go:366-374 | the loop computes the specified pieces |
| Generation.ParseSpecIff | internal/agent/audit/generate.go:22-32 | a text parses to a spec exactly when it is that spec written out with a non-empty name |
| Generation.CollectFiles | internal/agent/audit/generate.go:96-120 | an entry per regular readable file and a notice for every other path |
| Generation.CollectPackages | internal/agent/audit/generate.go:122-138 | one entry per spec, of the same name and in the same order: a pinned version is kept, else it is the one installed, and empty when the package is absent, with a notice |
| Generation.CollectServices | internal/agent/audit/generate.go:140-159 | an entry per service with its actual state, with notices |
| Generation.FileNoticesMembers | internal/agent/audit/generate.go:96-120 | exactly the paths that are no regular file, and those that cannot be read, are noticed, each with its reason |
| Generation.PackageNoticesMembers | internal/agent/audit/generate.go:122-138 | exactly the declared packages that are not installed are noticed |
| Generation.ServiceNoticesMembers | internal/agent/audit/generate.go:140-159 | exactly the services not confirmed as active, or as enabled, are noticed |
| Generation.Generator.GenerateManifest | internal/agent/audit/generate.go:34-70 | installs the generated manifest unless the write fails before the rename, reports that failure, and compares with what was loadable before |
| Generation.RegenerateUnchanged | internal/agent/audit/generate.go:59-64 | once a generated manifest is installed, regenerating from an unchanged system reports no change, however that write ends |
| Generation.FreshManifestChecksClean | internal/agent/audit/generate.go:40-70 | generated, saved and loaded, the manifest checks clean on the unchanged system but for declared packages absent or pinned to another version |
| Generation.SnapshotIgnoresOrder | internal/agent/audit/generate.go:52-57 | a snapshot does not depend on the order in which the system lists what is there |
| Generation.ReachableWellFormed | internal/agent/audit/manifest.go:295-297 | every manifest reachable by generations, scanned playbooks included, and record cycles in any mix keeps the checker's assertions and loads again |
| Generation.RecordedEntryChecksClean | internal/agent/audit/record.go:140-149 | a just-indexed file passes the check |
| Lifecycle.DriftStaysReportedIff | internal/agent/audit/record.go:121-138 | after any later cycles that leave a file alone it deviates exactly when it fails the check against its entry from before them, for any check set and both modes: drift is reported and not adopted |
| Lifecycle.UnbrokenHistoryChecksClean | internal/agent/audit/record.go:163-209 | after any number of cycles with no drift between them on the tracked paths, all tracked files check clean for any check set and both modes: such drift is the only source of file deviations |
| Lifecycle.FirstCycleChecksClean | internal/agent/audit/record.go:163-209 | in particular after a first cycle |
| Lifecycle.GeneratedIsStable | internal/agent/audit/generate.go:140-159 | a generated manifest is always one that remediation can settle |
| Lifecycle.GeneratedConvergesIff | cmd/agent/main.go:199-226 | against a generated manifest and for any obedient manager, later verdicts are clean exactly when the first is, or the files check clean and the declared packages are left as generated |
| Lifecycle.GeneratedConverges | cmd/agent/main.go:199-226 | for an exact manager: drift is reported at most once while files and declared packages are as generated |
| Lifecycle.GeneratedDetectsIff | internal/agent/audit/generate.go:96-159 | a manifest generated on one system and checked on any later one reports exactly how the two differ: each listed file that was regular and readable with its issue, each spec with a version other than the pinned or the installed one, each listed service no longer in the state it was seen in, and, with snapshots, each package and service that was not there |
| Lifecycle.UpgradeIsReported | internal/agent/audit/generate.go:131-134 | an upgrade of a package without pinned version is reported with both versions |
| Lifecycle.RecordedAuthorizesIff | internal/agent/audit/record.go:202-203 | after a recording a package or service is unauthorized exactly when it is there and was not there then, whatever the manifest authorized before |
| Lifecycle.RecordedIsAuthorized | internal/agent/audit/record.go:202-203 | so nothing is unauthorized on the system just recorded |
| Lifecycle.EmptyRecordingDiffers | internal/agent/audit/record.go:196-200 | generating for no files over a recording that tracks none reports a change although neither holds a file |
| Lifecycle.RecordingUnsettles | internal/agent/audit/record.go:177-203 | recording while a declared-running service is down brings drift at once and makes every pass from the second tick on stop and start it |

## Left out

- Text of warnings, deviations, notices and reports, and their rendering and capping: data here.
- SHA-256, file reading and the buffer pool: a hash is an uninterpreted value with a readable flag.
- YAML and JSON text: the model starts from parsed trees; JSON field names are matched exactly, not case-insensitively, and distinct trees are taken to have distinct texts.
- Output parsing of dpkg, rpm and systemctl, and a query that cannot be run at all: a query answers from the modelled state with an exit code.
- Unit dependencies, aliases and `.service` spellings: starting or stopping a unit affects that unit only, and a newly started unit is listed last.
- Scan.ScanFile: a working directory that cannot be determined is not modelled, and symbolic links between playbooks are not followed, so the key of a file is its cleaned path.
- FileIndexes.BuildIndexAnyInterleaving: a file system that changes during the walk or between stat and hash is not modelled.
- Records.Recorder.RecordBegin: failing to write the saved index, and for record-end to parse it, is not modelled; a missing one is.
- ManifestWriter.WriteIsAtomic: durability across power loss and concurrent writers are not modelled, since the code does not sync and shares one temporary name.
- FileChecks.CheckFilesAnyInterleaving: an entry that would trip the checker's assertions is excluded, and Generation.ReachableWellFormed shows none comes about.
- Sizes and times are unbounded integers: they are only compared.
- OpenTelemetry, heartbeats, jitter, sd_notify, printing, flags, configuration defaults, manifest age, exit codes and the error loop: plumbing or single-branch facts.
- The macOS and stub variants of the checks, scripts, roles and dashboards.

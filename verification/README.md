# A verified model of axup

axup deploys to remote hosts over SSH. A CLI loads a *rulebook* (YAML), inlines the modules it uses, renders
templates and sends a flat list of tasks to an *agent* on the host. The agent runs the tasks one by one, keeps the
replaced versions of managed files, and can roll them back. This project models the parts of that system where
correctness is a property of whole runs, and proves those properties with Dafny 4.11
(`dafny verify dfyconfig.toml`).

## How the model is built

**The host** (`Disks.dfy`, `Hosts.dfy`). A disk maps paths to files, directories and links with modes and owners.
`Hosts.Host` offers the system calls the agent makes. Every call may fail at any moment, partial effects included,
and a ghost field records every state of the disk that a concurrent reader could have met: a call that is not one step
of the kernel adds any number of states on its way, and a command's shell any states at all. Two more count the calls
that returned an error and list the predicates and commands run.

**The agent** (`Tasks.dfy`, `Agents.dfy`). `Agents.Agent` follows the handlers statement by statement: early
returns, the `changed` set, the rows of state.json shared by reference, the loops over evicted archives. Each method
is proved equal to a function on the agent's world (`Tasks.Execute`, `Rollbacks.RollbackFrom`, `Histories.Step`)
that takes the host's answers (`Io`: which call failed, the random archive name, deletions refused, what a failed
effect left behind, the answers to a command's predicates) as an argument. An argument that is not quiet is always put
down to a call that failed (`Rollbacks.Honest`): with no failing call no task fails and nothing is left behind. The
theorems are about those functions. `Answers.dfy` says what each of them answers and leaves, read off the disk alone, and
`Filters.dfy` what `--task` selects.
What the methods add is what a concurrent reader can meet: `Readers.dfy` says that every regular file seen while a task
that is not a command runs, or while one file is rolled back, stood there whole before that step or stands there whole
after it, the step's own temporary sibling aside. While a command's shell runs, anything can be met.

**The expander** (`Rulebooks.dfy`, `Expansions.dfy`, `Origins.dfy`, `Expanders.dfy`). `Expanders.ExpandUseTasks`
recurses through one shared, mutable visited set, exactly as the Go code does, and is proved equal to
`Expansions.Expand`, which is then proved to be plain in-order unfolding of the use-graph, without any visited set.
`Origins` says where each spliced task's paths, strings and variables come from, and `References` what one `use:` line
names and what stands in its place.

**Small languages** (`Framing.dfy`, `Wire.dfy`, `Quoting.dfy`). Line framing over arbitrary reads, the JSON of the events
against a reader of it, and three quoting printers, each against a lexer of the language it prints.

**Fixpoints** (`Locks.dfy`, `Gitignore.dfy`). The lock file and the append-only `.gitignore` block.

**Witnesses** (`Witnesses.dfy`). For each exact condition below, a concrete input on the failing side.

`Octal.dfy`, `Pieces.dfy`, `Texts.dfy`, `ByteStrings.dfy` and `Options.dfy` hold mode strings, splitting, trimming,
bytes and `Option`.

## What the code decides

Some natural statements are false of the code. For these the project proves the exact condition, in both directions,
and exhibits an input that fails it.

- A second run skips every task if and only if every mode is permission bits only: `os.FileMode(v)` is compared
  with `Perm()`, so a mode above 0777 is never found in place (`Plans.PlanConverges`; `Witnesses.WideModeRepeats`
  runs `chmod 1777` twice).
- `status` reports a deployed file in sync if and only if the plan leaves the mode out or spells it as `0` and three
  octal digits, because the strings are compared (`Plans.DeployInSync`; `Witnesses.ThreeDigitModeDrifts`).
- Archives and history match one to one if and only if no file task failed past archiving and no deletion was
  refused since the store was last emptied: `pushHistory` deletes before the write happens (`Histories.EveryRun`,
  `Histories.FailedWriteKeepsNewest`; `Witnesses.FailedWriteLeavesOrphan`).
- A rollback preview tells the truth if and only if every file it promises still has its archive and can be written;
  the preview looks at neither (`Rollbacks.RollbackPreviewAgrees`; `Witnesses.PreviewPromisesTooMuch`).
- Rolling the rulebook back by a and then by b does what a + b does if and only if each selected file that can be written
  has a + b versions or too few for either step: a step that is too deep for a file fails for that file alone
  (`Histories.RulebookComposesAfterRun`; `Witnesses.TwoStepsAreNotOne`).
- Reconciling again with the lock just written goes through if and only if dependencies of one name agree on
  repository and version (`Locks.ReconcileFixpoint`; `Witnesses.TwoVersionsNeverSettle`).
- A second `ensureGitignored` with the same entry adds nothing if and only if the entry was listed already or holds
  no newline and no blank at either end (`Gitignore.OneEntrySettles`; `Gitignore.TrailingBlankNeverSettles`).
- A MySQL literal reads back as the string if and only if the string is valid UTF-8 and no quote follows
  (`Quoting.SqlQuoteMyRoundTrip`; `Witnesses.InvalidByteIsLost`).
- The comment at `internal/rulebook/parse.go:59-66` ranks git facts above the rulebook's own variables; the loop at
  lines 109-113 does the opposite. The model follows the loop (`Origins.RootVars`).

## Assumptions

They are the `requires` of the theorems or the parameters of the model.

- SHA-256, the umask, link resolution and the user tables are functions in `Disks.Env`; no property needs the
  digest to be injective.
- Random archive names are fresh (`Histories.FreshName`): eight random bytes. That no two entries share an archive is
  then proved for every run (`Histories.EveryRun`).
- No managed path is another one followed by `.deploy.tmp` or `.rollback.tmp` (`Plans.Touches`,
  `Rollbacks.NoTmpClash`).
- What a failing call may leave is a parameter of the functions (`Io.residue`). Where a theorem needs it confined to
  the temporary sibling, it says so (`Rollbacks.Tidy`); the agent's methods prove that it is
  (`Agents.Agent.RunFileTask`, `Agents.Agent.RunRollback`).
- Plan theorems are about paths that are not themselves links (`Plans.NoAlias`) and about commands that leave what
  the other tasks look at alone (`Plans.Harmless`). A command's predicates only look, and for the preview theorem they
  decide alike in both runs (`Plans.SameAnswers`).
- The template engine is any partial function; a string without `{{` never reaches it (`Expansions.Render`). Joining
  to an absolute directory, and rendering what starts with a slash, keep the slash (`Origins.RootKept`).

## Model

| member | source | states |
|---|---|---|
| Expanders.ExpandUseTasks | internal/rulebook/expand.go:45-158 | the recursive pass over one shared visited set returns exactly Expand's result, terminates on every module graph, and leaves the visited set as it found it on success and on every error |
| References.WholePathTakesCallersPhase | internal/rulebook/expand.go:173-188 | a path that is itself a rulebook's directory splices that directory's phase of the caller's name, with its key, variables and every field of every task spelled out; refused when the caller has no phase or the rulebook no such phase or no right to be used |
| References.LastSegmentIsPhase | internal/rulebook/expand.go:189-195 | otherwise the last segment of a path is the phase of the rulebook at the segments before it, whatever phase the caller is in |
| References.DepPathNamesTaskList | internal/rulebook/expand.go:86-103 | `dep/path` splices the task list of the rulebook at that path in the dep's clone; refused when the dep is not declared or the rulebook is not a plain task list |
| References.BarePathIsRefused | internal/rulebook/expand.go:173-195 | a path with no segment to be a phase, where no rulebook is, is refused |
| References.NameWithoutPathIsRefused | internal/rulebook/expand.go:242-252 | a name with no dep, no path or no slash between them is refused |
| References.EveryReference | internal/rulebook/expand.go:162-164 | every reference is of one of these kinds |
| References.PlainTaskStays | internal/rulebook/expand.go:49-55 | a task without `use:` is kept as it is, and refused when it carries `vars:` |
| References.ListsConcatenate | internal/rulebook/expand.go:45-157 | a list expands task by task, in order, each on its own; one failure fails the list |
| Expansions.ExpandIsUnfold | internal/rulebook/expand.go:105-140 | under any stack of modules in progress none of which can occur below the list, expansion never hits a visited key and equals unfolding without a visited set |
| Expansions.ExpandMeansUnfolding | internal/rulebook/expand.go:45-158 | expansion yields x exactly when some finite-depth unfolding of the use-graph yields x; the number of visit keys is depth enough |
| Expansions.ExpandSucceedsIff | internal/rulebook/expand.go:45-158 | with rendering total, expansion succeeds exactly when every reachable use resolves, vars stand on use tasks only and no path repeats a visit key; diamonds are allowed |
| Expansions.ExpandCloses | internal/rulebook/expand.go:105-107 | a successful expansion's use-graph is no deeper than the number of visit keys not yet in the visited set |
| Expansions.UnfoldStable | internal/rulebook/expand.go:136-155 | once a list closes at depth n, unfolding deeper gives the same tasks |
| Expansions.ClosedPathNoRepeat | internal/rulebook/expand.go:105-107 | below a list whose use-graph bottoms out no path meets a visit key twice |
| Expansions.WellFoundedCloses | internal/rulebook/expand.go:45-158 | if every path is sound and repetition-free the graph bottoms out within as many levels as there are keys |
| Rulebooks.ExtractPhaseOfKey | internal/rulebook/expand.go:214-219 | the child phase read back from a visit key is the phase that was spliced |
| Rulebooks.PhaseHasNoHash | internal/rulebook/parse.go:47-57 | a valid phase name holds no `#`, so reading the phase back from a key is unambiguous |
| Rulebooks.KeyDetermines | internal/rulebook/expand.go:64-103 | two resolutions with the same visit key have the same directory, variables and tasks, local submodules and git modules included |
| Rulebooks.ReachableInKeys | internal/rulebook/expand.go:84-102 | every key a use can produce lies in a finite set given by the project, which bounds the recursion |
| Origins.InnermostModuleDecides | internal/rulebook/expand.go:146-154 | for every successful expansion: one task a leaf of the use-graph, in order, no `use:` left; each path absolute, the innermost module's merged map stamped, and every field whose render there has no template mark is that render for good, through all outer modules and the root pass |
| Origins.UnfoldPlaces | internal/rulebook/expand.go:136-155 | rewriting and rendering at every level equals placing each leaf outward through its own chain of modules, and fails exactly when a leaf cannot be reached or placed |
| Origins.OuterFinishKeeps | internal/rulebook/expand.go:146-154 | a module further out changes nothing that the innermost one has decided |
| Origins.RootRenderKeeps | internal/rulebook/render.go:39-47 | nor does the render with the rulebook's own variables |
| Origins.SettledIsFinishedOnce | internal/rulebook/expand.go:146-154 | when every field renders at home to text without template marks the task is finished exactly once and the root pass is the identity |
| Origins.FinishRooted | internal/rulebook/expand.go:267-288 | after finishing every source path is empty or absolute |
| Origins.DownLookup | internal/rulebook/expand.go:113-130 | look-up after any number of merges: innermost use.vars outward, then the base, then module defaults from the outermost in |
| Origins.RootLookup | internal/rulebook/parse.go:103-133 | host variables before the vars file before the rulebook's own before git facts |
| Origins.VariablePrecedence | internal/rulebook/expand.go:109-154 | look-up in the EffectiveVars that expansion returns for a task at any depth: innermost use.vars outward, host, vars file, own, git, then module defaults from the outermost in |
| Expanders.MergeMaps | internal/rulebook/expand.go:254-262 | look-up in the merged map is the last argument that has the key, whatever order the keys are copied in |
| Expanders.PreRenderVars | internal/rulebook/expand.go:223-240 | every string value is rendered with the caller's variables, other values pass through, and any failure fails the whole |
| Expanders.RewriteRelativePaths | internal/rulebook/expand.go:267-288 | non-empty relative source paths are joined to the module directory, all else is untouched |
| Expanders.RenderStringFields | internal/rulebook/render.go:347-359 | each field equals its render under the given variables; fails exactly when some field fails |
| Expanders.ExpandTaskStrings | internal/rulebook/render.go:63-342 | all templated fields of a task rendered with one set of variables, or an error |
| Expanders.SpliceAll | internal/rulebook/expand.go:146-154 | each task of a module has its paths rewritten, then its strings rendered, then its variables stamped if it had none |
| Expanders.LoadVars | internal/rulebook/parse.go:103-133 | the loops of loadInternal build host over file over own over git |
| Expanders.ExpandPhases | internal/rulebook/parse.go:171-184 | every phase is replaced by its own expansion with an empty visited set; fails exactly when one phase does |
| Agents.Agent.RunFileTask | internal/agent/tasks.go:142-263 | copy and template: world and status equal Handle for some answers of the host; no reader ever meets anything at dst but the old node or the complete new one; a failure is confined to the temporary sibling and new parent directories |
| Agents.Agent.WriteAtomic | internal/agent/tasks.go:287-297 | on success dst is the complete new file and the sibling is gone; on failure nothing but the sibling differs, and when no clean-up fails it holds a part of the body or the finished file that could not be put in place; readers see old or new only |
| Agents.Agent.ArchiveCurrent | internal/agent/tasks.go:233-246 | archives the current body, prepends an entry with its digest and mode and evicts beyond the limit, or fails with nothing changed |
| Agents.Agent.PushHistory | internal/agent/state.go:110-119 | newest first, cut to keep entries when keep is positive, and exactly the evicted archives are deleted except those the host refused |
| Agents.Agent.RunMkdirTask | internal/agent/tasks_fs.go:34-117 | the mkdir handler computes Handle: create, reconcile, skip, preview or refuse |
| Agents.Agent.RunSymlinkTask | internal/agent/tasks_fs.go:125-191 | the symlink handler computes Handle; a file or directory where `force` is not set is an error that touches nothing and shows readers nothing |
| Agents.Agent.RunRemoveTask | internal/agent/tasks_fs.go:198-226 | the remove handler computes Handle: links are unlinked, directories need recursive unless empty |
| Agents.Agent.RunChmodTask | internal/agent/tasks_perms.go:18-49 | the chmod handler computes Handle |
| Agents.Agent.RunChownTask | internal/agent/tasks_perms.go:62-114 | the chown handler computes Handle, recursive walk included |
| Agents.Agent.RunCommandTask | internal/agent/tasks.go:44-110 | the predicates as written, in order, the second only when the first lets it go on, dry run or not; then exactly when both allow it and the run is no dry run the command, with any effect on the disk by way of any states; skipped exactly when a predicate reached and answered forbids it, an error only when one cannot be run or the command fails and errors count |
| Agents.Agent.ExecuteTask | internal/agent/runner.go:136-204 | the when_changed gate and the dispatch compute Execute; a file task is all or nothing whatever fails; unless the task is a command, readers meet only whole files from before or after it; a task skipped or refused, and every dry run, makes no call that changes the disk; a fault is put down to a call that failed |
| Agents.Agent.RunTaskList | internal/agent/runner.go:108-118 | the task loop computes RunTasks, one event a task in order; every file task of the run is all or nothing; every regular file a reader meets while a task other than a command runs is, its temporary sibling aside, whole and from before or after that very task; the commands run are those the gates and predicates let through, in order; no more tasks are faulty than calls failed; a dry run makes no call that changes the disk |
| Readers.MomentsVersioned | internal/agent/runner.go:108-118 | at every moment of a deploy that does not fall inside a command, every regular file outside the run's temporary siblings is a whole one of some moment between two tasks |
| Agents.Agent.RollbackOne | internal/agent/rollback.go:104-167 | restoring one file computes Rollbacks.RollbackOne for some answers of the host; an error has touched no row, no archive and no path but the temporary sibling, and leaves none behind when cleaning up does not fail too; a success leaves the archived version whole; readers meet the old or the complete restored file only |
| Agents.Agent.RunRollback | internal/agent/rollback.go:37-100 | the loop computes RollbackFrom and reports an error exactly when the file named is not tracked, nothing is, or some event is an error; with a file named its one event is about it and no other row changes, without one every tracked file has one; every event is true of its file and nothing else has changed; readers meet whole files only; no more files are faulty than calls failed |
| Agents.Agent.EmitRollbackPreview | internal/agent/rollback.go:182-228 | the preview computes PreviewFrom and changes nothing; with a file named its one event is about it, without one every tracked file has one |
| Agents.Agent.ClearAllHistory | internal/agent/state.go:126-141 | every row's history is emptied in place, its digest and mode kept, the number of dropped versions returned, and the archive directory removed as far as the host lets it be |
| Agents.Agent.EmitStatus | internal/agent/status.go:19-77 | one event a tracked file with StatusOf, and the versions of its history one by one when asked for; a file reported as error for another reason is paid for by a call of its own that failed |
| Agents.Agent.Run | internal/agent/runner.go:16-134 | one invocation is one step of the run model with that step's events; the modes take precedence in the order status, clear, rollback, deploy; file tasks are all or nothing, rollback events are true, readers meet whole files only, except while a command runs; status, clear and every dry run make no call that changes the disk |
| Answers.FileAnswers | internal/agent/tasks.go:142-263 | copy and template: exactly which fields, digests and paths are refused, when it skips, previews, writes or fails; the file, parents, row, history, archives and mark it leaves, and that all else is as it was |
| Answers.MkdirAnswers | internal/agent/tasks_fs.go:34-117 | mkdir: when it refuses, skips, previews, makes or reconciles; the mode and owner it leaves, and that all else is as it was |
| Answers.SymlinkAnswers | internal/agent/tasks_fs.go:125-191 | symlink: a file or directory gives way only to `force`, a link to elsewhere always; with `force` nothing of the old tree is left |
| Answers.RemoveAnswers | internal/agent/tasks_fs.go:198-226 | remove: an absent path is skipped, a directory with something in it is refused unless `recursive`, and exactly the path and what lies below it goes |
| Answers.ChmodAnswers | internal/agent/tasks_perms.go:18-49 | chmod: a missing path and a bad mode are refused, and what the path leads to gets the mode and keeps all else |
| Disks.FollowsLinks | internal/agent/tasks_perms.go:12-17 | the look-up chmod, copy, mkdir and status use goes down a path of links to its end, and fails when there are more than the host follows |
| Answers.ChownAnswers | internal/agent/tasks_perms.go:62-114 | chown: the top decides; with `recursive` everything below a directory gets the owner and group named, and keeps all else |
| Answers.CommandAnswers | internal/agent/tasks.go:44-110 | command: each status exactly by the two answers, the exit and the dry run; a command that does not run leaves the world as it was |
| Answers.RanMeans | internal/agent/tasks.go:75-76 | the command that runs is the one written, exactly when gate, predicates and the run let it |
| Answers.GateAnswers | internal/agent/runner.go:136-161 | the gate closes any task but the five that compare for themselves exactly when it watches paths and none is marked; the event bears the task's id and path |
| Answers.WatchersRunOnReports | internal/agent/runner.go:108-161 | over a whole deploy a watching task is passed over exactly when no task before it, commands aside, reported a change of a path it watches; otherwise its handler decides |
| Answers.RollbackAnswers | internal/agent/rollback.go:104-167 | one restore: exactly when it fails before and after touching its sibling, and the file, row and archives it leaves |
| Filters.NamedFileAlone | internal/agent/rollback.go:60-90 | with a file named, rolling back the rulebook is rolling back that file: one event, about it, and no other file's row, archives or path is touched; a name that is not tracked does nothing |
| Filters.EveryFileOnce | internal/agent/rollback.go:60-90 | without a name every tracked file has one event, in order, skipped exactly when it never had a version |
| Filters.NamedFileForetold | internal/agent/rollback.go:200-226 | the preview of a named file is one event about it, decided by the depth of its history |
| Filters.EveryFileForetold | internal/agent/rollback.go:200-226 | the preview without a name has one event a tracked file, decided by the depth of its history |
| Histories.EveryRun | internal/agent/state.go:110-141 | over every run of deploys, rollbacks, clears and outside changes with any call failing: each history is a prefix of the file's unbounded undo stack, no longer than the largest limit used; no two entries share an archive; archives and entries match one to one exactly when no failure past archiving and no refused deletion occurred since the last full clear |
| Histories.NoEmptyPath | internal/agent/tasks.go:143-145 | no run comes to track the empty path |
| Histories.RollbackRestoresIdeal | internal/agent/rollback.go:104-160 | after any run a rollback k that succeeds puts back the k-th version of the unbounded undo stack, body and mode; with matching archives it does succeed when the row is deep enough and the path is writable |
| Histories.TaskRefines | internal/agent/tasks.go:224-246 | a file task pushes the on-disk version onto the undo stack exactly when it archives and overwrites, drifted versions included, and the row stays a prefix |
| Histories.TaskExact | internal/agent/tasks.go:229-262 | a task that does not fail past archiving keeps archives and entries in one-to-one correspondence with matching digests |
| Histories.TaskOrphan | internal/agent/state.go:110-119 | a task that fails past archiving or cannot delete an evicted archive leaves an unreferenced archive, and later tasks never tidy it |
| Histories.TurnRefines | internal/agent/rollback.go:150-160 | a rollback of k drops k versions from the undo stack and the row stays a prefix |
| Histories.TurnExact | internal/agent/rollback.go:150-160 | a rollback whose deletions go through keeps the one-to-one correspondence |
| Histories.TurnOrphan | internal/agent/rollback.go:150-154 | a rollback that cannot delete an archive leaves it unreferenced |
| Histories.ClearKeeps | internal/agent/state.go:126-141 | clearing keeps the invariant and restores the exact correspondence when the directory is removed |
| Histories.TaskBounded | internal/agent/state.go:110-119 | no history grows beyond the limit |
| Histories.TrailIsStep | internal/agent/runner.go:16-134 | the instrumented run the invariants are proved on moves the same worlds as the deploy, rollback and clear functions |
| Histories.TaskDistinct | internal/agent/tasks.go:233-262 | no two entries come to share an archive, whatever fails |
| Histories.FailedWriteKeepsNewest | internal/agent/state.go:110-119 | when the write fails after archiving, the i-th entry keeps its archive exactly when i is below keep minus one or the deletion was refused |
| Rollbacks.RollbackComposes | internal/agent/rollback.go:104-167 | where the a-th and (a+b)-th entries can be read back and the path written, rollback a then b succeeds and ends in the same rows, archives, body and mode as rollback a+b |
| Histories.ComposesAfterRun | internal/agent/rollback.go:104-167 | the same after any run that left the store tidy, for every file with a+b entries |
| Compositions.RulebookComposes | internal/agent/rollback.go:51-160 | for quiet rollbacks of the whole rulebook, by a then b and by a+b, each in its own listing order: the rows agree exactly when every selected file that can be written has its a-th and (a+b)-th entries readable, or none of its a-th, b-th and (a+b)-th; then archives agree, and every path but for a lent owner and the siblings of files that cannot be written |
| Compositions.ComposesByDepth | internal/agent/rollback.go:104-115 | with every entry readable that condition is one on depth: a+b versions, or fewer than a and than b |
| Histories.RulebookComposesAfterRun | internal/agent/rollback.go:51-160 | after any run that left the store tidy: rolling the rulebook back by a and then b records what a+b records exactly when every selected file that can be written has a+b versions or fewer than either step |
| Rollbacks.RollbackIsPerFile | internal/agent/rollback.go:51-90 | whatever fails and in whatever order: every event is true of its file, Changed exactly when no call that puts the file back failed and it could be restored at the start, and every other row and path is as it was |
| Rollbacks.RollbackIsPointwise | internal/agent/rollback.go:51-90 | when no call fails, rows, archives and disk are the order-free pointwise ones, but for the temporary sibling of a file that had the version and could not be written |
| Histories.RollbackAfterRun | internal/agent/rollback.go:51-160 | after any run, with anything failing in the rollback too, every file reported Changed holds the k-th version of its undo stack |
| Rollbacks.RollbackPreviewAgrees | internal/agent/rollback.go:195-227 | when no call fails the preview's task_end events equal the real run's, would_change read as changed, exactly when every file promised still has its archive and can be written |
| Histories.PreviewAgreesAfterRun | internal/agent/rollback.go:195-227 | the same after any run; with a tidy store, exactly when every promised path can be written |
| Rollbacks.TurnKeepsOthers | internal/agent/rollback.go:60-90 | restoring one file, or failing to, neither helps nor hinders restoring another and does not change what would be restored |
| Plans.PlanConverges | internal/agent/runner.go:108-161 | after an error-free run in which no task undoes an earlier one (it may repeat it, chown what it made, chmod a copy to the copy's own mode, or agree with it on one directory or one owner of a tree) a second run skips every task exactly when all modes are permission bits; it then marks nothing and leaves disk, archives and rows alone |
| Plans.EffectDone | internal/agent/tasks_fs.go:34-226 | each handler's effect establishes the condition its task stands for |
| Plans.DoneIsClean | internal/agent/tasks.go:187-207 | once the condition holds a task is skipped exactly when its mode is permission bits only |
| Plans.EffectKeeps | internal/agent/tasks_fs.go:34-226 | what one task established survives every task that does not disturb it, missing parents, the same task again, a chown or an equal chmod of what a copy put there, a directory shared by mkdir, chmod and chown and a recursive chown to the owner asked for included |
| Plans.WideModeNeverSkips | internal/agent/tasks.go:163-189 | a task with a mode above 0777 is never skipped |
| Plans.DeployInSync | internal/agent/status.go:38-62 | after an error-free deploy a managed file is in_sync exactly when its mode was left out or is in the four-digit form |
| Plans.StatusForetellsRedeploy | internal/agent/status.go:38-62 | after an error-free deploy and any later change of the disk, a managed file with a four-digit or absent mode is in sync exactly when its task would skip it, missing exactly when it would create it, drifted exactly when it would overwrite it, an error exactly when it would refuse |
| Plans.StatusForetellsRestore | internal/agent/status.go:38-62 | the same after any run and a rollback of the rulebook, for writing the version put back |
| Plans.RollbackInSync | internal/agent/rollback.go:51-178 | after any run, and whatever fails in the rollback of the rulebook, every file it reports Changed is in_sync when it is done |
| Plans.PreviewAgrees | internal/agent/runner.go:108-161 | for the first n tasks, where they are independent and the real run meets no error in them: a dry run yields the real run's first n events, would_change read as changed, the same gates and the same changed set, when commands' predicates decide alike |
| Plans.DryTouchesNothing | internal/agent/runner.go:108-161 | whatever its tasks and however the host answers, a dry run leaves disk, archives and rows as they were |
| Octal.ParseOfFmt | internal/agent/status.go:86-89 | printing a mode in 0..0777 and parsing it gives the mode |
| Octal.FmtOfParse | internal/agent/rollback.go:169-178 | a mode string survives parse, chmod and print exactly when it is `0` and three octal digits |
| Octal.ParseUintMeans | internal/agent/tasks_fs.go:244-253 | a mode string is read exactly when it is a non-empty octal numeral of at most 32 bits, and then as that number |
| Framing.StreamLines | internal/transport/ssh.go:166-195 | the lines delivered depend on the byte stream alone: its non-empty newline-separated pieces in order, without the unfinished last one if the stream fails; however it is cut into reads |
| Framing.Drain | internal/transport/ssh.go:173-183 | the inner loop emits every complete non-empty line and keeps the rest |
| Framing.EventWriter.Write | internal/agent/runner.go:213-219 | the output stays exactly the written events' lines, and any reader of it, however cut up, delivers the earlier events' lines and then this one's |
| Framing.EncodePlain | internal/agent/runner.go:216-217 | no encoded event is empty or holds a raw newline, any other control character, or `<`, `>` or `&` (section 7 of RFC 8259) |
| Framing.EventsDelivered | internal/transport/ssh.go:166-195 | for every way the written bytes arrive in reads, exactly the written events are delivered in order |
| Wire.ValueReads | internal/agent/runner.go:216 | every value written is read back as itself by a reader of the JSON it is made of, and nothing after it is consumed (sections 5 to 7 of RFC 8259) |
| Wire.EventsReadBack | internal/agent/runner.go:213-219 | for every way the written bytes arrive in reads, each line delivered reads back as its event, whole, in order |
| Wire.BrokenLine | internal/transport/ssh.go:185-193 | a stream that fails inside a line delivers the whole events alone; one that ends there hands the broken line over too |
| Quoting.IndexOf | internal/cli/secrets.go:894-901 | the least position at which the pattern occurs, or -1 when there is none |
| Quoting.ReplaceAll | internal/cli/secrets.go:883-893 | for a non-empty pattern it terminates and equals leftmost non-overlapping replacement |
| Quoting.ShellQuote | internal/cli/secrets.go:880-882 | the CLI's own quoting, built on ReplaceAll, prints ShellQuoted |
| Quoting.ShellQuoteRoundTrip | internal/transport/ssh.go:232-234 | read as a POSIX shell word the quoted text contributes exactly s, and reading resumes right after it |
| Quoting.SqlQuotePgRoundTrip | internal/agent/tasks_pg_db.go:190-192 | the literal lexes to s and consumes only itself exactly when no quote follows it |
| Quoting.SqlQuoteMy | internal/agent/tasks_mysql_db.go:184-206 | the loop over runes prints the escape of every rune between quotes |
| Quoting.MyPrintsNoControls | internal/agent/tasks_mysql_db.go:184-206 | no NUL, newline or carriage return stands in a MySQL literal as it is |
| Quoting.SqlQuoteMyRoundTrip | internal/agent/tasks_mysql_db.go:184-206 | the literal lexes to s and consumes only itself exactly when s is valid UTF-8 and no quote follows it |
| Locks.Reconcile | internal/rulebook/lock.go:73-105 | the loop computes the pins of all deps, the resolution, the changed flag, the new lock in declaration order and the references it asked for; it fails exactly when some dep cannot be pinned |
| Locks.RefreshAll | internal/rulebook/lock.go:109-124 | the lock of reconciling against no lock at all |
| Locks.PinMeans | internal/rulebook/lock.go:77-102 | a dep in the lock keeps the first entry of its name, which must agree with it and hold a sha; any other gets the sha it is declared at, or the remote's answer for the version declared, in small letters; all else is refused |
| Locks.AsksForNew | internal/rulebook/lock.go:93-97 | exactly the deps that are not in the lock are asked for, at their full address and declared version |
| Locks.ResolvesLast | internal/rulebook/lock.go:90-98 | each name resolves to the sha of the last dep that bears it |
| Locks.ReconcileFixpoint | internal/rulebook/lock.go:73-105 | reconciling with the lock just produced (or refreshed) goes through exactly when deps of one name agree, and then asks nothing, reports unchanged and returns the same resolution and lock |
| Locks.PinsKept | internal/rulebook/lock.go:81-92 | a dep that is in the lock keeps its entry unchanged |
| Locks.AddingKeepsPins | internal/rulebook/lock.go:81-102 | declaring more deps never alters an existing pin |
| Gitignore.GitignoreFile.EnsureGitignored | internal/cli/secrets.go:520-566 | on success the file and the result are as specified; the old file stays a prefix whatever fails; nothing to add means no write |
| Gitignore.CollectMissing | internal/cli/secrets.go:536-544 | exactly the entries listed neither bare nor with a leading slash, in order |
| Gitignore.LinesAfter | internal/cli/secrets.go:558-564 | exactly which trimmed lines the file has afterwards, whatever it ended with |
| Gitignore.LinesInOrder | internal/cli/secrets.go:553-565 | the file line by line: what was there, one blank line, the two comments, the entries in order |
| Gitignore.BlanksDoNotHide | internal/cli/secrets.go:527-542 | an entry is found on its line, bare or anchored, whatever blanks or carriage return surround it |
| Gitignore.SecondCallAddsNothing | internal/cli/secrets.go:520-566 | a second call adds nothing exactly when every entry written can stand on a line of its own or is covered by an anchored line written beside it |
| Gitignore.CleanEntriesSettle | internal/cli/secrets.go:520-566 | for entries without newline or surrounding blanks: append-only, every entry present afterwards, second call a no-op |
| Gitignore.OneEntrySettles | internal/cli/secrets.go:527-542 | one entry settles exactly when it was listed or has no newline and no surrounding blank |
| Gitignore.TrailingBlankNeverSettles | internal/cli/secrets.go:527-542 | an entry with a trailing blank is appended again on the second call |
| Witnesses.WideModeRepeats | internal/agent/tasks_perms.go:36-44 | chmod 1777 on a directory meets all of PlanConverges' hypotheses, runs without error and is not skipped the second time |
| Witnesses.ThreeDigitModeDrifts | internal/agent/status.go:47-53 | a copy with mode 755 deploys without error and status reports drift |
| Witnesses.FailedWriteLeavesOrphan | internal/agent/tasks.go:233-254 | a possible run whose only task fails past archiving ends without the exact correspondence |
| Witnesses.PreviewPromisesTooMuch | internal/agent/rollback.go:218-225 | from a tidy store one failed overwrite makes the preview say would_change and the rollback say error |
| Witnesses.TwoStepsAreNotOne | internal/agent/rollback.go:104-115 | one file with one version in a tidy store: back by one twice restores it, back by two restores nothing |
| Witnesses.TwoVersionsNeverSettle | internal/rulebook/lock.go:81-85 | two versions under one name reconcile once and are refused with the lock just produced |
| Witnesses.InvalidByteIsLost | internal/agent/tasks_mysql_db.go:200-202 | a byte that is not UTF-8 reads back as the replacement character |
| Texts.TrimCuts | internal/cli/secrets.go:527-529 | trimming keeps a middle stretch and is the identity exactly on strings with no blank at either end |
| Texts.TrimBetween | internal/cli/secrets.go:527-529 | blanks around a text without any at its ends are what trimming takes away |

## Left out

- Agents.Agent.Run: reading and writing state.json, and the error event of a failed save, are not modelled; the state passes from run to run in memory.
- Plans.PlanConverges: paths that are links are not covered, because two names for one node make the paths related; nor are tasks that set one thing in two ways, such as a chmod to a mode other than the copy's.
- Agents.Agent.RunTaskList: what a reader meets while a command's shell runs is not constrained, because the shell may do anything.
- Plans.PreviewAgrees: a predicate that would answer otherwise once earlier tasks have run is outside the theorem.
- Hosts.Host: directory components that are themselves symbolic links are not resolved; only the last component of a path is followed, through a function the host supplies.
- Hosts.Host.Create: a temporary sibling that is a link or a directory makes the write fail; the kernel would follow the link.
- Hosts.Host.Archive: a copy into the archive store is complete or absent; cleaning up a partial copy is taken to succeed. The archive store is kept apart from the managed disk.
- Locks.Resolution: `git ls-remote` is a function of URL and reference for the duration of a statement.
- Quoting.ReplaceAll: requires a non-empty pattern, because for the empty pattern the original loop never ends; its only caller passes a quote.
- Quoting.ShellWord: expansions inside double quotes are not modelled; the printers never produce double quotes.
- Wire.ReadValue: reads no blanks between tokens, fractions or escapes of code points above 127, because the writer prints none.
- Framing.Encode: only the JSON values events are made of; the replacement of invalid UTF-8 and the escapes of U+2028 and U+2029 are left out, and neither adds a newline.
- Rulebooks.Task: the dozens of task fields are grouped into source paths, other templated strings and the rest; spec objects are re-read on every load, so sharing between spliced tasks does not arise.
- Rulebooks.Project: a rulebook directory is its lexical path, so one reached under two names counts as two.
- Rollbacks.RollbackFrom: the sorted listing is any enumeration of the tracked files; the sort itself is not modelled.
- File modes keep the nine permission bits; setuid, setgid and sticky bits of a mode above 0777 are dropped.
- Crashes between a task and the save of state.json: the invariants are about the state in memory.
- Timestamps, message texts, unified diffs and task_start and log events.
- apt, service, docker, user, group, database and download tasks: gated commands stand for them in plans.
- Go templates and sprig, YAML decoding, age and sops encryption, SHA-256: parameters or absent.
- Field checks of `validateTasks`, inventory and host parsing, plan building: long case lists.
- SSH dialling, authentication, agent upload, multi-host fan-out, colours and summaries.

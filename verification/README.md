# A verified model of zyris-docker

Zyris-docker is a node that runs in a container: it enrolls itself with a server, keeps the credential
on a volume, dials, serves tools over the connection, redials, and watches what the operator asked it to
watch. This project models the parts of it that have to be right over long runs and under interference,
in Dafny, and proves what they promise.

`dafny verify dfyconfig.toml` checks all of it.

| file | what it models |
|---|---|
| `Store.dfy`, `Sources.dfy` | what is read from the credential file and from a mounted credential, and the error shades |
| `Pod.dfy` | one process as a state machine over its await points and store calls |
| `PodRuns.dfy`, `PodTiming.dfy`, `PodProgress.dfy`, `PodExits.dfy` | what every run of that machine keeps and gets done: secrets, budgets, rates, stops, progress, exit codes |
| `Runner.dfy` | the dial loop and the device grant as nested imperative code over mutable cells, proved to be that machine |
| `Fleet.dfy`, `FleetRuns.dfy`, `FleetRefusals.dfy` | any number of such processes over one volume, crashing and restarting |
| `AtomicSave.dfy`, `SaveHistory.dfy`, `SaveCrowd.dfy` | `save`, one system call at a time, over names and inodes: one writer with crashes and power loss, many saves in a row, many writers at once |
| `Slug.dfy`, `CredentialFile.dfy` | file names, and the three views of a credential file brought together |
| `Paths.dfy`, `Tree.dfy`, `Gate.dfy` | the path gate against a POSIX resolver over a tree with links |
| `Exec.dfy` | a child, two readers and three bounded pipes, every interleaving |
| `Healer.dfy` | the watcher against an edge detector over its history |

## How the protocol is modelled

A process takes *turns*. At each turn it is given the credential file as it stands at that moment, whoever
last wrote it, and the world's answer to whatever it is waiting for; it answers with what it does next and
the file it leaves. So the server, the person approving, sibling pods and the operator are all in the
turns, and a property of every sequence of turns holds whatever they do. A death may come at any turn; a
stop signal only where the future really suspends, because the store's calls finish inside one poll.
In the fleet a turn is given to one pod at a time over the shared file, which is why each load, clear and
save is one turn and the gaps between them are real. Two things are asked of the rest of the world there:
the server never grants a secret that is already about, and nobody outside the fleet has a granted secret
before the pod it was granted to has stored it. They may otherwise do anything to the file: expose it,
corrupt it, remove it, replace it, or restore it from a backup.

The class `Runner.World` scripts those turns. The methods of `Runner.DeviceGrantSource` and
`Runner.NodeRunner` follow the source's own nesting, and each is proved to take the machine from the
situation it is called in to the one it returns in; `Runner.NodeRunner.RunToExit` says so of the process as
a whole.

## Where the code and what is said of it differ

- A sibling's new credential is to be adopted rather than deleted (src/enroll.rs:227-229). Between reading
  the file and the write that follows there is a gap, whether the write clears a refused credential
  (src/enroll.rs:239), throws away an unusable file (src/enroll.rs:142) or saves a grant (src/enroll.rs:166).
  `FleetRuns.ForgetCanRemoveASiblingsCredential` and `FleetRuns.DiscardCanRemoveASiblingsCredential` are runs
  in which a new credential is deleted, `FleetRuns.OpenWindowLoses` says it can happen whenever the gap is
  open, and `FleetRuns.LostCredentialsArrivedLate` says that, for every kind of write and for one that death
  cuts short, this gap is the only way.
- A secret once refused and forgotten is not to be presented again. An operator can put it back:
  `FleetRefusals.RestoredSecretIsRedialled` is a run in which one does and the pod dials it again.
  `FleetRefusals.RefusedSecretIsNotRedialled` says that nothing else brings it back, and
  `FleetRefusals.RedialledExactlyWhenPutBack` when it can come to be dialled.
- Writes are said to be atomic (src/runtime/store.rs:313-316). One writer's are exactly when its temp name
  differs from the target (`AtomicSave.AtomicExactlyWhenTempDiffers`). All writers of one file share the temp
  name. `SaveCrowd.ReadersOfACrowd` says what is enough to keep any number of them atomic together;
  `SaveCrowd.TearsExactlyWhenTwoAreLive` says that some interleaving tears the file exactly while two writers
  have yet to finish; `SaveCrowd.SecondCreateTears` is how. And the directory is never synced
  (src/runtime/store.rs:340-341), so a save that has returned may be undone by the power failing, though
  never torn: `AtomicSave.CompletedSaveMayBeLost`, `AtomicSave.SaveSurvivesPowerLoss`,
  `SaveHistory.HistorySurvivesPowerLoss`.
- No two deployments are to clobber each other's file (src/runtime/store.rs:241-242). Four things let them:
  letter case and what separates the words of a name are lost, so `wss://a.b` and `wss://a-b` share a slug
  (`Slug.CaseIsLost`, `Slug.SeparatorsAreLost`); a slug is cut at 48 characters (`Slug.LongNamesCollide`); a name with no letter
  or digit has the slug of `default` (`Slug.WordlessIsDefault`); and the dash that joins the two slugs is also
  inside them (`Slug.FileNamesCollide`). `Slug.SlugsAgreeExactly` and `Slug.FileNamesAgreeExactly` say that
  these are all.
- The gate takes any failure to resolve for a missing name (src/gate.rs:89):
  `Gate.UnresolvedLinkIsReadAsMissing`, and `Gate.CreationTheorem` for exactly when the two are the same.
- Stdin is written in full before either reader starts and outside the timeout (src/terminal.rs:206-227):
  `Exec.HangsExactlyWhenStdinOverflows`.
- A watched target that is down while no connection has been made counts as reported (src/heal.rs:148-151):
  `Healer.MissedEdgeIsNeverReported`. And an incident that is still down is not opened again, although the
  file's own comment has it otherwise (src/heal.rs:11-13): `Healer.ReportsAreEdges`.

## Model

| member | source | states |
|---|---|---|
| Store.LoadByDigits | src/runtime/store.rs:214-311 | by the mode's three digits: a file with any group or other bit is refused whatever is in it, a private one loads if it parses and is of version 2 and may be thrown away if not |
| Store.RefusedExactlyWhenExposed | src/runtime/store.rs:214-311 | whatever stands at the path, it is refused exactly when its group or other digit is not zero, and discardable exactly when it is unreadable, or private and does not parse or has another version |
| Store.SavedFileIsPrivate | src/runtime/store.rs:329-337 | a saved file has the owner's read and write bits and no other, and a version-2 one loads as what was saved |
| Sources.ValidateMeaning | src/runtime/credentials.rs:87-100 | an accepted credential is its text without the space around it and has the prefix; all space needs the operator, any other prefix is fatal |
| Sources.BlanksAroundAreNothing | src/runtime/credentials.rs:87-100 | line ends and blanks around a mounted credential make no difference, and nothing visible is trimmed |
| PodRuns.RunsAreCoherent | src/runtime/runner.rs:350-415 | in every run the live slot holds a connection exactly while that connection is served, what is dialled, served or being forgotten is the secret held, and nothing is held while enrolling or clearing |
| PodProgress.StopsAreNoticed | src/runtime/runner.rs:286-320 | a stop while enrolling, dialling, serving, sleeping or reading a mounted or foreign source ends the run for good with exit 0 and closes exactly the connection being served, or none; inside a store call it changes nothing |
| PodProgress.DeathIsTheEnd | src/runtime/store.rs:313-316 | a death is the end of a run wherever it comes, and leaves at most the write under way |
| PodProgress.AskingDecides | src/enroll.rs:120-146 | the bearer is what is held, else what the store has, which is held from then on; an exposed file ends the run, and only nothing or nothing usable leads to an enrollment |
| PodProgress.ForgettingDecides | src/enroll.rs:224-241 | a forget asks again at once exactly when the store has a usable credential with another secret, which it holds; otherwise it lets go and removes the file, unless it is exposed |
| PodProgress.RemovingDecides | src/enroll.rs:136-146 | a removal that works leaves no file and goes on to what it was for; one that fails needs the operator |
| PodProgress.ApprovalIsNeverTooLate | src/enroll.rs:149-169 | through any number of empty polls and every lapse but the last, an approval ends with the credential on disk, held and dialled |
| PodProgress.PatientPolling | src/enroll.rs:154-159 | a code polled in vain any number of times is still the code polled |
| PodProgress.LapseIsRenewed | src/enroll.rs:170-181 | each of the first three lapses is answered with the next code, which is polled |
| PodProgress.EnrollmentIsLeft | src/enroll.rs:149-190 | an enrollment is left to save exactly what was granted, to wait exactly on a failure that may pass, to exit exactly on one that will not, a refusal or the fourth lapse, and otherwise not at all |
| PodProgress.PresentedAsGiven | src/runtime/credentials.rs:168-197 | an operator's credential is dialled as the source gave it the moment before: the token, the file's trimmed text, or the foreign source's answer |
| PodProgress.ServedAsDialled | src/runtime/runner.rs:367-393 | what is served is the connection the dial of that very bearer has just brought up |
| PodProgress.UpIsServed | src/runtime/runner.rs:371-403 | a dial that comes up is served until it drops, and then the loop sleeps once and asks again |
| PodProgress.ComesToServe | src/runtime/runner.rs:350-435 | from wherever a run has got to short of its end, with nothing going wrong it serves a new connection within nine turns, sleeping only if it was asleep or when a connection dropped |
| PodRuns.ReenrollmentBudget | src/runtime/runner.rs:345-434 | in any stretch of any run, forgets are at most successful dials plus one and enrollments at most successful dials plus two |
| PodRuns.SpentMeansOutstanding | src/runtime/runner.rs:346-424 | the loop's flag is set exactly while a refusal has been neither followed by a connection nor handed back |
| PodRuns.RefusalIsAnsweredOnce | src/runtime/runner.rs:408-430 | a refused dial is answered with a forget exactly when no earlier refusal is outstanding, and otherwise ends the run with exit 1, however much lies between |
| PodRuns.DialledSecretsWereStored | src/enroll.rs:149-169 | whatever a self-enrolling process holds or dials stood in the store on an earlier turn |
| PodRuns.HeldIsPresentedUntilRefused | src/enroll.rs:96-130 | a credential once held is what every dial presents until one is refused |
| PodRuns.CodesOnlyOverAnEmptyStore | src/enroll.rs:120-146 | an enrollment starts only over an empty store, and a source that does not enroll never writes |
| PodRuns.ExposedFileIsPreserved | src/enroll.rs:132-146 | while the file's group or other digit is not zero nothing clears or overwrites it, no code is asked for, and the first turn that reads it ends the run with exit 2 |
| PodTiming.BackoffClosedForm | src/runtime/runner.rs:397-442 | the backoff of any run is the minimum doubled once for each wait since the start or the last stable drop, capped |
| PodTiming.SleptWithinJitter | src/runtime/runner.rs:437-494 | over any stretch, the time slept is at least 0.8 and less than 1.2 of the backoffs waited on, each of which lies between the least and the most there can be |
| PodTiming.DialRate | src/runtime/runner.rs:350-442 | in any stretch there are at most two more dials than twice the waits, so never three without a wait, and at most 2 * (T / (0.8 * floor) + 1) in T of sleep |
| PodTiming.AskRate | src/runtime/runner.rs:350-442 | in any stretch, the source is asked for a bearer and the server for an enrollment each at most twice for each wait and twice more, and so at most 2 * (T / (0.8 * floor) + 1) times in T of sleep |
| PodTiming.AskingsBalance | src/runtime/runner.rs:350-435 | over any run, every asking was led to by the start, a wait or a forget, and every one of those leads to an asking |
| PodTiming.EnrollmentIsBounded | src/enroll.rs:149-190 | the renewal count is the codes lapsed in this enrollment, which shows at most four |
| PodTiming.EnrollmentEnds | src/enroll.rs:154-189 | an enrollment whose codes are each polled in vain at most n times is over within 4 * (n + 3) turns |
| PodExits.EndingStep | src/runtime/runner.rs:350-430 | from any state a run can be in, an answer ends the run with 2 if and only if a person has to act and with 1 if and only if nothing can help |
| PodExits.ExitCodesAreSound | src/runtime/runner.rs:169-192 | over whole runs: 0 exactly for a stop, 2 exactly for what a person must fix (the lapse being the fourth of its enrollment), 1 exactly for the rest, and an unavailable source never ends a run |
| PodExits.ZeroExactlyForAStop | src/runtime/runner.rs:277-320 | a run exits with 0 if and only if a stop meets it suspended |
| Runner.World.Await | src/runtime/runner.rs:305-320 | an await returns the next answer, or abandons the call in the state a stop or death leaves |
| Runner.DeviceGrantSource.Stored | src/enroll.rs:136-146 | load, discard what is unusable, refuse what is exposed, as the machine does |
| Runner.DeviceGrantSource.NewCode | src/enroll.rs:150-152 | an enrollment or a renewal either shows a code or fails in the right shade |
| Runner.DeviceGrantSource.Save | src/enroll.rs:161-168 | a grant is on disk before it is handed back, or the operator is needed |
| Runner.DeviceGrantSource.Enroll | src/enroll.rs:149-190 | the polling loop is the machine's, and a credential comes back only with its file written |
| Runner.DeviceGrantSource.Credential | src/enroll.rs:120-130 | the held credential, else the stored one, else a fresh enrollment, and it is held afterwards |
| Runner.DeviceGrantSource.ForgetRefused | src/enroll.rs:230-241 | afterwards either nothing is held and the store is empty, or what is held is the usable credential on disk and differs from the refused one |
| Runner.NodeRunner.Bearer | src/runtime/runner.rs:354-365 | each source's bearer, as the machine takes it |
| Runner.NodeRunner.ForgetRefused | src/runtime/credentials.rs:53-61 | a mounted credential is never forgotten; a device grant's is |
| Runner.NodeRunner.WaitThenWiden | src/runtime/runner.rs:437-442 | sleep, then double up to the ceiling |
| Runner.NodeRunner.Serve | src/runtime/runner.rs:371-402 | the connection is parked while it is up and taken back when it drops, and a stable one resets the backoff |
| Runner.NodeRunner.DialLoop | src/runtime/runner.rs:324-435 | the loop is the machine: it returns only with the error the machine exits with, and abandoned it leaves parked what the machine was serving |
| Runner.NodeRunner.TryRun | src/runtime/runner.rs:305-320 | on a stop the parked connection is taken, closed and reported |
| Runner.NodeRunner.RunToExit | src/runtime/runner.rs:277-285 | for every script of turns the process exits exactly when a run of the machine over them does, with its code, at a turn that gives the reason for that code, and with 0 if and only if a stop meets it suspended |
| Fleet.RunsAreSound | src/enroll.rs:120-241 | over every fleet run: what pods hold, dial or forget has been stored, what they are about to save never was, no two save one secret, and what a pod forgot has left the store |
| FleetRuns.GoneUntilRestored | src/enroll.rs:120-241 | a secret that has left the store stays out of it if and only if nobody outside the fleet restores it |
| FleetRefusals.RefusedSecretIsNotRedialled | src/enroll.rs:224-241 | once a forget came back `Ok(true)`, that pod dials that secret again, adopted, loaded, granted or after a restart, only if someone outside the fleet put a file that loads with it back since |
| FleetRefusals.RedialledExactlyWhenPutBack | src/enroll.rs:120-241 | after a forget, the pod can come to dial the secret again with no more help from outside if and only if such a file was put back since and is still there or already taken up; and right after it is put back, always |
| FleetRefusals.CanDialExactly | src/enroll.rs:120-130 | a secret once stored can come to be dialled without help from outside if and only if a load finds it or the pod has it to present |
| FleetRefusals.RestoredSecretIsRedialled | src/enroll.rs:224-241 | a run in which a pod forgets a secret, a backup is restored, and the pod dials it again |
| FleetRuns.LostGrantsAreCounted | src/enroll.rs:161-166 | grants that neither reached the store nor are on their way number at most the crashes plus failed saves, and every secret dialled was stored |
| FleetRuns.LostCredentialsArrivedLate | src/enroll.rs:136-240 | whatever usable credential a pod's discard, clear or save takes off the disk, answered or cut short, is the one it was refused on or came into the store after its last reading of it; and where nobody outside put it there it is another than the refused one if and only if a sibling's save of it landed since that reading |
| FleetRuns.TakingOffIsAWrite | src/enroll.rs:136-240 | only those three writes take one off: the clears leave no file, the save another secret |
| FleetRuns.OpenWindowLoses | src/enroll.rs:136-240 | from every state in which one pod is about to write and another to save, the saved credential can be gone two turns later while its pod dials with it |
| FleetRuns.QuietWindowIsSafe | src/enroll.rs:227-240 | if nothing has come into the store since the pod's last reading, only the secret it was refused on is removed |
| FleetRuns.ForgetCanRemoveASiblingsCredential | src/enroll.rs:232-239 | a run of two pods in which the clear costs the fleet the credential just approved |
| FleetRuns.DiscardCanRemoveASiblingsCredential | src/enroll.rs:137-143 | a run in which throwing away an unusable file does |
| FleetRuns.EachPodIsAProcess | src/enroll.rs:225-241 | every pod of every fleet run is a run of the one-process machine, so all that is proved of those holds of it |
| AtomicSave.SaveIsCrashAtomic | src/runtime/store.rs:313-343 | stopped after any call or part of a write, or failed, a save leaves what a reader found before; completed, the new credential, private, and a version-2 one loads back equal |
| AtomicSave.SaveSurvivesPowerLoss | src/runtime/store.rs:338-341 | when the power fails at any point of a save, unflushed files come back as anything and each name as it was at any call of that save, a reader finds the old credential or, only once the save has completed, the new one; nothing torn |
| AtomicSave.CompletedSaveMayBeLost | src/runtime/store.rs:338-342 | after a completed save both are possible, because the directory is not synced |
| AtomicSave.SecretIsNeverExposed | src/runtime/store.rs:327-341 | from the create on, a temp file with anything in it has mode 0600, whatever was left there before; until then nothing is touched; and the finished file is 0600 |
| AtomicSave.AtomicExactlyWhenTempDiffers | src/runtime/store.rs:327-341 | crash atomicity holds if and only if the temp name differs from the target |
| SaveHistory.ReaderFindsLastCompleted | src/runtime/store.rs:289-343 | after any history of saves, failures and crashes a reader finds the last completed save, or what was there before them all |
| SaveHistory.HistorySurvivesPowerLoss | src/runtime/store.rs:338-341 | and when the power then fails and each name goes back to anything it has meant in all that history, a reader finds what was there before it all or the credential of some save that completed |
| SaveCrowd.ReadersOfACrowd | src/runtime/store.rs:327-341 | however the calls, failures and deaths of any number of writers of one file interleave, if no create lands while another writer is between its create and its end, a reader finds the credential of the last that finished, or what was there before |
| SaveCrowd.TearsExactlyWhenTwoAreLive | src/runtime/store.rs:327-341 | from any orderly state of any number of writers, some interleaving of what is left has a save report success over a corrupt file if and only if two of them have yet to finish |
| SaveCrowd.SecondCreateTears | src/runtime/store.rs:327-341 | in any orderly crowd, a create that lands when another writer has written everything lets that writer report success and leaves an empty file at the path, which no load accepts |
| AtomicSave.Volume.WriteAll | src/runtime/store.rs:338 | writing piece by piece gets as far as the call-by-call machine |
| AtomicSave.Volume.OpenTemp | src/runtime/store.rs:318-337 | the temp file is made and restricted before anything is written |
| AtomicSave.Volume.Save | src/runtime/store.rs:317-343 | the code leaves the volume where the call-by-call machine is, and reports success exactly when it has saved |
| CredentialFile.SaveLandsWholeOrNotAtAll | src/runtime/store.rs:247-343 | for every deployment and profile an interrupted save leaves what the pod machine says, and no other deployment's file is touched |
| Slug.Slugify | src/runtime/store.rs:356-377 | the loop gives the lower-cased alphanumeric runs joined by single dashes, cut at 48, no dash dangling, `default` if empty, and the result is canonical, 1 to 48 long |
| Slug.FixedPointsAreTheSlugs | src/runtime/store.rs:355-377 | the fixed points are exactly the canonical slugs, so slugifying is idempotent |
| Slug.SlugsAgreeExactly | src/runtime/store.rs:355-377 | two names share a slug if and only if they keep the same words: the first of their words, all whole but perhaps the last, as many as 48 characters allow, or `default` where there are none |
| Slug.SlugTellsKept | src/runtime/store.rs:355-377 | a slug is exactly those words joined, and reads back to them |
| Slug.WordlessIsDefault | src/runtime/store.rs:371-376 | a name with no letter or digit shares slug and file with the name `default` |
| Slug.SeparatorsAreLost | src/runtime/store.rs:361-366 | names that differ only in what separates two words share a slug |
| Slug.CaseIsLost | src/runtime/store.rs:359-361 | names that differ only in the case of their letters share a slug |
| Slug.LongNamesCollide | src/runtime/store.rs:367-369 | what lies past the first 48 characters of the slug makes no difference |
| Slug.FileNamesAgreeExactly | src/runtime/store.rs:279-281 | two file names are equal if and only if both slugs are, or words at the front of one profile slug stand at the end of the other deployment slug; with equally many dashes in the profile slugs, if and only if both slugs are |
| Slug.FileNamesCollide | src/runtime/store.rs:279-281 | a profile slug with a dash in it shares its file with another deployment and profile |
| Slug.TempIsNeverACredential | src/runtime/store.rs:279-327 | no credential's temp name is any credential's file name, and two share a temp name only by sharing the file |
| Paths.RenderReadsBack | src/file_io.rs:29-31 | the text of any path, absolute or relative, with its steps up and leading dot, has the same components again |
| Paths.RedundancyIsLost | src/gate.rs:61-78 | a doubled slash, and a dot between slashes, make no difference to the components |
| Gate.JoinLikeUpstream | src/gate.rs:61-78 | the loop is the fold of its components, and from a clean root its result is absolute with nothing but names |
| Gate.JoinIsTheWalk | src/gate.rs:59-78 | in a tree without links the lexical join of any request, relative or absolute, is the place the resolver reaches |
| Gate.CanonicalizeDeepest | src/gate.rs:85-106 | the popping loop gives the longest prefix that resolves, resolved, with the rest put back in order |
| Gate.StoppingPoint | src/gate.rs:80-106 | for a clean path there is such a prefix, and every longer one fails |
| Gate.CheckRequest | src/gate.rs:36-47 | what is approved has some root's components before its own, no deny entry's, and joins, resolves and checks to itself; a request that resolves is approved, as the place it resolves to, if and only if that is so of the place, and is reported denied if and only if it is under a deny entry |
| Gate.GateRootIsClean | src/gate.rs:22-34 | when the base of the join is clean |
| Gate.RequestsStartFrom | src/gate.rs:34-63 | a relative request is taken from the first root as it resolved at construction, or from the top where there is none, and an absolute one from the top |
| Gate.ApprovalHolds | src/gate.rs:36-47 | every approved path is clean, has the components of a root (of the place it led to at construction) before its own and those of no deny entry, nor of where one led at construction, equals the resolver's answer when the request exists, and joins and checks to itself |
| Gate.CreationTheorem | src/gate.rs:80-106 | some extension of the tree makes the approved path resolve to exactly what was approved if and only if its first leftover name is really missing from a directory |
| Gate.LinksResolveSoFree | src/gate.rs:80-106 | where every link resolves, that is so unless a file stands where a directory is asked for |
| Gate.ApprovedThenCreated | src/gate.rs:82-106 | after creating the leftovers the approved path resolves to itself and the same request is approved as the same path |
| Gate.UnresolvedLinkIsReadAsMissing | src/gate.rs:88-100 | a link that leads nowhere is approved as its own path, and leads elsewhere once it leads anywhere |
| Exec.ReadCapped | src/terminal.rs:53-71 | the reader keeps the first `cap` bytes of all it reads and says so exactly when there were more |
| Exec.EveryScheduleGivesTheSameOutput | src/terminal.rs:218-236 | however child and readers interleave, a finished command gives of each stream its first `cap` bytes |
| Exec.EveryScheduleEnds | src/terminal.rs:218-225 | every schedule is at most as long as the work there is |
| Exec.HangsExactlyWhenStdinOverflows | src/terminal.rs:206-225 | every state short of the end has a step, for every child and schedule, if and only if stdin fits in a pipe |
| Exec.CommandsEnd | src/terminal.rs:186-236 | with stdin absent or small enough every maximal schedule finishes, with that output |
| Healer.SelfHealer.Rearm | src/heal.rs:135-141 | only keys still down stay reported |
| Healer.SelfHealer.OnTick | src/heal.rs:130-152 | after a tick the reported keys are exactly those down, and the reports are the edges of the sample |
| Healer.SelfHealer.Run | src/heal.rs:126-154 | over a whole history the watcher agrees with the edge detector |
| Healer.ReportsAreEdges | src/heal.rs:126-154 | a key is reported exactly as often as there is a tick at which it is down, was not down at the tick before, and some connection has been made |
| Healer.ReportsGoOverTheLatest | src/heal.rs:148-151 | whatever is reported was in the sample of a tick and goes over the last connection made by then |
| Healer.MissedEdgeIsNeverReported | src/heal.rs:148-151 | a key that goes down before any connection and stays down is never reported |
| Healer.KeyIsInjective | src/heal.rs:63-133 | the key tells kind and target apart for every kind sampled |

## Left out

- The order in which credential sources are tried, the leftover-variable check and all environment parsing: flat branches.
- The library side (`Node::dial`, the connection, the enrollment endpoints): its outcomes are answers in the turns.
- JSON text: a pair of functions that read back what they wrote, with the empty file unreadable; partial JSON is never parsed because only the temp file ever holds it.
- Saves that overlap inside a fleet run: a fleet turn saves whole; what overlapping saves do is in `SaveCrowd.ReadersOfACrowd` and `SaveCrowd.TearsExactlyWhenTwoAreLive`.
- Power loss inside a fleet run: a crash there is the death of a process; what a power failure leaves is in `AtomicSave.SaveSurvivesPowerLoss`.
- Overflow of a doubled duration: durations are unbounded naturals.
- PodTiming.DialRate: jitter is an integer number of thousandths, so the bound is on exact products and not on floating-point rounding.
- Permissions, resolver errors other than a missing entry, a non-directory or too many links, and names that are not text, in the gate's tree; links may nest to any fixed depth.
- Gate.ApprovalHolds: a deny entry that does not exist when the gate is built is kept as it was written and covers only paths under that spelling.
- Windows path prefixes and, in `exec`, everything but collecting output: spawning, the timeout's kill of the process group, and lossy decoding of the bytes.
- Descendants of the command that keep a pipe open after it exits: the script stands for every writer.
- `docker.rs`, `k8s.rs`, `system.rs`, `monitor.rs`: a sample is any list of incidents.
- What a healing session does once opened, log lines and the text of messages.

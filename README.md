# cifs-apk-deployer, modelled in Dafny

The deployer watches a shared directory for the creation of an Android
package file. When a created entry's name equals the expected file name,
ignoring case, the deployer reinstalls the package on the attached device
and starts its launcher activity. It does this with two `adb` commands,
each run as an external process whose standard error and standard output
are drained and printed.

This project models that program's sequential core:

- the argument gate of `main`;
- the watch loop: filter, dispatch and key reset;
- the command building, sequencing and result logging of the `adb`
  helper;
- the two stream readers.

Everything the program does to the outside world is one ordered log of
effects (`Console.Effect`):

- lines printed to standard output;
- stack traces;
- commands handed to the runtime;
- watch-service registrations;
- calls of the deploy listener.

The environment comes in as data:

- the events and key-reset results the watch service delivers, as a
  sequence of batches;
- whether registration succeeds;
- what each spawned process does (`Adb.Process`): it fails to spawn, or
  it leaves two streams of lines, each possibly null and each possibly
  ending in a failed read;
- the working directory that relative paths resolve against.

Modules:

- `Files` models `java.io.File`: the child of a directory, the base name,
  the absolute path and ASCII `equalsIgnoreCase`.
- `Java` holds the two language pieces the logic turns on: a reference
  that may be null (`Option`) and the exceptions raised or caught.
- `Console` holds the effect log and the filters over it (the commands
  issued and the files dispatched).
- `Streams` models `InputReader` and `ErrorReader`: one drain loop, used
  with separator `"\n"` and with separator `" "`.
- `Adb` models `AdbDeployer`.
- `AppWatcher` models `AndroidAppDeployerWatcher.run`.
- `Deployer` models `main` and its listener.

Each loop and each command sequence of the source is a method proved
against a specification function:

- `Streams.Drain` against `Joined`;
- `AppWatcher.HandleEvents` against `EventsOutcome`;
- `AppWatcher.Run` against `RunOutcome`;
- `Adb.ExecuteCommand` against `CommandLog`;
- `Adb.InstallAndLaunch` against `DeploymentLog`.

The lemmas state what those functions mean: which files reach the
listener, which lines are bypassed, which commands are issued and in what
order, and which texts are printed.

The run's outcome carries a status:

- `Watching`: the watcher is still taking batches;
- `Crashed`: an exception reached the outer catch, which prints the
  attach-failure line;
- `Blocked`: the only watch key is invalid, so `take()` waits forever.

Sequencing (`AppWatcher.Then`) ignores everything after a non-`Watching`
status.

## Model

| member | source | states |
|---|---|---|
| Deployer.MainGate | src/main/java/com/jvra/cifs/Deployer.java:17-28 | a watcher is scheduled exactly when the argument array is non-null and holds three elements; its directory, file name and package are the three arguments, in order, and its listener is set |
| Deployer.MainLog | src/main/java/com/jvra/cifs/Deployer.java:18-21 | the usage line is printed exactly when nothing is scheduled, and nothing else is printed |
| Deployer.OnDeploy | src/main/java/com/jvra/cifs/Deployer.java:28-37 | the listener returns normally whatever installAndLaunch does; for a null file its log is the deployment log plus one IllegalArgumentException trace and it issues no command; otherwise it issues the install command and then the launch command |
| Deployer.ScenarioCommands | src/main/java/com/jvra/cifs/Deployer.java:23-31 | for arguments "/apps", "app.apk", "com.example.app", the watcher covers /apps and app.apk with a listener, and deploying /apps/app.apk issues exactly the install command for /apps/app.apk and then the launch command for com.example.app |
| Deployer.ScenarioInstallText | src/main/java/com/jvra/cifs/Deployer.java:98 | the install command for /apps/app.apk is the literal text "adb install -r /apps/app.apk" |
| AppWatcher.HandleEvents | src/main/java/com/jvra/cifs/Deployer.java:60-72 | the events of one key are handled in delivery order and the log equals the specification `EventsOutcome`; an OVERFLOW event (null context) stops the loop with status Crashed; the loop never blocks |
| AppWatcher.Run | src/main/java/com/jvra/cifs/Deployer.java:52-83 | the log and final status of the whole watcher equal `RunOutcome`: the listening line; then, if registration fails, the attach-failure line and a trace; otherwise one registration followed by the batches until one crashes or its key resets invalid |
| AppWatcher.MatchingFiles | src/main/java/com/jvra/cifs/Deployer.java:64-67 | the reference filter: at most one file per name, and none at all without a listener |
| AppWatcher.CreatedStep | src/main/java/com/jvra/cifs/Deployer.java:63-70 | one created entry with a single-component name calls the listener with File(dir, name) exactly when it matches, and otherwise prints the bypass line exactly once |
| AppWatcher.EventsDispatchMatches | src/main/java/com/jvra/cifs/Deployer.java:60-72 | in a batch without OVERFLOW, the files passed to the listener are exactly the matching created names, as File(dir, name), in delivery order |
| AppWatcher.EventsBypassOthers | src/main/java/com/jvra/cifs/Deployer.java:66-71 | in such a batch the bypass line is printed once for each created name that does not match |
| AppWatcher.BatchesDispatchMatches | src/main/java/com/jvra/cifs/Deployer.java:58-77 | across batches whose resets all succeed and which hold no OVERFLOW, the watcher keeps watching and dispatches exactly the matching names of all batches, in order |
| AppWatcher.BatchesBypassOthers | src/main/java/com/jvra/cifs/Deployer.java:58-77 | across such batches the bypass line is printed once for each non-matching created name |
| AppWatcher.RunDispatchesMatches | src/main/java/com/jvra/cifs/Deployer.java:52-77 | a clean run from its start keeps watching and calls the listener exactly for the matching files, in delivery order |
| AppWatcher.RunBypassesOthers | src/main/java/com/jvra/cifs/Deployer.java:52-77 | in a clean run from its start, the number of bypass lines is the number of created names minus the number of dispatched files |
| AppWatcher.EventsStopped | src/main/java/com/jvra/cifs/Deployer.java:60-64 | once OVERFLOW has crashed the loop over a key's events, the remaining events change nothing |
| AppWatcher.BatchesStopped | src/main/java/com/jvra/cifs/Deployer.java:58-81 | once the run has crashed or blocked, later batches change nothing |
| AppWatcher.RegistersOnce | src/main/java/com/jvra/cifs/Deployer.java:55-58 | whatever the batches and resets, the watch service is created and registered exactly once, because the outer loop is never re-entered |
| AppWatcher.UnregisteredAtMostOnce | src/main/java/com/jvra/cifs/Deployer.java:73-77 | the unregistered-key line is printed at most once, and when it is printed the watcher is blocked |
| AppWatcher.EventsDispatchPrefix | src/main/java/com/jvra/cifs/Deployer.java:60-72 | for any events of one key, OVERFLOW included, the files passed to the listener are an initial part of the matching created names, in delivery order, and all of them while the loop is still watching |
| AppWatcher.BatchDispatchPrefix | src/main/java/com/jvra/cifs/Deployer.java:60-77 | the same for one key's events followed by its reset, which never calls the listener |
| AppWatcher.BatchesDispatchPrefix | src/main/java/com/jvra/cifs/Deployer.java:58-77 | the same across any batches, whatever resets fail and whatever OVERFLOW events come |
| AppWatcher.RunDispatchesPrefix | src/main/java/com/jvra/cifs/Deployer.java:52-83 | for every run, only matching entries ever reach the listener, as File(dir, name) and in delivery order; while the run is still watching, every matching entry so far has reached it |
| AppWatcher.ScenarioBatch | src/main/java/com/jvra/cifs/Deployer.java:60-71 | watching /apps for app.apk, a batch creating app.apk, readme.txt and APP.APK calls the listener with /apps/app.apk and then /apps/APP.APK |
| AppWatcher.IntendedDispatchesEveryMatch | src/main/java/com/jvra/cifs/Deployer.java:55-77 | the corrected loop (skip path-less events, re-register after an invalid key) calls the listener for every matching created name of every batch, in order |
| AppWatcher.IntendedRunDispatchesEveryMatch | src/main/java/com/jvra/cifs/Deployer.java:52-77 | the same for the corrected run from its start: after the listening line and the first registration, exactly the matching files reach the listener |
| AppWatcher.IntendedAgreesWhenClean | src/main/java/com/jvra/cifs/Deployer.java:58-77 | on batches whose resets succeed and which hold no OVERFLOW, the corrected loop and the loop as written produce the same log |
| AppWatcher.OverflowEndsWatcher | src/main/java/com/jvra/cifs/Deployer.java:63-81 | as written, an OVERFLOW ahead of a matching entry crashes the watcher and nothing is deployed; the corrected loop deploys /apps/app.apk |
| AppWatcher.InvalidKeyBlocksWatcher | src/main/java/com/jvra/cifs/Deployer.java:73-77 | as written, an invalid key blocks the watcher, so a matching entry in a later batch is never deployed; the corrected loop deploys /apps/app.apk |
| Streams.ReadFailure | src/main/java/com/jvra/cifs/Deployer.java:164-166 | a reader prints at most one stack trace and issues no command |
| Streams.Drain | src/main/java/com/jvra/cifs/Deployer.java:152-168 | a null stream gives null; otherwise the text is every line followed by the separator, in order; a failing read leaves that text and one stack trace |
| Streams.ReadInput | src/main/java/com/jvra/cifs/Deployer.java:152-168 | InputReader returns null or the lines each followed by "\n"; when no line holds a line break, splitting the text at line breaks gives back exactly the lines read |
| Streams.ReadError | src/main/java/com/jvra/cifs/Deployer.java:178-192 | ErrorReader returns null or the lines each followed by " "; the text is "" exactly when no line was read |
| Streams.JoinedEmptyIff | src/main/java/com/jvra/cifs/Deployer.java:185-191 | with a non-empty separator, the accumulated text is empty exactly when no line was read |
| Streams.SplitJoined | src/main/java/com/jvra/cifs/Deployer.java:161-163 | the output text loses nothing: splitting it at line breaks recovers the lines |
| Adb.CommandsRoundTrip | src/main/java/com/jvra/cifs/Deployer.java:98-109 | the install command yields back its path and the launch command its package name, and neither is ever read as the other |
| Adb.Report | src/main/java/com/jvra/cifs/Deployer.java:126-132 | after the process exits, the error text is printed first unless it is "" (a present error stream with no line), and the output text is printed last; a null text prints as "null" |
| Adb.CommandLog | src/main/java/com/jvra/cifs/Deployer.java:113-143 | executeComamnd prints the command, then spawns exactly that command, and issues no other command, whatever the process does |
| Adb.ExecuteCommand | src/main/java/com/jvra/cifs/Deployer.java:113-143 | the log equals `CommandLog`: the command is printed and spawned; a spawn failure is printed as a trace and not rethrown |
| Adb.Exited | src/main/java/com/jvra/cifs/Deployer.java:120-132 | once the process is spawned, the error reader's failures come first, then the output reader's, then the report |
| Adb.Install | src/main/java/com/jvra/cifs/Deployer.java:92-100 | the file is printed first; a null file throws the IllegalArgumentException and issues no command; otherwise exactly "adb install -r " followed by the absolute path is issued |
| Adb.DeploymentLog | src/main/java/com/jvra/cifs/Deployer.java:102-111 | installAndLaunch always starts with the installing line and stops right there for a null file |
| Adb.DeploymentCommands | src/main/java/com/jvra/cifs/Deployer.java:102-111 | for a non-null file, installAndLaunch issues the install command strictly before the launch command and no other, whatever the install process did; for a null file it issues none |
| Adb.SpawnFailureLog | src/main/java/com/jvra/cifs/Deployer.java:113-118 | a command that cannot be spawned is printed, attempted and its failure printed as a trace, and nothing else is logged (the catch at lines 137-138) |
| Adb.SpawnFailureStillLaunches | src/main/java/com/jvra/cifs/Deployer.java:102-111 | when the install process cannot be spawned, installAndLaunch logs the installing line, the install command, its attempt and trace, then the launching line and the whole launch command's log |
| Adb.SpawnFailureIssuesBoth | src/main/java/com/jvra/cifs/Deployer.java:102-111 | when the install process cannot be spawned, the install command and then the launch command are both issued |
| Adb.InstallAndLaunch | src/main/java/com/jvra/cifs/Deployer.java:102-111 | the log equals `DeploymentLog`; the exception is the IllegalArgumentException exactly when the file is null; the commands are as in `DeploymentCommands` |
| Files.ChildShape | src/main/java/com/jvra/cifs/Deployer.java:64 | new File(dir, name) is the directory path without its trailing separator (empty for an empty directory path), then one separator, then the name |
| Files.LastSeparatorSpec | src/main/java/com/jvra/cifs/Deployer.java:67 | the position used by getName is the last separator of the path, or -1 when there is none |
| Files.NameShape | src/main/java/com/jvra/cifs/Deployer.java:67 | getName holds no separator and is a suffix of the path |
| Files.NameOfChild | src/main/java/com/jvra/cifs/Deployer.java:64-67 | for a single-component name, the base name of File(dir, name) is that name |
| Files.AbsolutePath | src/main/java/com/jvra/cifs/Deployer.java:98 | an absolute path is kept as is; against an absolute working directory the result is absolute and ends in the relative path |
| Files.EqualsIgnoreCaseIffLower | src/main/java/com/jvra/cifs/Deployer.java:67 | the ignore-case comparison holds exactly when the lower-cased names are equal |
| Files.LowerLength | src/main/java/com/jvra/cifs/Deployer.java:67 | lower-casing keeps the length |

## Left out

- The watch service is not modelled: its creation, the registration's
  event kind (always ENTRY_CREATE) and the blocking `take()`. Batches and
  reset results are input, and the event kind is only part of the
  reporting line. When the input runs out, a still-watching run is the
  watcher waiting in `take()`.
- `Runtime.exec`, `Process.waitFor` and `proc.destroy` are not modelled.
  Each process is an `Adb.Process` value. Argument tokenisation by `exec`
  is not modelled either: the command is recorded as one string.
- The thread pool, `Future.get` and the concurrent draining of the two
  streams are left out. The error reader is modelled as running before
  the output reader, which is the order in which their results are
  printed.
- `InterruptedException` is left out. It arises only from thread timing.
- Stack-trace text is left out: only the exception's kind is recorded.
- Path handling is simplified. Paths use `/`, and `File.toString()` is
  the path as given. `java.io.File` keeps `.` and `..` just as the model
  does, but it removes repeated and trailing separators and the model does
  not. So for a directory argument `/apps/`, Java prints the listening line
  with `/apps` while `AppWatcher.ListeningLine` gives `/apps/`. The child
  path and the absolute path differ from Java's in the same cases. The
  base name of a child is proved equal to the entry name only for
  single-component names, which is what a directory watch delivers.
- `Files.EqualsIgnoreCase`: folds ASCII letters only. Java's full Unicode
  case comparison is not modelled.
- `AppWatcher.Run`: the listener's own log (`Deployer.OnDeploy`) is kept
  separate. The watcher log records the call as a `Deploy` effect,
  because the listener swallows every exception and so never changes the
  watch loop.
- After an invalid key, the program's design description has the watcher
  register again. The code does not: its inner loop has no exit. The
  model follows the code, and the difference is listed under Findings.
- The program's design description says a deployment stops, with no
  launch command, when the install process cannot be spawned. The code does
  not: `executeComamnd` catches the spawn failure and returns normally, so
  `installAndLaunch` goes on and issues the launch command. The model
  follows the code. `Adb.DeploymentCommands` states both commands for every
  install process. `Adb.SpawnFailureStillLaunches` and
  `Adb.SpawnFailureIssuesBoth` state the spawn-failure case on its own.
- The second null check in `installAndLaunch` is not modelled as a
  separate path. It cannot fire, because `install` has already thrown
  for a null file.
- The log is an ordinary value, not a ghost one, because it is the
  program's observable output.

## Findings

| source | as written | input that shows it | evidently intended | confidence | as-written member | corrected member |
|---|---|---|---|---|---|---|
| src/main/java/com/jvra/cifs/Deployer.java:73-77 | an invalid key after `reset()` is only reported; the inner `while (true)` never exits, so `take()` waits forever on a service whose only key is cancelled | watching /apps for app.apk: a first batch whose key resets invalid, then a batch creating app.apk | leave the inner loop so the outer loop registers a fresh watch service, and go on deploying | medium, not executed | AppWatcher.InvalidKeyBlocksWatcher | AppWatcher.IntendedRunDispatchesEveryMatch |
| src/main/java/com/jvra/cifs/Deployer.java:63-64 | an OVERFLOW event has a null context, so building the file throws a NullPointerException that ends the watcher through the outer catch | one batch holding OVERFLOW followed by the creation of app.apk | skip events that carry no path and keep watching | medium, not executed | AppWatcher.OverflowEndsWatcher | AppWatcher.IntendedRunDispatchesEveryMatch |

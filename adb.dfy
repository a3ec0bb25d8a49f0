/** AdbDeployer: builds the two device-bridge commands, runs each as an
    external process whose two streams are drained, and logs the outcome. */
module Adb {
  import opened Java
  import opened Files
  import opened Console
  import opened Streams

  /** What the runtime does with one command: it cannot be spawned, or the
      process runs to completion and leaves its standard error and standard
      output streams (either of which a runtime could report as null). */
  datatype Process = SpawnFailure | Spawned(stderr: Option<Stream>, stdout: Option<Stream>)

  const InstallPrefix: string := "adb install -r "
  const LaunchPrefix: string := "adb shell monkey -p "
  const LaunchSuffix: string := " -c android.intent.category.LAUNCHER 1"
  const NullApkMessage: string := "AndroidApk must not be null"

  /** The command that reinstalls the package file at `path`. */
  function InstallCommand(path: string): string {
    InstallPrefix + path
  }

  /** The command that starts the launcher activity of `packageName`. */
  function LaunchCommand(packageName: string): string {
    LaunchPrefix + packageName + LaunchSuffix
  }

  /** Reads back the path an install command refers to. */
  function InstallTarget(command: string): Option<string> {
    if |command| >= |InstallPrefix| && command[..|InstallPrefix|] == InstallPrefix
    then Some(command[|InstallPrefix|..]) else None
  }

  /** Reads back the package a launch command starts. */
  function LaunchTarget(command: string): Option<string> {
    if |command| >= |LaunchPrefix| + |LaunchSuffix|
       && command[..|LaunchPrefix|] == LaunchPrefix
       && command[|command| - |LaunchSuffix|..] == LaunchSuffix
    then Some(command[|LaunchPrefix|..|command| - |LaunchSuffix|]) else None
  }

  /** The two command builders are inverted by the two readers, and a launch
      command is never taken for an install command or the other way round. */
  lemma CommandsRoundTrip(path: string, packageName: string)
    ensures InstallTarget(InstallCommand(path)) == Some(path)
    ensures LaunchTarget(LaunchCommand(packageName)) == Some(packageName)
    ensures InstallTarget(LaunchCommand(packageName)) == None
    ensures LaunchTarget(InstallCommand(path)) == None
  {
    var i := InstallCommand(path);
    var l := LaunchCommand(packageName);
    assert i[..|InstallPrefix|] == InstallPrefix;
    assert l[..|LaunchPrefix|] == LaunchPrefix;
    assert l[|l| - |LaunchSuffix|..] == LaunchSuffix;
    assert l[|LaunchPrefix|..|l| - |LaunchSuffix|] == packageName;
    assert l[4] == 's' && InstallPrefix[4] == 'i';
    assert i[4] == 'i' && LaunchPrefix[4] == 's';
    if |l| >= |InstallPrefix| {
      assert l[..|InstallPrefix|][4] != InstallPrefix[4];
    }
    if |i| >= |LaunchPrefix| {
      assert i[..|LaunchPrefix|][4] != LaunchPrefix[4];
    }
  }

  /** Text printed for a possibly-null file: File.toString() is its path. */
  function FileText(file: Option<File>): string {
    if file.None? then "null" else file.value.path
  }

  function InstallingLine(file: Option<File>): string {
    "Installing android app: " + FileText(file) + "..."
  }

  function LaunchingLine(file: Option<File>): string {
    "Launching android app: " + FileText(file) + "..."
  }

  /** The result lines printed after the process exits: the error text, then
      the output text; or the output text alone when the error text is empty,
      which happens exactly when the error stream was there and yielded no line. */
  function Report(stderr: Option<Stream>, stdout: Option<Stream>): (log: seq<Effect>)
    ensures |log| == (if stderr.Some? && stderr.value.lines == [] then 1 else 2)
    ensures log[|log| - 1] == Print(Shown(TextOf(stdout, InputSeparator)))
    ensures Commands(log) == [] && Dispatches(log) == []
  {
    var output := Print(Shown(TextOf(stdout, InputSeparator)));
    if stderr.Some? && stderr.value.lines == [] then [output]
    else [Print(Shown(TextOf(stderr, ErrorSeparator))), output]
  }

  /** Everything one executeComamnd call logs, in order: the command, the
      attempt to spawn it, then either the spawn failure or the readers'
      failures followed by the report. */
  function CommandLog(command: string, process: Process): (log: seq<Effect>)
    ensures |log| >= 3 && log[0] == Print(command) && log[1] == Exec(command)
    ensures Commands(log) == [command]
    ensures Dispatches(log) == []
  {
    var tail :=
      if process.SpawnFailure? then [StackTrace(IOFailure)]
      else ReadFailure(process.stderr) + ReadFailure(process.stdout) + Report(process.stderr, process.stdout);
    assert Commands(tail) == [] && Dispatches(tail) == [] by {
      if process.Spawned? {
        CommandsAppend(ReadFailure(process.stderr), ReadFailure(process.stdout));
        CommandsAppend(ReadFailure(process.stderr) + ReadFailure(process.stdout), Report(process.stderr, process.stdout));
        DispatchesAppend(ReadFailure(process.stderr), ReadFailure(process.stdout));
        DispatchesAppend(ReadFailure(process.stderr) + ReadFailure(process.stdout), Report(process.stderr, process.stdout));
      }
    }
    CommandsAppend([Print(command), Exec(command)], tail);
    DispatchesAppend([Print(command), Exec(command)], tail);
    assert Commands([Print(command), Exec(command)]) == [command] by {
      assert [Print(command), Exec(command)][..1] == [Print(command)];
      assert [Print(command)][..0] == [];
    }
    assert Dispatches([Print(command), Exec(command)]) == [] by {
      assert [Print(command), Exec(command)][..1] == [Print(command)];
      assert [Print(command)][..0] == [];
    }
    [Print(command), Exec(command)] + tail
  }

  /** executeComamnd. A spawn failure is caught and printed, never rethrown.
      Otherwise the process runs to completion (`Exited`). */
  method ExecuteCommand(command: string, process: Process) returns (log: seq<Effect>)
    ensures log == CommandLog(command, process)
  {
    log := [Print(command), Exec(command)];
    match process
    case SpawnFailure =>
      log := log + [StackTrace(IOFailure)];
    case Spawned(stderr, stdout) =>
      var tail := Exited(stderr, stdout);
      log := log + tail;
  }

  /** What executeComamnd logs once the process is spawned: standard error
      is drained, then standard output, and the error text is printed first
      only when it is not the empty string. */
  method Exited(stderr: Option<Stream>, stdout: Option<Stream>) returns (log: seq<Effect>)
    ensures log == ReadFailure(stderr) + ReadFailure(stdout) + Report(stderr, stdout)
  {
    var error, errorLog := ReadError(stderr);
    var output, outputLog := ReadInput(stdout);
    var report;
    if error != Some("") {
      report := [Print(Shown(error)), Print(Shown(output))];
    } else {
      report := [Print(Shown(output))];
    }
    assert report == Report(stderr, stdout);
    log := errorLog + outputLog + report;
  }

  /** Everything installAndLaunch logs. A null file stops it after the first
      line; otherwise the install command runs, then the launch command,
      whatever became of the install. */
  function DeploymentLog(file: Option<File>, packageName: string, cwd: string,
                         install: Process, launch: Process): (log: seq<Effect>)
    ensures |log| > 0 && log[0] == Print(InstallingLine(file))
    ensures file.None? ==> log == [Print(InstallingLine(file))]
  {
    if file.None? then [Print(InstallingLine(file))]
    else
      [Print(InstallingLine(file))]
      + CommandLog(InstallCommand(AbsolutePath(file.value, cwd)), install)
      + [Print(LaunchingLine(file))]
      + CommandLog(LaunchCommand(packageName), launch)
  }

  /** Deployment issues no command for a null file, and otherwise exactly the
      install command and then the launch command, whatever the install
      process did; it never calls the deploy listener. */
  lemma DeploymentCommands(file: Option<File>, packageName: string, cwd: string,
                           install: Process, launch: Process)
    ensures Commands(DeploymentLog(file, packageName, cwd, install, launch))
            == if file.None? then []
               else [InstallCommand(AbsolutePath(file.value, cwd)), LaunchCommand(packageName)]
    ensures Dispatches(DeploymentLog(file, packageName, cwd, install, launch)) == []
  {
    if file.None? {
      PrintOnly(InstallingLine(file));
    } else {
      var installCommand := InstallCommand(AbsolutePath(file.value, cwd));
      var launchCommand := LaunchCommand(packageName);
      var installLog := CommandLog(installCommand, install);
      var launchLog := CommandLog(launchCommand, launch);
      assert DeploymentLog(file, packageName, cwd, install, launch)
             == [Print(InstallingLine(file))] + installLog + [Print(LaunchingLine(file))] + launchLog;
      TwoCommandLog(InstallingLine(file), installLog, installCommand,
                    LaunchingLine(file), launchLog, launchCommand);
    }
  }

  /** A command that cannot be spawned: it is printed, attempted, and its
      failure printed as a trace, and nothing else happens. */
  lemma SpawnFailureLog(command: string)
    ensures CommandLog(command, SpawnFailure) == [Print(command), Exec(command), StackTrace(IOFailure)]
  {
  }

  /** For a non-null file: the installing line, the install command's log,
      the launching line, the launch command's log. */
  lemma DeploymentParts(file: File, packageName: string, cwd: string, install: Process, launch: Process)
    ensures DeploymentLog(Some(file), packageName, cwd, install, launch)
            == [Print(InstallingLine(Some(file)))] + CommandLog(InstallCommand(AbsolutePath(file, cwd)), install)
               + [Print(LaunchingLine(Some(file)))] + CommandLog(LaunchCommand(packageName), launch)
  {
  }

  /** A spawn failure of the install command is only printed: the launch
      line and the launch command's log follow it all the same. */
  lemma SpawnFailureStillLaunches(file: File, packageName: string, cwd: string, launch: Process)
    ensures var command := InstallCommand(AbsolutePath(file, cwd));
            DeploymentLog(Some(file), packageName, cwd, SpawnFailure, launch)
            == [Print(InstallingLine(Some(file))), Print(command), Exec(command), StackTrace(IOFailure),
                Print(LaunchingLine(Some(file)))]
               + CommandLog(LaunchCommand(packageName), launch)
  {
    var command := InstallCommand(AbsolutePath(file, cwd));
    var installing := Print(InstallingLine(Some(file)));
    var launching := Print(LaunchingLine(Some(file)));
    var rest := CommandLog(LaunchCommand(packageName), launch);
    SpawnFailureLog(command);
    DeploymentParts(file, packageName, cwd, SpawnFailure, launch);
    assert [installing] + [Print(command), Exec(command), StackTrace(IOFailure)] + [launching]
           == [installing, Print(command), Exec(command), StackTrace(IOFailure), launching];
  }

  /** ... so both commands are issued, the install command first. */
  lemma SpawnFailureIssuesBoth(file: File, packageName: string, cwd: string, launch: Process)
    ensures Commands(DeploymentLog(Some(file), packageName, cwd, SpawnFailure, launch))
            == [InstallCommand(AbsolutePath(file, cwd)), LaunchCommand(packageName)]
  {
    DeploymentCommands(Some(file), packageName, cwd, SpawnFailure, launch);
  }

  /** A banner, one command's log, another banner and another command's log
      issue the two commands in order and dispatch nothing. */
  lemma TwoCommandLog(first: string, firstLog: seq<Effect>, firstCommand: string,
                      second: string, secondLog: seq<Effect>, secondCommand: string)
    requires Commands(firstLog) == [firstCommand] && Dispatches(firstLog) == []
    requires Commands(secondLog) == [secondCommand] && Dispatches(secondLog) == []
    ensures Commands([Print(first)] + firstLog + [Print(second)] + secondLog) == [firstCommand, secondCommand]
    ensures Dispatches([Print(first)] + firstLog + [Print(second)] + secondLog) == []
  {
    PrintOnly(first);
    PrintOnly(second);
    FourPartLog([Print(first)], firstLog, [Print(second)], secondLog);
  }

  /** install: prints the file, rejects a null one with an
      IllegalArgumentException before any command is built, and otherwise
      runs exactly the install command for the file's absolute path. */
  method Install(file: Option<File>, cwd: string, process: Process) returns (log: seq<Effect>, thrown: Option<Exception>)
    ensures thrown.Some? <==> file.None?
    ensures file.None? ==> thrown == Some(IllegalArgument(NullApkMessage)) && log == [Print(InstallingLine(file))]
    ensures file.Some? ==> log == [Print(InstallingLine(file))] + CommandLog(InstallCommand(AbsolutePath(file.value, cwd)), process)
    ensures Commands(log) == if file.None? then [] else [InstallCommand(AbsolutePath(file.value, cwd))]
  {
    log := [Print(InstallingLine(file))];
    if file.None? {
      thrown := Some(IllegalArgument(NullApkMessage));
      return;
    }
    var command := InstallCommand(AbsolutePath(file.value, cwd));
    var commandLog := ExecuteCommand(command, process);
    assert Commands(log) == [] by { assert log[..0] == []; }
    CommandsAppend(log, commandLog);
    log := log + commandLog;
    thrown := None;
  }

  /** installAndLaunch: the install, then the launch of the package. An
      exception from install propagates and no launch command is built; a
      failed install process does not stop the launch. The second null check
      of the source cannot fire, since install has already rejected a null file. */
  method InstallAndLaunch(file: Option<File>, packageName: string, cwd: string,
                          install: Process, launch: Process) returns (log: seq<Effect>, thrown: Option<Exception>)
    ensures thrown == if file.None? then Some(IllegalArgument(NullApkMessage)) else None
    ensures log == DeploymentLog(file, packageName, cwd, install, launch)
    ensures Commands(log) == if file.None? then []
                             else [InstallCommand(AbsolutePath(file.value, cwd)), LaunchCommand(packageName)]
  {
    DeploymentCommands(file, packageName, cwd, install, launch);
    log, thrown := Install(file, cwd, install);
    if thrown.Some? {
      return;
    }
    log := log + [Print(LaunchingLine(file))];
    var command := LaunchCommand(packageName);
    var commandLog := ExecuteCommand(command, launch);
    log := log + commandLog;
  }
}

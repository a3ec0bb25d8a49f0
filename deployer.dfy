/** Deployer.main and the deploy listener it installs: check the arguments,
    then schedule a watcher whose listener installs and launches the package
    and swallows whatever that throws. */
module Deployer {
  import opened Java
  import opened Files
  import opened Console
  import opened Adb
  import AppWatcher

  const UsageLine: string := "Usage: java -jar cifs-apk-deployer <shared-dir> <android-file> <package-name>"

  /** What main leaves behind: the usage line, or a watcher handed to the
      thread pool together with the package the listener launches. */
  datatype Start = ShowUsage | Scheduled(watcher: AppWatcher.Watcher, packageName: string)

  /** main's argument gate: a watcher is scheduled exactly when there are
      three arguments, read as the shared directory, the package file name
      and the package name; the listener is always set. */
  function MainGate(args: Option<seq<string>>): (r: Start)
    ensures r.Scheduled? <==> args.Some? && |args.value| == 3
    ensures r.Scheduled? ==> r.watcher.hasListener
                             && [r.watcher.apkDir.path, r.watcher.fileName, r.packageName] == args.value
  {
    if args.None? || 0 >= |args.value| || 3 != |args.value| then ShowUsage
    else Scheduled(AppWatcher.Watcher(File(args.value[0]), args.value[1], true), args.value[2])
  }

  /** What main prints: only the usage line, and only when it schedules nothing. */
  function MainLog(start: Start): (log: seq<Effect>)
    ensures log == [] || log == [Print(UsageLine)]
    ensures start.ShowUsage? <==> log != []
  {
    if start.ShowUsage? then [Print(UsageLine)] else []
  }

  /** The listener of main: installAndLaunch, with any exception caught and
      its stack trace printed, so nothing reaches the watch loop. For the
      non-null file the watcher always passes, both commands are issued and
      no stack trace of this listener is printed. */
  method OnDeploy(file: Option<File>, packageName: string, cwd: string,
                  install: Process, launch: Process) returns (log: seq<Effect>)
    ensures log == DeploymentLog(file, packageName, cwd, install, launch)
                   + (if file.None? then [StackTrace(IllegalArgument(NullApkMessage))] else [])
    ensures Commands(log) == if file.None? then []
                             else [InstallCommand(AbsolutePath(file.value, cwd)), LaunchCommand(packageName)]
  {
    var thrown;
    DeploymentCommands(file, packageName, cwd, install, launch);
    log, thrown := InstallAndLaunch(file, packageName, cwd, install, launch);
    CommandsAppend(log, if thrown.Some? then [StackTrace(thrown.value)] else []);
    if thrown.Some? {
      log := log + [StackTrace(thrown.value)];
    }
  }

  /** The worked example: package file "app.apk" in "/apps", package
      "com.example.app". */
  lemma ScenarioCommands(cwd: string, install: Process, launch: Process)
    ensures var start := MainGate(Some(["/apps", "app.apk", "com.example.app"]));
            start.Scheduled? && start.watcher == AppWatcher.Watcher(File("/apps"), "app.apk", true)
    ensures Commands(DeploymentLog(Some(File("/apps/app.apk")), "com.example.app", cwd, install, launch))
            == [InstallCommand("/apps/app.apk"), LaunchCommand("com.example.app")]
  {
    assert AbsolutePath(File("/apps/app.apk"), cwd) == "/apps/app.apk";
    DeploymentCommands(Some(File("/apps/app.apk")), "com.example.app", cwd, install, launch);
  }

  /** The install command of the worked example, spelled out. */
  lemma ScenarioInstallText()
    ensures InstallCommand("/apps/app.apk") == "adb install -r /apps/app.apk"
  {
  }
}

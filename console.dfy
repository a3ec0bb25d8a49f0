/** What the deployer does to the outside world, as one ordered log: lines
    printed to standard output, stack traces printed to standard error,
    external commands handed to the runtime, watch registrations and calls of
    the deploy listener. */
module Console {
  import opened Java
  import opened Files

  datatype Effect =
    | Print(line: string)          // System.out.println
    | StackTrace(cause: Exception) // Throwable.printStackTrace; its text is not modelled
    | Exec(command: string)        // Runtime.exec(command) is attempted
    | Register(dir: File)          // a new WatchService is created and dir registered for ENTRY_CREATE
    | Deploy(file: File)           // the deploy listener is called with file

  /** How Java prints a possibly-null string: a null prints as "null". */
  function Shown(s: Option<string>): string {
    if s.None? then "null" else s.value
  }

  /** The commands handed to the runtime, in the order they were issued. */
  function Commands(log: seq<Effect>): (r: seq<string>)
    ensures |r| <= |log|
  {
    if log == [] then []
    else Commands(log[..|log| - 1]) + (if log[|log| - 1].Exec? then [log[|log| - 1].command] else [])
  }

  /** The files the deploy listener was called with, in call order. */
  function Dispatches(log: seq<Effect>): (r: seq<File>)
    ensures |r| <= |log|
  {
    if log == [] then []
    else Dispatches(log[..|log| - 1]) + (if log[|log| - 1].Deploy? then [log[|log| - 1].file] else [])
  }

  lemma {:induction false} CommandsAppend(a: seq<Effect>, b: seq<Effect>)
    ensures Commands(a + b) == Commands(a) + Commands(b)
  {
    if b == [] {
      assert a + b == a;
    } else {
      var b' := b[..|b| - 1];
      assert (a + b)[..|a + b| - 1] == a + b';
      CommandsAppend(a, b');
    }
  }

  lemma {:induction false} DispatchesAppend(a: seq<Effect>, b: seq<Effect>)
    ensures Dispatches(a + b) == Dispatches(a) + Dispatches(b)
  {
    if b == [] {
      assert a + b == a;
    } else {
      var b' := b[..|b| - 1];
      assert (a + b)[..|a + b| - 1] == a + b';
      DispatchesAppend(a, b');
    }
  }

  /** A log made of four consecutive parts issues and dispatches what its
      parts do, in order. */
  lemma FourPartLog(a: seq<Effect>, b: seq<Effect>, c: seq<Effect>, d: seq<Effect>)
    ensures Commands(a + b + c + d) == Commands(a) + Commands(b) + Commands(c) + Commands(d)
    ensures Dispatches(a + b + c + d) == Dispatches(a) + Dispatches(b) + Dispatches(c) + Dispatches(d)
  {
    CommandsAppend(a, b);
    CommandsAppend(a + b, c);
    CommandsAppend(a + b + c, d);
    DispatchesAppend(a, b);
    DispatchesAppend(a + b, c);
    DispatchesAppend(a + b + c, d);
  }

  /** A one-entry log other than Exec and Deploy issues and dispatches nothing. */
  lemma PrintOnly(line: string)
    ensures Commands([Print(line)]) == [] && Dispatches([Print(line)]) == []
  {
    assert [Print(line)][..0] == [];
  }

  /** A log that issues no command: every entry is something other than Exec. */
  lemma {:induction false} NoCommands(log: seq<Effect>)
    requires forall i :: 0 <= i < |log| ==> !log[i].Exec?
    ensures Commands(log) == []
  {
    if log != [] {
      NoCommands(log[..|log| - 1]);
    }
  }

  /** A log that calls no listener. */
  lemma {:induction false} NoDispatches(log: seq<Effect>)
    requires forall i :: 0 <= i < |log| ==> !log[i].Deploy?
    ensures Dispatches(log) == []
  {
    if log != [] {
      NoDispatches(log[..|log| - 1]);
    }
  }
}

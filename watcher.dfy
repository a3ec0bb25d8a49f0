/** AndroidAppDeployerWatcher.run: watch the shared directory for created
    entries and call the deploy listener for each entry whose name matches
    the package file name, ignoring case.

    The watch service is abstracted into its observable behaviour: whether
    creating and registering it succeeds, and the batches of events that
    successive take() calls return, each with the result of the key's reset(). */
module AppWatcher {
  import opened Java
  import opened Files
  import opened Console

  /** One event of a batch: an ENTRY_CREATE event for a created entry, or an
      OVERFLOW event, which a watch service may deliver whatever was
      registered and whose context is null. */
  datatype Event = Created(name: string) | Overflow

  /** What one take() yields: the key's events in delivery order, and what
      reset() answers once they are handled. */
  datatype Batch = Batch(events: seq<Event>, resetValid: bool)

  /** The watcher's configuration: the watched directory, the package file
      name and whether a deploy listener is set. It never changes. */
  datatype Watcher = Watcher(apkDir: File, fileName: string, hasListener: bool)

  /** Watching: waiting in take() for the next batch. Crashed: an exception
      reached the handler that ends run(). Blocked: the only key has been
      cancelled, so take() never returns again. */
  datatype Status = Watching | Crashed | Blocked

  /** The log of a stretch of the run, and where the run stands after it. */
  datatype Outcome = Outcome(log: seq<Effect>, status: Status)

  const BypassLine: string := "Bypassing this file, nothing to proccess"
  const UnregisteredLine: string := "Key has been unregistered"
  const AttachFailureLine: string := "Could not attach jar change watcher for class loader"

  function ListeningLine(dir: File): string {
    "Listening deploy changes on dir " + dir.path + "..."
  }

  function ReportingLine(name: string): string {
    "Reporting deploy changes on file " + name + " on event ENTRY_CREATE"
  }

  /** Sequencing: once the run has crashed or blocked, nothing that follows happens. */
  function Then(first: Outcome, next: Outcome): Outcome {
    if first.status != Watching then first else Outcome(first.log + next.log, next.status)
  }

  lemma ThenAssociative(a: Outcome, b: Outcome, c: Outcome)
    ensures Then(Then(a, b), c) == Then(a, Then(b, c))
  {
  }

  /** The test at the heart of the loop: a listener is set and the base name
      of the created file equals the package file name, ignoring case. */
  predicate Matches(w: Watcher, file: File) {
    w.hasListener && EqualsIgnoreCase(Name(file), w.fileName)
  }

  /** Handling one event. An OVERFLOW event's null context makes building the
      file throw a NullPointerException, which ends the run. */
  function EventStep(w: Watcher, e: Event): Outcome {
    match e
    case Overflow => Outcome([Print(AttachFailureLine), StackTrace(NullPointer)], Crashed)
    case Created(name) =>
      var file := Child(w.apkDir, name);
      Outcome([Print(ReportingLine(name))] + (if Matches(w, file) then [Deploy(file)] else [Print(BypassLine)]), Watching)
  }

  /** reset() on the key. An invalid key is only reported: the loop goes on to
      take() from a service whose only key is cancelled, and waits forever. */
  function ResetStep(valid: bool): Outcome {
    if valid then Outcome([], Watching) else Outcome([Print(UnregisteredLine)], Blocked)
  }

  function EventsOutcome(w: Watcher, events: seq<Event>): Outcome {
    if events == [] then Outcome([], Watching)
    else Then(EventsOutcome(w, events[..|events| - 1]), EventStep(w, events[|events| - 1]))
  }

  function BatchOutcome(w: Watcher, b: Batch): Outcome {
    Then(EventsOutcome(w, b.events), ResetStep(b.resetValid))
  }

  function BatchesOutcome(w: Watcher, batches: seq<Batch>): Outcome {
    if batches == [] then Outcome([], Watching)
    else Then(BatchesOutcome(w, batches[..|batches| - 1]), BatchOutcome(w, batches[|batches| - 1]))
  }

  function Header(w: Watcher): Outcome {
    Outcome([Print(ListeningLine(w.apkDir)), Register(w.apkDir)], Watching)
  }

  /** The whole run, given whether registration succeeds and the batches the
      watch service delivers. */
  function RunOutcome(w: Watcher, registered: bool, batches: seq<Batch>): Outcome {
    if registered then Then(Header(w), BatchesOutcome(w, batches))
    else Outcome([Print(ListeningLine(w.apkDir)), Print(AttachFailureLine), StackTrace(IOFailure)], Crashed)
  }

  /** Once the events handled so far have stopped the run, later events change nothing. */
  lemma {:induction false} EventsStopped(w: Watcher, events: seq<Event>, k: nat)
    requires k <= |events|
    requires EventsOutcome(w, events[..k]).status != Watching
    ensures EventsOutcome(w, events) == EventsOutcome(w, events[..k])
  {
    if k < |events| {
      var init := events[..|events| - 1];
      assert init[..k] == events[..k];
      EventsStopped(w, init, k);
    } else {
      assert events[..k] == events;
    }
  }

  /** Once the run has crashed or blocked, later batches are never processed. */
  lemma {:induction false} BatchesStopped(w: Watcher, batches: seq<Batch>, k: nat)
    requires k <= |batches|
    requires BatchesOutcome(w, batches[..k]).status != Watching
    ensures BatchesOutcome(w, batches) == BatchesOutcome(w, batches[..k])
  {
    if k < |batches| {
      var init := batches[..|batches| - 1];
      assert init[..k] == batches[..k];
      BatchesStopped(w, init, k);
    } else {
      assert batches[..k] == batches;
    }
  }

  lemma EventsExtend(w: Watcher, before: Outcome, events: seq<Event>, j: nat)
    requires j < |events|
    ensures Then(before, EventsOutcome(w, events[..j + 1]))
            == Then(Then(before, EventsOutcome(w, events[..j])), EventStep(w, events[j]))
  {
    assert events[..j + 1][..j] == events[..j];
    ThenAssociative(before, EventsOutcome(w, events[..j]), EventStep(w, events[j]));
  }

  lemma BatchesExtend(w: Watcher, batches: seq<Batch>, i: nat)
    requires i < |batches|
    ensures Then(Header(w), BatchesOutcome(w, batches[..i + 1]))
            == Then(Then(Header(w), BatchesOutcome(w, batches[..i])), BatchOutcome(w, batches[i]))
  {
    assert batches[..i + 1][..i] == batches[..i];
    ThenAssociative(Header(w), BatchesOutcome(w, batches[..i]), BatchOutcome(w, batches[i]));
  }

  /** The for loop over one key's events. An OVERFLOW event throws out of
      the loop, and out of the whole run. */
  method HandleEvents(w: Watcher, events: seq<Event>) returns (log: seq<Effect>, status: Status)
    ensures Outcome(log, status) == EventsOutcome(w, events)
    ensures status != Blocked
  {
    log := [];
    var j := 0;
    while j < |events|
      invariant 0 <= j <= |events|
      invariant EventsOutcome(w, events[..j]) == Outcome(log, Watching)
    {
      assert events[..j + 1][..j] == events[..j];
      match events[j]
      case Overflow =>
        log := log + [Print(AttachFailureLine), StackTrace(NullPointer)];
        status := Crashed;
        EventsStopped(w, events, j + 1);
        return;
      case Created(name) =>
        var file := Child(w.apkDir, name);
        log := log + [Print(ReportingLine(name))];
        if w.hasListener && EqualsIgnoreCase(Name(file), w.fileName) {
          log := log + [Deploy(file)];
        } else {
          log := log + [Print(BypassLine)];
        }
      j := j + 1;
    }
    assert events[..j] == events;
    status := Watching;
  }

  /** The run loop. The outer for(;;) of the source is entered once: the inner
      while(true) has no exit, so the model registers once and then takes
      one batch per iteration until the input is exhausted (the watcher then
      waits in take()), an exception ends the run, or an invalid key leaves
      the watcher waiting forever. */
  method Run(w: Watcher, registered: bool, batches: seq<Batch>) returns (log: seq<Effect>, status: Status)
    ensures Outcome(log, status) == RunOutcome(w, registered, batches)
  {
    log := [Print(ListeningLine(w.apkDir))];
    if !registered {
      log := log + [Print(AttachFailureLine), StackTrace(IOFailure)];
      status := Crashed;
      return;
    }
    log := log + [Register(w.apkDir)];
    status := Watching;
    var i := 0;
    while i < |batches|
      invariant 0 <= i <= |batches|
      invariant Then(Header(w), BatchesOutcome(w, batches[..i])) == Outcome(log, Watching)
    {
      var batch := batches[i];
      BatchesExtend(w, batches, i);
      ThenAssociative(Outcome(log, Watching), EventsOutcome(w, batch.events), ResetStep(batch.resetValid));
      var effects, handled := HandleEvents(w, batch.events);
      log := log + effects;
      if handled == Crashed {
        status := Crashed;
        BatchesStopped(w, batches, i + 1);
        return;
      }
      if !batch.resetValid {
        log := log + [Print(UnregisteredLine)];
        status := Blocked;
        BatchesStopped(w, batches, i + 1);
        return;
      }
      i := i + 1;
    }
    assert batches[..i] == batches;
  }

  // ---------------------------------------------------------------------
  // What the run does, stated without reference to the loop.

  /** The names of the created entries, in delivery order. */
  function CreatedNames(events: seq<Event>): seq<string> {
    if events == [] then []
    else
      var e := events[|events| - 1];
      CreatedNames(events[..|events| - 1]) + (if e.Created? then [e.name] else [])
  }

  function AllNames(batches: seq<Batch>): seq<string> {
    if batches == [] then []
    else AllNames(batches[..|batches| - 1]) + CreatedNames(batches[|batches| - 1].events)
  }

  /** The reference filter: the file in the watched directory for each name
      equal to the package file name ignoring case, when a listener is set. */
  function MatchingFiles(w: Watcher, names: seq<string>): (r: seq<File>)
    ensures |r| <= |names|
    ensures !w.hasListener ==> r == []
  {
    if names == [] then []
    else
      var n := names[|names| - 1];
      MatchingFiles(w, names[..|names| - 1])
        + (if w.hasListener && EqualsIgnoreCase(n, w.fileName) then [Child(w.apkDir, n)] else [])
  }

  predicate NoOverflow(events: seq<Event>) {
    forall j :: 0 <= j < |events| ==> events[j].Created?
  }

  /** Entry names from a directory watch are single path components. */
  predicate SingleComponents(events: seq<Event>) {
    forall j :: 0 <= j < |events| && events[j].Created? ==> '/' !in events[j].name
  }

  predicate AllSingleComponents(batches: seq<Batch>) {
    forall i :: 0 <= i < |batches| ==> SingleComponents(batches[i].events)
  }

  /** Every key reset succeeds and no batch holds an OVERFLOW event. */
  predicate Clean(batches: seq<Batch>) {
    forall i :: 0 <= i < |batches| ==> batches[i].resetValid && NoOverflow(batches[i].events)
  }

  lemma ReportingIsNotBypass(name: string)
    ensures ReportingLine(name) != BypassLine
  {
    assert ReportingLine(name)[0] == 'R' && BypassLine[0] == 'B';
  }

  lemma {:induction false} MatchingAppend(w: Watcher, a: seq<string>, b: seq<string>)
    ensures MatchingFiles(w, a + b) == MatchingFiles(w, a) + MatchingFiles(w, b)
  {
    if b == [] {
      assert a + b == a;
    } else {
      var b' := b[..|b| - 1];
      assert (a + b)[..|a + b| - 1] == a + b';
      MatchingAppend(w, a, b');
    }
  }

  /** One created entry: the listener gets File(dir, name) exactly when the
      name matches, and otherwise the entry is bypassed. */
  lemma CreatedStep(w: Watcher, name: string)
    requires '/' !in name
    ensures EventStep(w, Created(name)).status == Watching
    ensures Dispatches(EventStep(w, Created(name)).log) == MatchingFiles(w, [name])
    ensures multiset(EventStep(w, Created(name)).log)[Print(BypassLine)] == 1 - |MatchingFiles(w, [name])|
  {
    var file := Child(w.apkDir, name);
    NameOfChild(w.apkDir, name);
    ReportingIsNotBypass(name);
    assert [name][..0] == [];
    var log := EventStep(w, Created(name)).log;
    assert log[..1] == [Print(ReportingLine(name))] && log[..1][..0] == [];
  }

  /** The events of one batch, without OVERFLOW: the listener is called for
      exactly the matching created entries, in delivery order. */
  lemma {:induction false} EventsDispatchMatches(w: Watcher, events: seq<Event>)
    requires NoOverflow(events) && SingleComponents(events)
    ensures EventsOutcome(w, events).status == Watching
    ensures Dispatches(EventsOutcome(w, events).log) == MatchingFiles(w, CreatedNames(events))
  {
    if events != [] {
      var init := events[..|events| - 1];
      var e := events[|events| - 1];
      assert NoOverflow(init) && SingleComponents(init) by {
        forall j | 0 <= j < |init| ensures init[j] == events[j] { }
      }
      EventsDispatchMatches(w, init);
      CreatedStep(w, e.name);
      DispatchesAppend(EventsOutcome(w, init).log, EventStep(w, e).log);
      MatchingAppend(w, CreatedNames(init), [e.name]);
    }
  }

  /** ... and every other created entry is bypassed, once. */
  lemma {:induction false} EventsBypassOthers(w: Watcher, events: seq<Event>)
    requires NoOverflow(events) && SingleComponents(events)
    ensures multiset(EventsOutcome(w, events).log)[Print(BypassLine)]
            == |CreatedNames(events)| - |MatchingFiles(w, CreatedNames(events))|
  {
    if events != [] {
      var init := events[..|events| - 1];
      var e := events[|events| - 1];
      assert NoOverflow(init) && SingleComponents(init) by {
        forall j | 0 <= j < |init| ensures init[j] == events[j] { }
      }
      EventsBypassOthers(w, init);
      EventsDispatchMatches(w, init);
      CreatedStep(w, e.name);
      MatchingAppend(w, CreatedNames(init), [e.name]);
      assert EventsOutcome(w, events).log == EventsOutcome(w, init).log + EventStep(w, e).log;
    }
  }

  /** A run in which every reset succeeds and no OVERFLOW arrives: the
      listener is called exactly once for every created entry whose name
      matches, with File(dir, name), in delivery order across batches. */
  lemma {:induction false} BatchesDispatchMatches(w: Watcher, batches: seq<Batch>)
    requires Clean(batches) && AllSingleComponents(batches)
    ensures BatchesOutcome(w, batches).status == Watching
    ensures Dispatches(BatchesOutcome(w, batches).log) == MatchingFiles(w, AllNames(batches))
  {
    if batches != [] {
      var init := batches[..|batches| - 1];
      var b := batches[|batches| - 1];
      assert Clean(init) && AllSingleComponents(init) by {
        forall i | 0 <= i < |init| ensures init[i] == batches[i] { }
      }
      BatchesDispatchMatches(w, init);
      EventsDispatchMatches(w, b.events);
      assert BatchOutcome(w, b).log == EventsOutcome(w, b.events).log;
      DispatchesAppend(BatchesOutcome(w, init).log, BatchOutcome(w, b).log);
      MatchingAppend(w, AllNames(init), CreatedNames(b.events));
    }
  }

  /** ... and every other created entry is bypassed, once. */
  lemma {:induction false} BatchesBypassOthers(w: Watcher, batches: seq<Batch>)
    requires Clean(batches) && AllSingleComponents(batches)
    ensures multiset(BatchesOutcome(w, batches).log)[Print(BypassLine)]
            == |AllNames(batches)| - |MatchingFiles(w, AllNames(batches))|
  {
    if batches != [] {
      var init := batches[..|batches| - 1];
      var b := batches[|batches| - 1];
      assert Clean(init) && AllSingleComponents(init) by {
        forall i | 0 <= i < |init| ensures init[i] == batches[i] { }
      }
      BatchesBypassOthers(w, init);
      BatchesDispatchMatches(w, init);
      EventsBypassOthers(w, b.events);
      EventsDispatchMatches(w, b.events);
      assert BatchesOutcome(w, batches).log == BatchesOutcome(w, init).log + EventsOutcome(w, b.events).log;
      MatchingAppend(w, AllNames(init), CreatedNames(b.events));
    }
  }

  /** The clean run from its start: after the listening line and the one
      registration, exactly the matching files reach the listener. */
  lemma RunDispatchesMatches(w: Watcher, batches: seq<Batch>)
    requires Clean(batches) && AllSingleComponents(batches)
    ensures RunOutcome(w, true, batches).status == Watching
    ensures Dispatches(RunOutcome(w, true, batches).log) == MatchingFiles(w, AllNames(batches))
  {
    BatchesDispatchMatches(w, batches);
    DispatchesAppend(Header(w).log, BatchesOutcome(w, batches).log);
    NoDispatches(Header(w).log);
  }

  /** ... and every other created entry is bypassed, once. */
  lemma RunBypassesOthers(w: Watcher, batches: seq<Batch>)
    requires Clean(batches) && AllSingleComponents(batches)
    ensures multiset(RunOutcome(w, true, batches).log)[Print(BypassLine)]
            == |AllNames(batches)| - |MatchingFiles(w, AllNames(batches))|
  {
    BatchesDispatchMatches(w, batches);
    BatchesBypassOthers(w, batches);
    var log := RunOutcome(w, true, batches).log;
    assert log == Header(w).log + BatchesOutcome(w, batches).log;
    assert multiset(Header(w).log)[Print(BypassLine)] == 0 by {
      assert ListeningLine(w.apkDir)[0] != BypassLine[0];
    }
  }

  /** The listener has been called with an initial part of `matching`, in
      order, and with all of it if the run is still watching. */
  predicate DispatchesWithin(o: Outcome, matching: seq<File>) {
    Dispatches(o.log) <= matching && (o.status == Watching ==> Dispatches(o.log) == matching)
  }

  /** Sequencing two stretches keeps that property, for the concatenated matches. */
  lemma ThenWithin(first: Outcome, next: Outcome, m1: seq<File>, m2: seq<File>)
    requires DispatchesWithin(first, m1) && DispatchesWithin(next, m2)
    ensures DispatchesWithin(Then(first, next), m1 + m2)
  {
    var d := Dispatches(first.log);
    if first.status != Watching {
      assert (m1 + m2)[..|d|] == m1[..|d|];
    } else {
      DispatchesAppend(first.log, next.log);
      assert (m1 + m2)[..|m1 + Dispatches(next.log)|] == m1 + Dispatches(next.log);
    }
  }

  /** One event: an OVERFLOW calls nothing; a created entry is CreatedStep. */
  lemma StepWithin(w: Watcher, e: Event)
    requires e.Created? ==> '/' !in e.name
    ensures DispatchesWithin(EventStep(w, e), MatchingFiles(w, if e.Created? then [e.name] else []))
  {
    if e.Created? {
      CreatedStep(w, e.name);
    } else {
      NoDispatches(EventStep(w, e).log);
    }
  }

  /** Any batch of events, OVERFLOW included: the files passed to the
      listener are an initial part of the matching created names, in
      delivery order, and all of them when the loop is still watching. */
  lemma {:induction false} EventsDispatchPrefix(w: Watcher, events: seq<Event>)
    requires SingleComponents(events)
    ensures DispatchesWithin(EventsOutcome(w, events), MatchingFiles(w, CreatedNames(events)))
  {
    if events == [] {
      assert Dispatches([]) == [];
    } else {
      var init := events[..|events| - 1];
      var e := events[|events| - 1];
      assert SingleComponents(init) by {
        forall j | 0 <= j < |init| ensures init[j] == events[j] { }
      }
      EventsDispatchPrefix(w, init);
      var extra: seq<string> := if e.Created? then [e.name] else [];
      StepWithin(w, e);
      ThenWithin(EventsOutcome(w, init), EventStep(w, e),
                 MatchingFiles(w, CreatedNames(init)), MatchingFiles(w, extra));
      assert CreatedNames(events) == CreatedNames(init) + extra;
      MatchingAppend(w, CreatedNames(init), extra);
    }
  }

  /** One batch with its key reset: the same, since the reset never calls the listener. */
  lemma BatchDispatchPrefix(w: Watcher, b: Batch)
    requires SingleComponents(b.events)
    ensures DispatchesWithin(BatchOutcome(w, b), MatchingFiles(w, CreatedNames(b.events)))
  {
    EventsDispatchPrefix(w, b.events);
    NoDispatches(ResetStep(b.resetValid).log);
    ThenWithin(EventsOutcome(w, b.events), ResetStep(b.resetValid), MatchingFiles(w, CreatedNames(b.events)), []);
    assert MatchingFiles(w, CreatedNames(b.events)) + [] == MatchingFiles(w, CreatedNames(b.events));
  }

  /** Any batches, overflows and invalid keys included. */
  lemma {:induction false} BatchesDispatchPrefix(w: Watcher, batches: seq<Batch>)
    requires AllSingleComponents(batches)
    ensures DispatchesWithin(BatchesOutcome(w, batches), MatchingFiles(w, AllNames(batches)))
  {
    if batches == [] {
      assert Dispatches([]) == [];
    } else {
      var init := batches[..|batches| - 1];
      var b := batches[|batches| - 1];
      assert AllSingleComponents(init) by {
        forall i | 0 <= i < |init| ensures init[i] == batches[i] { }
      }
      BatchesDispatchPrefix(w, init);
      BatchDispatchPrefix(w, b);
      ThenWithin(BatchesOutcome(w, init), BatchOutcome(w, b),
                 MatchingFiles(w, AllNames(init)), MatchingFiles(w, CreatedNames(b.events)));
      MatchingAppend(w, AllNames(init), CreatedNames(b.events));
    }
  }

  /** Whatever the watch service delivers, overflows and invalid keys
      included: only matching entries ever reach the listener, as
      File(dir, name) and in delivery order, and while the watcher is still
      watching every matching entry so far has reached it. */
  lemma RunDispatchesPrefix(w: Watcher, registered: bool, batches: seq<Batch>)
    requires AllSingleComponents(batches)
    ensures Dispatches(RunOutcome(w, registered, batches).log) <= MatchingFiles(w, AllNames(batches))
    ensures RunOutcome(w, registered, batches).status == Watching
            ==> Dispatches(RunOutcome(w, registered, batches).log) == MatchingFiles(w, AllNames(batches))
  {
    NoDispatches(Header(w).log);
    if registered {
      BatchesDispatchPrefix(w, batches);
      ThenWithin(Header(w), BatchesOutcome(w, batches), [], MatchingFiles(w, AllNames(batches)));
      assert [] + MatchingFiles(w, AllNames(batches)) == MatchingFiles(w, AllNames(batches));
    } else {
      NoDispatches(RunOutcome(w, registered, batches).log);
    }
  }

  lemma StepNeverRegisters(w: Watcher, e: Event, dir: File)
    ensures multiset(EventStep(w, e).log)[Register(dir)] == 0
  {
    if e.Created? {
      var file := Child(w.apkDir, e.name);
      var verdict := if Matches(w, file) then Deploy(file) else Print(BypassLine);
      assert EventStep(w, e).log == [Print(ReportingLine(e.name)), verdict];
    }
  }

  lemma {:induction false} EventsNeverRegister(w: Watcher, events: seq<Event>)
    ensures multiset(EventsOutcome(w, events).log)[Register(w.apkDir)] == 0
  {
    if events != [] {
      var prev := EventsOutcome(w, events[..|events| - 1]);
      var step := EventStep(w, events[|events| - 1]);
      EventsNeverRegister(w, events[..|events| - 1]);
      StepNeverRegisters(w, events[|events| - 1], w.apkDir);
      if prev.status == Watching {
        assert multiset(prev.log + step.log) == multiset(prev.log) + multiset(step.log);
      }
    }
  }

  lemma {:induction false} BatchesNeverRegister(w: Watcher, batches: seq<Batch>)
    ensures multiset(BatchesOutcome(w, batches).log)[Register(w.apkDir)] == 0
  {
    if batches != [] {
      BatchesNeverRegister(w, batches[..|batches| - 1]);
      EventsNeverRegister(w, batches[|batches| - 1].events);
    }
  }

  /** Whatever the batches and key resets, the watch service is registered
      exactly once: the re-registering outer loop is never re-entered. */
  lemma RegistersOnce(w: Watcher, batches: seq<Batch>)
    ensures multiset(RunOutcome(w, true, batches).log)[Register(w.apkDir)] == 1
  {
    BatchesNeverRegister(w, batches);
  }

  lemma {:induction false} EventsNeverUnregister(w: Watcher, events: seq<Event>)
    ensures multiset(EventsOutcome(w, events).log)[Print(UnregisteredLine)] == 0
  {
    if events != [] {
      EventsNeverUnregister(w, events[..|events| - 1]);
      var e := events[|events| - 1];
      if e.Created? {
        assert ReportingLine(e.name)[0] != UnregisteredLine[0];
      }
    }
  }

  /** An invalid key is reported at most once, and after it the status
      is Blocked: no later batch is ever handled. */
  lemma {:induction false} UnregisteredAtMostOnce(w: Watcher, batches: seq<Batch>)
    ensures multiset(BatchesOutcome(w, batches).log)[Print(UnregisteredLine)] <= 1
    ensures multiset(BatchesOutcome(w, batches).log)[Print(UnregisteredLine)] == 1
            ==> BatchesOutcome(w, batches).status == Blocked
  {
    if batches != [] {
      UnregisteredAtMostOnce(w, batches[..|batches| - 1]);
      EventsNeverUnregister(w, batches[|batches| - 1].events);
    }
  }

  // ---------------------------------------------------------------------
  // The behaviour evidently intended: an event without a path is skipped,
  // and an invalid key sends the loop back to register a fresh watch service.

  function IntendedEventsLog(w: Watcher, events: seq<Event>): seq<Effect> {
    if events == [] then []
    else
      var e := events[|events| - 1];
      IntendedEventsLog(w, events[..|events| - 1]) + (if e.Created? then EventStep(w, e).log else [])
  }

  function IntendedBatchesLog(w: Watcher, batches: seq<Batch>): seq<Effect> {
    if batches == [] then []
    else
      var b := batches[|batches| - 1];
      IntendedBatchesLog(w, batches[..|batches| - 1]) + IntendedEventsLog(w, b.events)
        + (if b.resetValid then [] else [Print(UnregisteredLine), Register(w.apkDir)])
  }

  function IntendedRunLog(w: Watcher, batches: seq<Batch>): seq<Effect> {
    Header(w).log + IntendedBatchesLog(w, batches)
  }

  lemma {:induction false} IntendedEventsDispatch(w: Watcher, events: seq<Event>)
    requires SingleComponents(events)
    ensures Dispatches(IntendedEventsLog(w, events)) == MatchingFiles(w, CreatedNames(events))
  {
    if events != [] {
      var init := events[..|events| - 1];
      var e := events[|events| - 1];
      assert SingleComponents(init) by {
        forall j | 0 <= j < |init| ensures init[j] == events[j] { }
      }
      IntendedEventsDispatch(w, init);
      if e.Created? {
        CreatedStep(w, e.name);
        DispatchesAppend(IntendedEventsLog(w, init), EventStep(w, e).log);
        MatchingAppend(w, CreatedNames(init), [e.name]);
      } else {
        assert IntendedEventsLog(w, events) == IntendedEventsLog(w, init) + [];
        assert IntendedEventsLog(w, init) + [] == IntendedEventsLog(w, init);
        assert CreatedNames(events) == CreatedNames(init) + [];
        assert CreatedNames(init) + [] == CreatedNames(init);
      }
    }
  }

  /** The intended loop calls the listener for every matching created
      entry, whatever overflows and key invalidations come in between. */
  lemma {:induction false} IntendedDispatchesEveryMatch(w: Watcher, batches: seq<Batch>)
    requires AllSingleComponents(batches)
    ensures Dispatches(IntendedBatchesLog(w, batches)) == MatchingFiles(w, AllNames(batches))
  {
    if batches != [] {
      var init := batches[..|batches| - 1];
      var b := batches[|batches| - 1];
      assert AllSingleComponents(init) by {
        forall i | 0 <= i < |init| ensures init[i] == batches[i] { }
      }
      IntendedDispatchesEveryMatch(w, init);
      IntendedEventsDispatch(w, b.events);
      var tail: seq<Effect> := if b.resetValid then [] else [Print(UnregisteredLine), Register(w.apkDir)];
      NoDispatches(tail);
      DispatchesAppend(IntendedBatchesLog(w, init), IntendedEventsLog(w, b.events));
      DispatchesAppend(IntendedBatchesLog(w, init) + IntendedEventsLog(w, b.events), tail);
      MatchingAppend(w, AllNames(init), CreatedNames(b.events));
    }
  }

  lemma {:induction false} IntendedEventsAgree(w: Watcher, events: seq<Event>)
    requires NoOverflow(events)
    ensures IntendedEventsLog(w, events) == EventsOutcome(w, events).log
    ensures EventsOutcome(w, events).status == Watching
  {
    if events != [] {
      var init := events[..|events| - 1];
      assert NoOverflow(init) by {
        forall j | 0 <= j < |init| ensures init[j] == events[j] { }
      }
      IntendedEventsAgree(w, init);
    }
  }

  /** On a clean run the intended loop and the loop as written coincide. */
  lemma {:induction false} IntendedAgreesWhenClean(w: Watcher, batches: seq<Batch>)
    requires Clean(batches)
    ensures IntendedBatchesLog(w, batches) == BatchesOutcome(w, batches).log
    ensures BatchesOutcome(w, batches).status == Watching
  {
    if batches != [] {
      var init := batches[..|batches| - 1];
      assert Clean(init) by {
        forall i | 0 <= i < |init| ensures init[i] == batches[i] { }
      }
      IntendedAgreesWhenClean(w, init);
      IntendedEventsAgree(w, batches[|batches| - 1].events);
    }
  }

  /** The package file itself matches: its listener call carries "/apps/app.apk". */
  lemma ScenarioMatch()
    ensures MatchingFiles(Watcher(File("/apps"), "app.apk", true), ["app.apk"]) == [File("/apps/app.apk")]
  {
    var w := Watcher(File("/apps"), "app.apk", true);
    assert ["app.apk"][..0] == [];
    assert EqualsIgnoreCase("app.apk", "app.apk");
    assert Child(w.apkDir, "app.apk") == File("/apps/app.apk");
  }

  /** A name in another case still matches; another file does not. */
  lemma ScenarioCase()
    ensures EqualsIgnoreCase("APP.APK", "app.apk")
    ensures !EqualsIgnoreCase("readme.txt", "app.apk")
  {
    var a, b := "APP.APK", "app.apk";
    forall i | 0 <= i < |a| ensures Fold(a[i]) == Fold(b[i]) {
      if i == 3 {
        assert a[i] == b[i];
      } else {
        assert a[i] as int + 32 == b[i] as int;
      }
    }
  }

  lemma ScenarioNames()
    ensures AllNames([Batch([Created("app.apk"), Created("readme.txt"), Created("APP.APK")], true)])
            == ["app.apk", "readme.txt", "APP.APK"]
  {
    var events := [Created("app.apk"), Created("readme.txt"), Created("APP.APK")];
    var batches := [Batch(events, true)];
    assert batches[..0] == [];
    assert events[..2] == [Created("app.apk"), Created("readme.txt")];
    assert events[..2][..1] == [Created("app.apk")];
    assert events[..2][..1][..0] == [];
    assert CreatedNames(events[..2][..1]) == ["app.apk"];
    assert CreatedNames(events[..2]) == ["app.apk", "readme.txt"];
  }

  lemma ScenarioMatching()
    ensures MatchingFiles(Watcher(File("/apps"), "app.apk", true), ["app.apk", "readme.txt", "APP.APK"])
            == [File("/apps/app.apk"), File("/apps/APP.APK")]
  {
    var w := Watcher(File("/apps"), "app.apk", true);
    ScenarioCase();
    ScenarioMatch();
    MatchingAppend(w, ["app.apk"], ["readme.txt", "APP.APK"]);
    MatchingAppend(w, ["readme.txt"], ["APP.APK"]);
    assert ["readme.txt"][..0] == [] && ["APP.APK"][..0] == [];
    assert ["app.apk"] + ["readme.txt", "APP.APK"] == ["app.apk", "readme.txt", "APP.APK"];
    assert ["readme.txt"] + ["APP.APK"] == ["readme.txt", "APP.APK"];
    assert Child(w.apkDir, "APP.APK") == File("/apps/APP.APK");
  }

  /** One batch creating "app.apk", "readme.txt" and "APP.APK" in "/apps":
      the first and the last reach the listener, in that order. */
  lemma ScenarioBatch()
    ensures var w := Watcher(File("/apps"), "app.apk", true);
            Dispatches(RunOutcome(w, true, [Batch([Created("app.apk"), Created("readme.txt"), Created("APP.APK")], true)]).log)
            == [File("/apps/app.apk"), File("/apps/APP.APK")]
  {
    var w := Watcher(File("/apps"), "app.apk", true);
    var batches := [Batch([Created("app.apk"), Created("readme.txt"), Created("APP.APK")], true)];
    assert Clean(batches) && AllSingleComponents(batches);
    RunDispatchesMatches(w, batches);
    ScenarioNames();
    ScenarioMatching();
  }

  /** The intended run from its start: after the listening line and the
      first registration, exactly the matching files reach the listener. */
  lemma IntendedRunDispatchesEveryMatch(w: Watcher, batches: seq<Batch>)
    requires AllSingleComponents(batches)
    ensures Dispatches(IntendedRunLog(w, batches)) == MatchingFiles(w, AllNames(batches))
  {
    IntendedDispatchesEveryMatch(w, batches);
    DispatchesAppend(Header(w).log, IntendedBatchesLog(w, batches));
    NoDispatches(Header(w).log);
  }

  lemma OverflowRunAsWritten(w: Watcher)
    ensures var batches := [Batch([Overflow, Created("app.apk")], true)];
            RunOutcome(w, true, batches)
            == Outcome(Header(w).log + [Print(AttachFailureLine), StackTrace(NullPointer)], Crashed)
  {
    var batches := [Batch([Overflow, Created("app.apk")], true)];
    var events := batches[0].events;
    var crash := [Print(AttachFailureLine), StackTrace(NullPointer)];
    assert events[..1] == [Overflow] && events[..1][..0] == [];
    assert EventsOutcome(w, events[..1]) == Outcome([] + crash, Crashed);
    assert [] + crash == crash;
    EventsStopped(w, events, 1);
    assert BatchOutcome(w, batches[0]) == Outcome(crash, Crashed);
    assert batches[..0] == [];
    assert BatchesOutcome(w, batches) == Outcome([] + crash, Crashed);
  }

  lemma OverflowRunNames()
    ensures AllNames([Batch([Overflow, Created("app.apk")], true)]) == ["app.apk"]
  {
    var batches := [Batch([Overflow, Created("app.apk")], true)];
    var events := batches[0].events;
    assert batches[..0] == [];
    assert events[..1] == [Overflow] && events[..1][..0] == [];
    assert CreatedNames(events[..1]) == [];
  }

  /** As written, an OVERFLOW event ends the watcher: the matching entry
      created after it is never deployed, though the intended loop deploys it. */
  lemma OverflowEndsWatcher()
    ensures var w := Watcher(File("/apps"), "app.apk", true);
            var batches := [Batch([Overflow, Created("app.apk")], true)];
            RunOutcome(w, true, batches).status == Crashed
            && Dispatches(RunOutcome(w, true, batches).log) == []
            && Dispatches(IntendedRunLog(w, batches)) == [File("/apps/app.apk")]
  {
    var w := Watcher(File("/apps"), "app.apk", true);
    var batches := [Batch([Overflow, Created("app.apk")], true)];
    OverflowRunAsWritten(w);
    NoDispatches(RunOutcome(w, true, batches).log);
    assert AllSingleComponents(batches);
    IntendedRunDispatchesEveryMatch(w, batches);
    OverflowRunNames();
    ScenarioMatch();
  }

  lemma InvalidKeyRunAsWritten(w: Watcher)
    ensures var batches := [Batch([], false), Batch([Created("app.apk")], true)];
            RunOutcome(w, true, batches) == Outcome(Header(w).log + [Print(UnregisteredLine)], Blocked)
  {
    var batches := [Batch([], false), Batch([Created("app.apk")], true)];
    assert batches[..1] == [Batch([], false)] && batches[..1][..0] == [];
    BatchesStopped(w, batches, 1);
  }

  lemma InvalidKeyRunNames()
    ensures AllNames([Batch([], false), Batch([Created("app.apk")], true)]) == ["app.apk"]
  {
    var batches := [Batch([], false), Batch([Created("app.apk")], true)];
    assert batches[..|batches| - 1] == batches[..1];
    assert batches[..1][..0] == [];
    assert CreatedNames(batches[0].events) == [];
    assert [Created("app.apk")][..0] == [];
  }

  /** As written, a key that turns invalid leaves the watcher waiting forever:
      the matching entry of a later batch is never deployed, though the
      intended loop registers afresh and deploys it. */
  lemma InvalidKeyBlocksWatcher()
    ensures var w := Watcher(File("/apps"), "app.apk", true);
            var batches := [Batch([], false), Batch([Created("app.apk")], true)];
            RunOutcome(w, true, batches).status == Blocked
            && Dispatches(RunOutcome(w, true, batches).log) == []
            && Dispatches(IntendedRunLog(w, batches)) == [File("/apps/app.apk")]
  {
    var w := Watcher(File("/apps"), "app.apk", true);
    var batches := [Batch([], false), Batch([Created("app.apk")], true)];
    InvalidKeyRunAsWritten(w);
    NoDispatches(RunOutcome(w, true, batches).log);
    assert AllSingleComponents(batches);
    IntendedRunDispatchesEveryMatch(w, batches);
    InvalidKeyRunNames();
    ScenarioMatch();
  }
}

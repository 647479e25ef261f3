/** The cache file over whole runs, with I/O failures and crashes anywhere. */
module Durability {
  import opened Wrappers
  import opened Ruleset
  import opened Verifier
  import opened Recording
  import opened FileCache
  import opened Protocol
  import opened Invariants

  /** The last acceptance whose rename took effect decides the file; before any, it is untouched. */
  function FileOf(initialFile: Option<string>, renamed: seq<Acceptance>): Option<string> {
    match Latest(renamed)
    case Some(a) => Some(a.raw)
    case None => initialFile
  }

  ghost predicate OnDisk(c: Settings, s: System) {
    && FreshNames(s.mem.disk)
    && s.mem.disk.file == FileOf(s.initialFile, s.renamed)
    && (forall i | 0 <= i < |s.renamed| :: AcceptedLive(c, s.renamed[i]) && Storable(s.renamed[i].raw))
    && (s.renamed != [] ==> c.hasCache)
    && (s.poller.Storing? ==>
          StoreInv(s.poller.store, s.mem.disk)
          && (s.poller.store.Finished? || s.poller.store.raw == s.poller.accepted.raw))
  }

  /** While Diagnostics says "stored", the file holds the very envelope being served. */
  ghost predicate StoredIsServed(c: Settings, s: System) {
    && (s.mem.state.cacheState == CacheStored ==> c.hasCache)
    && (s.mem.state.cacheState == CacheStored && !s.poller.Publishing? && !s.poller.Storing? ==>
          HoldsLatest(s.mem.disk.file, s.hist.accepted))
    && (s.poller.Storing? && s.poller.store == Finished(true) ==> HoldsLatest(s.mem.disk.file, s.hist.accepted))
  }

  predicate HoldsLatest(file: Option<string>, accepted: seq<Acceptance>) {
    Latest(accepted).Some? && file == Some(Latest(accepted).value.raw)
  }

  ghost predicate Durable(c: Settings, s: System) { OnDisk(c, s) && StoredIsServed(c, s) }

  lemma DurableStoreCall(c: Settings, s: System, call: Syscall)
    requires Core(c, s) && Durable(c, s) && s.poller.Storing? && StoreCan(s.poller.store, s.mem.disk, call)
    ensures Durable(c, DoStoreCall(s, call))
  {
    StoreStepKeeps(s.poller.store, s.mem.disk, call);
    assert AcceptedLive(c, s.hist.accepted[|s.hist.accepted| - 1]);
  }

  lemma DurableBeginRecord(c: Settings, s: System, entry: Entry)
    requires Durable(c, s) && s.poller.Recording? && entry.outcome == s.poller.outcome
    ensures Durable(c, DoBeginRecord(c, s, entry))
  {
  }

  lemma DurablePublish(c: Settings, s: System)
    requires Core(c, s) && Durable(c, s) && s.poller.Publishing?
    ensures Durable(c, DoPublish(c, s))
  {
  }

  lemma DurableRecord(c: Settings, s: System, p: PollStep)
    requires Core(c, s) && Durable(c, s) && RecordEnabled(s.poller, s.mem.disk, p)
    ensures Durable(c, DoRecord(c, s, p))
  {
    if p.BeginRecord? {
      DurableBeginRecord(c, s, Entry(s.poller.outcome, p.fetchedAt, p.judgedAt));
    } else if p.Publish? {
      DurablePublish(c, s);
    } else if p.StoreCall? {
      DurableStoreCall(c, s, p.call);
    } else if !p.FinishStore? {
      DurableQuiet(c, s, DoRecord(c, s, p));
    }
  }

  /** Any step that leaves disk, acceptances and renames alone and does not claim "stored". */
  lemma DurableQuiet(c: Settings, s: System, s': System)
    requires Durable(c, s) && s'.mem.disk == s.mem.disk && s'.renamed == s.renamed && s'.initialFile == s.initialFile
    requires !s.poller.Publishing? && !s.poller.Storing? && !s'.poller.Publishing? && !s'.poller.Storing?
    requires s'.mem.state.cacheState == s.mem.state.cacheState || s'.mem.state.cacheState != CacheStored
    requires s'.hist.accepted == s.hist.accepted
    ensures Durable(c, s')
  {
  }

  /** Any step of another thread while the poller stands still. */
  lemma DurableAside(c: Settings, s: System, s': System)
    requires Durable(c, s) && s'.mem == s.mem && s'.renamed == s.renamed && s'.initialFile == s.initialFile
    requires s'.poller == s.poller && s'.hist == s.hist
    ensures Durable(c, s')
  {
  }

  lemma DurableStart(c: Settings, s: System, t: Thread, k: CallStep)
    requires Core(c, s) && Durable(c, s) && StartEnabled(s, At(s.callers, t), k)
    ensures Durable(c, DoStart(c, s, t, k))
  {
    if At(s.callers, t).EnteringStart? {
      DurableAside(c, s, DoStart(c, s, t, k));
    } else {
      assert s.ctl.startOnce == Running(t);
      DurableQuiet(c, s, DoStart(c, s, t, k));
    }
  }

  lemma DurableAwait(c: Settings, s: System, t: Thread, k: CallStep)
    requires Durable(c, s) && AwaitEnabled(s, At(s.callers, t), k)
    ensures Durable(c, DoAwait(s, t, k))
  {
    DurableAside(c, s, DoAwait(s, t, k));
  }

  lemma DurableClose(c: Settings, s: System, t: Thread, k: CallStep)
    requires Durable(c, s) && CloseEnabled(s, At(s.callers, t), k)
    ensures Durable(c, DoClose(s, t, k))
  {
    DurableAside(c, s, DoClose(s, t, k));
  }

  lemma DurableGet(c: Settings, s: System, t: Thread, k: CallStep)
    requires Durable(c, s) && GetEnabled(At(s.callers, t), k)
    ensures Durable(c, DoGet(c, s, t, k))
  {
    DurableAside(c, s, DoGet(c, s, t, k));
  }

  lemma DurableCall(c: Settings, s: System, t: Thread, k: CallStep)
    requires Core(c, s) && Durable(c, s) && CallEnabled(s, t, k)
    ensures Durable(c, DoCall(c, s, t, k))
  {
    var p := At(s.callers, t);
    if Starting(p) {
      DurableStart(c, s, t, k);
    } else if Awaiting(p) {
      DurableAwait(c, s, t, k);
    } else if Closing(p) {
      DurableClose(c, s, t, k);
    } else {
      DurableGet(c, s, t, k);
    }
  }

  lemma DurableFetch(c: Settings, s: System, p: PollStep)
    requires Durable(c, s) && FetchEnabled(s.poller, p)
    ensures Durable(c, DoFetch(s, p))
  {
    DurableQuiet(c, s, DoFetch(s, p));
  }

  lemma DurableRest(c: Settings, s: System, p: PollStep)
    requires Durable(c, s) && RestEnabled(s.poller, s.ctl.cancelled, p)
    ensures Durable(c, DoRest(c, s, p))
  {
    DurableQuiet(c, s, DoRest(c, s, p));
  }

  lemma DurablePoll(c: Settings, s: System, p: PollStep)
    requires Core(c, s) && Durable(c, s) && PollEnabled(s, p)
    ensures Durable(c, DoPoll(c, s, p))
  {
    if InFetch(s.poller) {
      DurableFetch(c, s, p);
    } else if InRecord(s.poller) {
      DurableRecord(c, s, p);
    } else {
      DurableRest(c, s, p);
    }
  }

  lemma DurableStep(c: Settings, s: System, step: Step)
    requires Core(c, s) && Durable(c, s) && Enabled(s, step)
    ensures Durable(c, Do(c, s, step))
  {
    match step
    case Poll(p) => DurablePoll(c, s, p);
    case Call(t, k) => DurableCall(c, s, t, k);
    case ServerPublishes(_) =>
    case Crash =>
  }

  lemma {:induction false} DurableRun(c: Settings, s: System, run: seq<Step>)
    requires Core(c, s) && Durable(c, s) && IsRun(c, s, run)
    ensures Durable(c, Exec(c, s, run))
    decreases |run|
  {
    if run != [] {
      CoreStep(c, s, run[0]);
      DurableStep(c, s, run[0]);
      DurableRun(c, Do(c, s, run[0]), run[1..]);
    }
  }

  lemma ReachableDurable(c: Settings, s: System)
    requires Reachable(c, s)
    ensures Durable(c, s)
  {
    var file: Option<string>, server: string, run: seq<Step> :|
      IsRun(c, Initial(c, file, server), run) && Exec(c, Initial(c, file, server), run) == s;
    CoreBoot(c, Disk(file, map[], 0), file, [], server);
    DurableRun(c, Initial(c, file, server), run);
  }

  /** Restart durability, first half: over any run, whatever fails and wherever the process dies,
      the cache file is byte for byte its initial content or the raw bytes of the last envelope
      accepted live whose rename took effect. */
  lemma CacheFileOverRuns(c: Settings, file: Option<string>, server: string, run: seq<Step>)
    requires IsRun(c, Initial(c, file, server), run)
    ensures var s := Exec(c, Initial(c, file, server), run);
            && s.mem.disk.file == FileOf(file, s.renamed)
            && (forall i | 0 <= i < |s.renamed| :: AcceptedLive(c, s.renamed[i]) && Storable(s.renamed[i].raw))
            && (!c.hasCache ==> s.mem.disk.file == file)
  {
    var s := Initial(c, file, server);
    CoreBoot(c, Disk(file, map[], 0), file, [], server);
    DurableRun(c, s, run);
    InitialFileKept(c, s, run);
  }

  lemma {:induction false} InitialFileKept(c: Settings, s: System, run: seq<Step>)
    requires IsRun(c, s, run)
    ensures Exec(c, s, run).initialFile == s.initialFile
    decreases |run|
  {
    if run != [] {
      InitialFileKept(c, Do(c, s, run[0]), run[1..]);
    }
  }

  ghost predicate FileStays(s: System, s': System) {
    s'.mem.disk.file == s.mem.disk.file && s'.renamed == s.renamed
  }

  lemma RecordRenames(c: Settings, s: System, p: PollStep)
    requires Durable(c, s) && RecordEnabled(s.poller, s.mem.disk, p)
    ensures var s' := DoRecord(c, s, p);
            FileStays(s, s')
            || (p == StoreCall(Rename(true)) && s.poller.Storing? && s'.mem.disk.file == Some(s.poller.accepted.raw)
                && s'.renamed == s.renamed + [s.poller.accepted])
  {
    if p.StoreCall? {
      StoreStepKeeps(s.poller.store, s.mem.disk, p.call);
    } else if s.poller.Recording? {
      assert FileStays(s, DoBeginRecord(c, s, Entry(s.poller.outcome, p.fetchedAt, p.judgedAt)));
    }
  }

  /** The file changes only at a successful rename, to exactly the bytes just accepted. */
  lemma FileChangesOnlyByRename(c: Settings, s: System, step: Step)
    requires Durable(c, s) && Enabled(s, step)
    ensures var s' := Do(c, s, step);
            FileStays(s, s')
            || (step == Poll(StoreCall(Rename(true))) && s.poller.Storing?
                && s'.mem.disk.file == Some(s.poller.accepted.raw)
                && s'.renamed == s.renamed + [s.poller.accepted])
  {
    match step
    case Poll(p) =>
      if InRecord(s.poller) {
        RecordRenames(c, s, p);
      } else {
        assert FileStays(s, DoPoll(c, s, p));
      }
    case Call(t, k) => assert FileStays(s, DoCall(c, s, t, k));
    case _ =>
  }

  function RestartScript(t: Thread, now: Instant): seq<CallStep> {
    [CallStart, EnterStart, LoadFile(false), VerifyFile(now), PublishFile]
  }

  function Calls(t: Thread, ks: seq<CallStep>): (steps: seq<Step>)
    ensures |steps| == |ks|
  {
    if ks == [] then [] else [Call(t, ks[0])] + Calls(t, ks[1..])
  }

  /** The cache load of a process whose Start has just entered its Once. */
  lemma LoadPublishes(c: Settings, s: System, t: Thread, a: Acceptance, now: Instant)
    requires c.hasCache && AcceptedLive(c, a) && Storable(a.raw) && a.at <= now
    requires At(s.callers, t).LoadingFile? && s.mem.disk.file == Some(a.raw)
    ensures var run := Calls(t, [LoadFile(false), VerifyFile(now), PublishFile]);
            && IsRun(c, s, run)
            && Exec(c, s, run).mem.snapshot == Some(SnapshotOf(c.lib, a.payload, true))
            && Exec(c, s, run).mem.state.cacheState == CacheLoaded
  {
    LiveImpliesCached(c.lib, a.raw, c.policy, c.environment, a.at, now);
    var s1 := DoStart(c, s, t, LoadFile(false));
    assert At(s1.callers, t) == VerifyingFile(a.raw);
    var s2 := DoStart(c, s1, t, VerifyFile(now));
    assert At(s2.callers, t) == PublishingFile(SnapshotOf(c.lib, a.payload, true));
    ScriptCons(c, s2, t, PublishFile, []);
    ScriptCons(c, s1, t, VerifyFile(now), [PublishFile]);
    ScriptCons(c, s, t, LoadFile(false), [VerifyFile(now), PublishFile]);
  }

  /** A fresh process's first Start, up to its cache load. */
  lemma BootPublishes(c: Settings, s: System, t: Thread, a: Acceptance, now: Instant)
    requires c.hasCache && AcceptedLive(c, a) && Storable(a.raw) && a.at <= now
    requires s.ctl == IDLE_CONTROL && s.callers == map[] && s.mem.disk.file == Some(a.raw)
    ensures var run := Calls(t, RestartScript(t, now));
            && IsRun(c, s, run)
            && Exec(c, s, run).mem.snapshot == Some(SnapshotOf(c.lib, a.payload, true))
            && Exec(c, s, run).mem.state.cacheState == CacheLoaded
  {
    var s1 := DoGet(c, s, t, CallStart);
    var s2 := DoStart(c, s1, t, EnterStart);
    LoadPublishes(c, s2, t, a, now);
    ScriptCons(c, s1, t, EnterStart, [LoadFile(false), VerifyFile(now), PublishFile]);
    ScriptCons(c, s, t, CallStart, [EnterStart, LoadFile(false), VerifyFile(now), PublishFile]);
  }

  /** The restarted process gets there: some run of it publishes from the file, whoever calls Start. */
  lemma RestartCanLoad(c: Settings, s: System, t: Thread, now: Instant)
    requires Reachable(c, s) && s.renamed != [] && Latest(s.renamed).value.at <= now
    ensures var a := Latest(s.renamed).value;
            var run := [Crash] + Calls(t, RestartScript(t, now));
            && IsRun(c, s, run)
            && Exec(c, s, run).mem.snapshot == Some(SnapshotOf(c.lib, a.payload, false).(fromCache := true))
            && Exec(c, s, run).mem.state.cacheState == CacheLoaded
  {
    ReachableDurable(c, s);
    var a := s.renamed[|s.renamed| - 1];
    assert AcceptedLive(c, a) && Storable(a.raw);
    BootPublishes(c, Do(c, s, Crash), t, a, now);
    RunCons(c, s, Crash, Calls(t, RestartScript(t, now)));
  }

  lemma ScriptCons(c: Settings, s: System, t: Thread, k: CallStep, ks: seq<CallStep>)
    requires CallEnabled(s, t, k) && IsRun(c, DoCall(c, s, t, k), Calls(t, ks))
    ensures IsRun(c, s, Calls(t, [k] + ks))
    ensures Exec(c, s, Calls(t, [k] + ks)) == Exec(c, DoCall(c, s, t, k), Calls(t, ks))
  {
    assert ([k] + ks)[1..] == ks;
    RunCons(c, s, Call(t, k), Calls(t, ks));
  }

  // ---------------------------------------------------------------- every run of the next process

  /** The clock is no earlier than `at` when the cache file is judged. */
  predicate InTime(step: Step, at: Instant) {
    step.Call? && step.k.VerifyFile? ==> at <= step.k.now
  }

  /** The operating system lets the cache file be read. */
  predicate ReadWorks(step: Step) {
    step.Call? && step.k.LoadFile? ==> !step.k.readFails
  }

  ghost predicate AllInTime(run: seq<Step>, at: Instant) { forall i | 0 <= i < |run| :: InTime(run[i], at) }

  ghost predicate AllReadsWork(run: seq<Step>) { forall i | 0 <= i < |run| :: ReadWorks(run[i]) }

  /** What a process started on a's envelope makes of it; `readable` when no read has failed. */
  ghost predicate Restarting(c: Settings, s: System, a: Acceptance, readable: bool) {
    var starter, snapshot := Runner(s.ctl.startOnce, s.callers), SnapshotOf(c.lib, a.payload, true);
    && c.hasCache && AcceptedLive(c, a) && Storable(a.raw)
    && (s.poller.NotLaunched? ==> s.mem.disk.file == Some(a.raw))
    && (starter.VerifyingFile? ==> starter.raw == a.raw)
    && (starter.PublishingFile? ==> starter.loading == snapshot)
    && (s.hist.loaded.Some? ==> s.hist.loaded == Some(snapshot))
    && (readable && (s.ctl.startOnce.Over? || starter.SettingStop? || starter.Launching?) ==> s.hist.loaded.Some?)
  }

  lemma RestartingStart(c: Settings, s: System, t: Thread, k: CallStep, a: Acceptance, readable: bool)
    requires Core(c, s) && Restarting(c, s, a, readable) && StartEnabled(s, At(s.callers, t), k)
    requires InTime(Call(t, k), a.at) && (readable ==> ReadWorks(Call(t, k)))
    ensures Restarting(c, DoStart(c, s, t, k), a, readable)
  {
    var p := At(s.callers, t);
    assert InStart(p) ==> Runner(s.ctl.startOnce, s.callers) == p;
    if p.VerifyingFile? {
      LiveImpliesCached(c.lib, a.raw, c.policy, c.environment, a.at, k.now);
    }
  }

  /** Any step that is not the starting thread's. */
  lemma RestartingAside(c: Settings, s: System, s': System, a: Acceptance, readable: bool)
    requires Restarting(c, s, a, readable) && s'.hist.loaded == s.hist.loaded && s'.ctl.startOnce == s.ctl.startOnce
    requires Runner(s'.ctl.startOnce, s'.callers) == Runner(s.ctl.startOnce, s.callers)
    requires s'.poller.NotLaunched? ==> s.poller.NotLaunched? && s'.mem.disk == s.mem.disk
    ensures Restarting(c, s', a, readable)
  {
  }

  /** Any step of a thread outside Start's Once. */
  lemma RestartingMove(c: Settings, s: System, s': System, t: Thread, a: Acceptance, readable: bool)
    requires Core(c, s) && Restarting(c, s, a, readable) && !InStart(At(s.callers, t))
    requires s'.callers == s.callers[t := At(s'.callers, t)] && s'.poller == s.poller && s'.mem == s.mem
    requires s'.hist == s.hist && s'.ctl.startOnce == s.ctl.startOnce
    ensures Restarting(c, s', a, readable)
  {
    RestartingAside(c, s, s', a, readable);
  }

  lemma RestartingClose(c: Settings, s: System, t: Thread, k: CallStep, a: Acceptance, readable: bool)
    requires Core(c, s) && Restarting(c, s, a, readable) && CloseEnabled(s, At(s.callers, t), k)
    ensures Restarting(c, DoClose(s, t, k), a, readable)
  {
    RestartingMove(c, s, DoClose(s, t, k), t, a, readable);
  }

  lemma RestartingGet(c: Settings, s: System, t: Thread, k: CallStep, a: Acceptance, readable: bool)
    requires Core(c, s) && Restarting(c, s, a, readable) && GetEnabled(At(s.callers, t), k)
    ensures Restarting(c, DoGet(c, s, t, k), a, readable)
  {
    RestartingMove(c, s, DoGet(c, s, t, k), t, a, readable);
  }

  lemma RestartingCall(c: Settings, s: System, t: Thread, k: CallStep, a: Acceptance, readable: bool)
    requires Core(c, s) && Restarting(c, s, a, readable) && CallEnabled(s, t, k)
    requires InTime(Call(t, k), a.at) && (readable ==> ReadWorks(Call(t, k)))
    ensures Restarting(c, DoCall(c, s, t, k), a, readable)
  {
    if Starting(At(s.callers, t)) {
      RestartingStart(c, s, t, k, a, readable);
    } else if Awaiting(At(s.callers, t)) {
      RestartingMove(c, s, DoAwait(s, t, k), t, a, readable);
    } else if Closing(At(s.callers, t)) {
      RestartingClose(c, s, t, k, a, readable);
    } else {
      RestartingGet(c, s, t, k, a, readable);
    }
  }

  lemma RestartingPoll(c: Settings, s: System, p: PollStep, a: Acceptance, readable: bool)
    requires Restarting(c, s, a, readable) && PollEnabled(s, p)
    ensures Restarting(c, DoPoll(c, s, p), a, readable)
  {
    if InFetch(s.poller) {
      RestartingAside(c, s, DoFetch(s, p), a, readable);
    } else if InRecord(s.poller) {
      assert DoRecord(c, s, p).hist.loaded == s.hist.loaded;
      RestartingAside(c, s, DoRecord(c, s, p), a, readable);
    } else {
      RestartingAside(c, s, DoRest(c, s, p), a, readable);
    }
  }

  lemma RestartingStep(c: Settings, s: System, step: Step, a: Acceptance, readable: bool)
    requires Core(c, s) && Restarting(c, s, a, readable) && Enabled(s, step) && !step.Crash?
    requires InTime(step, a.at) && (readable ==> ReadWorks(step))
    ensures Restarting(c, Do(c, s, step), a, readable)
  {
    match step
    case Poll(p) => RestartingPoll(c, s, p, a, readable);
    case Call(t, k) => RestartingCall(c, s, t, k, a, readable);
    case ServerPublishes(raw) => RestartingAside(c, s, Do(c, s, step), a, readable);
    case Crash =>
  }

  lemma {:induction false} RestartingRun(c: Settings, s: System, run: seq<Step>, a: Acceptance, readable: bool)
    requires Core(c, s) && Restarting(c, s, a, readable) && IsRun(c, s, run) && NoCrash(run)
    requires AllInTime(run, a.at) && (readable ==> AllReadsWork(run))
    ensures Core(c, Exec(c, s, run)) && Restarting(c, Exec(c, s, run), a, readable)
    decreases |run|
  {
    if run != [] {
      var rest := run[1..];
      assert forall i | 0 <= i < |rest| :: rest[i] == run[i + 1];
      CoreStep(c, s, run[0]);
      RestartingStep(c, s, run[0], a, readable);
      RestartingRun(c, Do(c, s, run[0]), rest, a, readable);
    }
  }

  lemma Rebooted(c: Settings, s: System)
    requires Reachable(c, s) && s.renamed != []
    ensures Core(c, Do(c, s, Crash)) && Restarting(c, Do(c, s, Crash), Latest(s.renamed).value, true)
  {
    ReachableCore(c, s);
    ReachableDurable(c, s);
    CoreStep(c, s, Crash);
    var a := s.renamed[|s.renamed| - 1];
    assert AcceptedLive(c, a) && Storable(a.raw);
  }

  /** Restart durability, second half: crash at any point after a store took effect. Over every run of
      the next process, in any interleaving, with a clock no earlier than that acceptance when the
      file is judged: whatever the cache load publishes has the same flags and the same issue time,
      however long expired; it does publish, unless the file cannot be read; and it is what getters
      see until the next acceptance. */
  lemma CrashThenRestart(c: Settings, s: System, run: seq<Step>)
    requires Reachable(c, s) && s.renamed != []
    requires IsRun(c, Do(c, s, Crash), run) && NoCrash(run) && AllInTime(run, Latest(s.renamed).value.at)
    ensures var a, s' := Latest(s.renamed).value, Exec(c, Do(c, s, Crash), run);
            var reloaded := Some(SnapshotOf(c.lib, a.payload, false).(fromCache := true));
            && (s'.hist.loaded.None? || s'.hist.loaded == reloaded)
            && (s'.ctl.startOnce.Over? && AllReadsWork(run) ==> s'.hist.loaded == reloaded)
            && (s'.hist.accepted == [] ==> s'.mem.snapshot == s'.hist.loaded)
  {
    Rebooted(c, s);
    RestartingRun(c, Do(c, s, Crash), run, Latest(s.renamed).value, AllReadsWork(run));
  }
}

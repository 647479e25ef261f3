/** Closing down: how often the channels close, how long a Close can take, and what is still alive
    after one. */
module Shutdown {
  import opened Wrappers
  import opened Recording
  import opened FileCache
  import opened Backoff
  import opened Protocol
  import opened Invariants
  import opened Durability

  /** Closing a closed channel panics: over every interleaving of Start and Close calls, Close
      before Start included, none of the three is closed twice. */
  lemma ChannelsCloseAtMostOnce(c: Settings, s: System)
    requires Reachable(c, s)
    ensures s.ctl.done <= 1 && s.ctl.firstAttempt <= 1 && s.mem.networkReady <= 1
  {
    ReachableCore(c, s);
  }

  // ---------------------------------------------------------------- a Close takes bounded work

  function StoreRank(p: Store): nat {
    match p
    case Opening(raw) => 5 + |raw|
    case Writing(raw, _, written) => if written < |raw| then 4 + |raw| - written else 4
    case Written(_, _) => 4
    case Closed(_, _) => 3
    case Removing(_, _) => 2
    case Finished(_) => 1
  }

  function BodyLength(outcome: FetchOutcome): nat {
    if outcome.Success? then |outcome.raw| else 0
  }

  /** The steps the poller can still take once its context is cancelled. */
  function Rank(p: Poller): nat {
    match p
    case NotLaunched => 5
    case Top(_) => 5
    case Fetching(_, _) => 4
    case Fetched(_, _) => 3
    case Recording(_, outcome) => 17 + BodyLength(outcome)
    case Publishing(_, _, a) => 16 + |a.raw|
    case Storing(_, _, _, store) => 10 + StoreRank(store)
    case CheckingReady(_, _) => 10
    case ClosingReady(_, _) => 9
    case Recorded(_, _) => 8
    case Choosing(_) => 7
    case Sleeping(_) => 6
    case Quitting => 2
    case Exiting => 1
    case Exited => 0
  }

  /** The fetches, and the records, that can still begin once the context is cancelled. */
  function FetchesLeft(p: Poller): nat {
    if p.Fetching? || p.Fetched? || Leaving(p) then 0 else 1
  }

  function RecordsLeft(p: Poller): nat { if p.Recording? then 1 else 0 }

  lemma CancelledRest(c: Settings, s: System, p: PollStep)
    requires s.ctl.cancelled && RestEnabled(s.poller, s.ctl.cancelled, p)
    ensures var q := DoRest(c, s, p).poller;
            Rank(q) < Rank(s.poller) && FetchesLeft(q) <= FetchesLeft(s.poller)
            && RecordsLeft(q) == RecordsLeft(s.poller)
  {
  }

  lemma CancelledFetch(s: System, p: PollStep)
    requires s.ctl.cancelled && FetchEnabled(s.poller, p)
    ensures var q := DoFetch(s, p).poller;
            && Rank(q) < Rank(s.poller) && RecordsLeft(q) == RecordsLeft(s.poller)
            && FetchesLeft(q) + (if p.ReadEtag? then 1 else 0) <= FetchesLeft(s.poller)
  {
  }

  lemma CancelledBeginRecord(c: Settings, s: System, entry: Entry)
    requires s.poller.Recording? && entry.outcome == s.poller.outcome
    ensures var q := DoBeginRecord(c, s, entry).poller;
            Rank(q) < Rank(s.poller) && FetchesLeft(q) == 1 && RecordsLeft(q) == 0
  {
  }

  lemma CancelledStoreCall(s: System, call: Syscall)
    requires s.poller.Storing? && StoreCan(s.poller.store, s.mem.disk, call)
    ensures var q := DoStoreCall(s, call).poller; q.Storing? && Rank(q) < Rank(s.poller)
  {
    StoreRankDrops(s.poller.store, s.mem.disk, call);
  }

  lemma CancelledRecord(c: Settings, s: System, p: PollStep)
    requires RecordEnabled(s.poller, s.mem.disk, p)
    ensures var q := DoRecord(c, s, p).poller;
            && Rank(q) < Rank(s.poller) && FetchesLeft(q) == FetchesLeft(s.poller)
            && RecordsLeft(q) + (if p.BeginRecord? then 1 else 0) == RecordsLeft(s.poller)
  {
    if p.StoreCall? {
      CancelledStoreCall(s, p.call);
    } else if p.BeginRecord? {
      CancelledBeginRecord(c, s, Entry(s.poller.outcome, p.fetchedAt, p.judgedAt));
    } else if p.Publish? {
      assert Rank(DoPublish(c, s).poller) < Rank(s.poller);
    }
  }

  lemma StoreRankDrops(p: Store, d: Disk, call: Syscall)
    requires StoreCan(p, d, call)
    ensures StoreRank(StoreStep(p, d, call).0) < StoreRank(p)
  {
  }

  function PollSteps(run: seq<Step>): nat {
    if run == [] then 0 else (if run[0].Poll? then 1 else 0) + PollSteps(run[1..])
  }

  function Fetches(run: seq<Step>): nat {
    if run == [] then 0 else (if run[0] == Poll(ReadEtag) then 1 else 0) + Fetches(run[1..])
  }

  function Records(run: seq<Step>): nat {
    if run == [] then 0 else (if run[0].Poll? && run[0].p.BeginRecord? then 1 else 0) + Records(run[1..])
  }

  lemma CancelledPoll(c: Settings, s: System, p: PollStep)
    requires Core(c, s) && s.ctl.cancelled && PollEnabled(s, p)
    ensures var s' := DoPoll(c, s, p);
            && s'.ctl.cancelled && Rank(s'.poller) < Rank(s.poller)
            && FetchesLeft(s'.poller) + (if p.ReadEtag? then 1 else 0) <= FetchesLeft(s.poller)
            && RecordsLeft(s'.poller) + (if p.BeginRecord? then 1 else 0) <= RecordsLeft(s.poller)
  {
    if InFetch(s.poller) {
      CancelledFetch(s, p);
    } else if InRecord(s.poller) {
      CancelledRecord(c, s, p);
    } else {
      CancelledRest(c, s, p);
    }
  }

  lemma CancelledCall(c: Settings, s: System, t: Thread, k: CallStep)
    requires Core(c, s) && s.ctl.cancelled && CallEnabled(s, t, k)
    ensures var s' := DoCall(c, s, t, k);
            s'.ctl.cancelled && (s'.poller == s.poller || (s.poller.NotLaunched? && s'.poller == Top(true)))
  {
    if Starting(At(s.callers, t)) {
      CancelledStart(c, s, t, k);
    } else {
      CancelledElsewhere(c, s, t, k);
    }
  }

  lemma CancelledStart(c: Settings, s: System, t: Thread, k: CallStep)
    requires Core(c, s) && StartEnabled(s, At(s.callers, t), k)
    ensures var s' := DoStart(c, s, t, k);
            s'.ctl.cancelled == s.ctl.cancelled
            && (s'.poller == s.poller || (s.poller.NotLaunched? && s'.poller == Top(true)))
  {
    if At(s.callers, t).Launching? {
      assert s.ctl.startOnce == Running(t);
    }
  }

  lemma CancelledElsewhere(c: Settings, s: System, t: Thread, k: CallStep)
    requires s.ctl.cancelled && CallEnabled(s, t, k) && !Starting(At(s.callers, t))
    ensures DoCall(c, s, t, k).ctl.cancelled && DoCall(c, s, t, k).poller == s.poller
  {
  }

  lemma CancelledStep(c: Settings, s: System, step: Step)
    requires Core(c, s) && s.ctl.cancelled && Enabled(s, step) && !step.Crash?
    ensures var s' := Do(c, s, step);
            && s'.ctl.cancelled
            && Rank(s'.poller) + (if step.Poll? then 1 else 0) <= Rank(s.poller)
            && FetchesLeft(s'.poller) + (if step == Poll(ReadEtag) then 1 else 0) <= FetchesLeft(s.poller)
            && RecordsLeft(s'.poller) + (if step.Poll? && step.p.BeginRecord? then 1 else 0) <= RecordsLeft(s.poller)
  {
    match step
    case Poll(p) => CancelledPoll(c, s, p);
    case Call(t, k) => CancelledCall(c, s, t, k);
    case _ =>
  }

  lemma NoCrashTail(run: seq<Step>)
    requires run != [] && NoCrash(run)
    ensures !run[0].Crash? && NoCrash(run[1..])
  {
    assert forall i | 0 <= i < |run[1..]| :: run[1..][i] == run[i + 1];
  }

  /** One step of a run pays for itself out of what is left. */
  lemma CancelledHead(c: Settings, s: System, run: seq<Step>)
    requires Core(c, s) && s.ctl.cancelled && IsRun(c, s, run) && run != [] && !run[0].Crash?
    ensures var s' := Do(c, s, run[0]);
            && Core(c, s') && s'.ctl.cancelled
            && Rank(s'.poller) + PollSteps(run) <= Rank(s.poller) + PollSteps(run[1..])
            && FetchesLeft(s'.poller) + Fetches(run) <= FetchesLeft(s.poller) + Fetches(run[1..])
            && RecordsLeft(s'.poller) + Records(run) <= RecordsLeft(s.poller) + Records(run[1..])
  {
    CoreStep(c, s, run[0]);
    CancelledStep(c, s, run[0]);
  }

  lemma {:induction false} CancelledRun(c: Settings, s: System, run: seq<Step>)
    requires Core(c, s) && s.ctl.cancelled && IsRun(c, s, run) && NoCrash(run)
    ensures PollSteps(run) <= Rank(s.poller)
    ensures Fetches(run) <= FetchesLeft(s.poller) && Records(run) <= RecordsLeft(s.poller)
    decreases |run|
  {
    if run != [] {
      NoCrashTail(run);
      CancelledHead(c, s, run);
      CancelledRun(c, Do(c, s, run[0]), run[1..]);
    }
  }

  /** A Close that followed the launch (or met it half-way) is waited for only boundedly: after the
      cancellation the poller takes at most Rank more steps, among them at most one fetch and one
      record, provided each fetch returns. */
  lemma CloseWaitsBoundedly(c: Settings, s: System, run: seq<Step>)
    requires Reachable(c, s) && s.ctl.cancelled && IsRun(c, s, run) && NoCrash(run)
    ensures PollSteps(run) <= Rank(s.poller)
    ensures Fetches(run) <= FetchesLeft(s.poller) <= 1 && Records(run) <= RecordsLeft(s.poller) <= 1
  {
    ReachableCore(c, s);
    CancelledRun(c, s, run);
  }

  lemma {:induction false} LeavingRun(c: Settings, s: System, run: seq<Step>)
    requires Core(c, s) && Leaving(s.poller) && IsRun(c, s, run) && NoCrash(run)
    ensures Fetches(run) == 0 && Records(run) == 0 && Leaving(Exec(c, s, run).poller)
    decreases |run|
  {
    if run != [] {
      NoCrashTail(run);
      LeavingHead(c, s, run);
      LeavingRun(c, Do(c, s, run[0]), run[1..]);
    }
  }

  lemma LeavingHead(c: Settings, s: System, run: seq<Step>)
    requires Core(c, s) && Leaving(s.poller) && IsRun(c, s, run) && run != [] && !run[0].Crash?
    ensures Core(c, Do(c, s, run[0])) && Leaving(Do(c, s, run[0]).poller)
    ensures Fetches(run) == Fetches(run[1..]) && Records(run) == Records(run[1..])
  {
    CoreStep(c, s, run[0]);
    LeavingStep(c, s, run[0]);
  }

  lemma LeavingStep(c: Settings, s: System, step: Step)
    requires Core(c, s) && Leaving(s.poller) && Enabled(s, step) && !step.Crash?
    ensures Leaving(Do(c, s, step).poller) && step != Poll(ReadEtag) && !(step.Poll? && step.p.BeginRecord?)
  {
    if !step.Poll? {
      OthersStayOut(c, s, step);
    }
  }

  /** Once the poller has seen the cancellation, in its sleep or when a fetch returns, it is on its way
      out: it fetches and records nothing more, and exits within two steps of its own. */
  lemma SeenIsObeyed(c: Settings, s: System, p: PollStep, run: seq<Step>)
    requires Reachable(c, s) && s.ctl.cancelled && (p.SeeCancel? || p.CheckContext?) && PollEnabled(s, p)
    requires IsRun(c, DoPoll(c, s, p), run) && NoCrash(run)
    ensures Leaving(Exec(c, DoPoll(c, s, p), run).poller)
    ensures PollSteps(run) <= 2 && Fetches(run) == 0 && Records(run) == 0
  {
    ReachableCore(c, s);
    CoreStep(c, s, Poll(p));
    SeenLeads(c, s, p);
    LeavingRun(c, DoPoll(c, s, p), run);
    CancelledRun(c, DoPoll(c, s, p), run);
  }

  lemma SeenLeads(c: Settings, s: System, p: PollStep)
    requires s.ctl.cancelled && (p.SeeCancel? || p.CheckContext?) && PollEnabled(s, p)
    ensures var s' := DoPoll(c, s, p); s'.ctl.cancelled && Leaving(s'.poller) && Rank(s'.poller) <= 2
  {
    if InFetch(s.poller) {
      assert Leaving(DoFetch(s, p).poller);
    } else {
      assert Leaving(DoRest(c, s, p).poller);
    }
  }

  /** A step the poller can take, whenever it is running: it is never blocked but by the fetcher and
      the timer. */
  function NextPollStep(s: System): PollStep
    requires !s.poller.NotLaunched? && !s.poller.Exited?
  {
    match s.poller
    case Top(_) => ReadEtag
    case Fetching(_, _) => FetchReturns(TransportError)
    case Fetched(_, _) => CheckContext
    case Recording(_, _) => BeginRecord(0, 0)
    case Publishing(_, _, _) => Publish
    case Storing(_, _, _, store) =>
      (match store
       case Opening(_) => StoreCall(Create(false))
       case Writing(_, _, _) => StoreCall(WriteFails)
       case Written(_, _) => StoreCall(Close(false))
       case Closed(_, _) => StoreCall(Rename(false))
       case Removing(_, _) => StoreCall(Remove(false))
       case Finished(_) => FinishStore)
    case CheckingReady(_, _) => CheckReady
    case ClosingReady(_, _) => CloseReady
    case Recorded(_, _) => CloseFirst
    case Choosing(_) => ChooseDelay(LOWEST)
    case Sleeping(_) => TimerFires
    case Quitting => CloseFirst
    case Exiting => CloseDone
  }

  /** Mid-write bookkeeping the poller needs to go on. */
  ghost predicate StoreSane(s: System) { s.poller.Storing? ==> StoreInv(s.poller.store, s.mem.disk) }

  lemma StoreNeverStuck(c: Settings, s: System)
    requires s.poller.Storing? && StoreSane(s)
    ensures RecordEnabled(s.poller, s.mem.disk, NextPollStep(s))
    ensures DoRecord(c, s, NextPollStep(s)).poller != s.poller
  {
  }

  lemma PollerNeverStuck(c: Settings, s: System)
    requires StoreSane(s) && !s.poller.NotLaunched? && !s.poller.Exited?
    ensures PollEnabled(s, NextPollStep(s))
    ensures DoPoll(c, s, NextPollStep(s)).poller != s.poller
  {
    if s.poller.Choosing? {
      assert InRange(LOWEST);
    } else if s.poller.Storing? {
      StoreNeverStuck(c, s);
    }
  }

  /** Someone can always move a waiting Close along: the poller until it has exited, the launching
      Start if the poller is not there yet, and then the Close itself. */
  lemma CloseAlwaysProgresses(c: Settings, s: System, t: Thread)
    requires Reachable(c, s) && At(s.callers, t).AwaitingDone?
    ensures s.poller.Exited? ==> CallEnabled(s, t, SeeDone)
    ensures s.poller.NotLaunched? ==> s.ctl.startOnce.Running? && CallEnabled(s, s.ctl.startOnce.thread, Launch)
    ensures !s.poller.Exited? && !s.poller.NotLaunched? ==> PollEnabled(s, NextPollStep(s))
  {
    ReachableCore(c, s);
    ReachableDurable(c, s);
    assert s.ctl.closeOnce == Running(t);
    if !s.poller.Exited? && !s.poller.NotLaunched? {
      PollerNeverStuck(c, s);
    }
  }

  // ---------------------------------------------------------------- after the Close

  lemma FrozenStep(c: Settings, s: System, step: Step)
    requires Core(c, s) && s.poller.Exited? && Enabled(s, step) && !step.Crash?
    ensures var s' := Do(c, s, step);
            s'.mem == s.mem && s'.poller.Exited? && s'.renamed == s.renamed && s'.hist == s.hist
  {
    if step.Call? && Starting(At(s.callers, step.thread)) {
      assert !InStart(At(s.callers, step.thread));
    }
  }

  lemma {:induction false} FrozenRun(c: Settings, s: System, run: seq<Step>)
    requires Core(c, s) && s.poller.Exited? && IsRun(c, s, run) && NoCrash(run)
    ensures var s' := Exec(c, s, run); s'.mem == s.mem && s'.poller.Exited? && s'.hist == s.hist
    decreases |run|
  {
    if run != [] {
      NoCrashTail(run);
      CoreStep(c, s, run[0]);
      FrozenStep(c, s, run[0]);
      FrozenRun(c, Do(c, s, run[0]), run[1..]);
    }
  }

  /** Once the poller has exited, nothing moves the snapshot, the state record, the ready channel or
      the cache file, whatever Start, Close and getter calls follow. */
  lemma FrozenForever(c: Settings, s: System, run: seq<Step>)
    requires Reachable(c, s) && s.poller.Exited? && IsRun(c, s, run) && NoCrash(run)
    ensures var s' := Exec(c, s, run); s'.mem == s.mem && s'.poller.Exited? && s'.hist == s.hist
  {
    ReachableCore(c, s);
    FrozenRun(c, s, run);
  }

  lemma EarlyStep(c: Settings, s: System, step: Step)
    requires Core(c, s) && s.ctl.path.Early? && Enabled(s, step) && !step.Crash?
    ensures var s' := Do(c, s, step); s'.ctl.path.Early? && (s.ctl.closeOnce.Over? ==> s'.ctl.closeOnce.Over?)
  {
    match step
    case Poll(p) =>
    case Call(t, k) =>
      if Closing(At(s.callers, t)) {
        EarlyClose(c, s, t, k);
      }
    case _ =>
  }

  lemma EarlyClose(c: Settings, s: System, t: Thread, k: CallStep)
    requires Core(c, s) && s.ctl.path.Early? && CloseEnabled(s, At(s.callers, t), k)
    ensures var s' := DoClose(s, t, k); s'.ctl.path.Early? && (s.ctl.closeOnce.Over? ==> s'.ctl.closeOnce.Over?)
  {
    if InClose(At(s.callers, t)) {
      assert s.ctl.closeOnce == Running(t);
    }
  }

  lemma {:induction false} EarlyRun(c: Settings, s: System, run: seq<Step>)
    requires Core(c, s) && s.ctl.path.Early? && IsRun(c, s, run) && NoCrash(run)
    ensures var s' := Exec(c, s, run);
            !s'.ctl.cancelled && !Leaving(s'.poller) && s'.ctl.path.Early?
            && (s.ctl.closeOnce.Over? ==> s'.ctl.closeOnce.Over?)
    decreases |run|
  {
    if run != [] {
      CoreStep(c, s, run[0]);
      EarlyStep(c, s, run[0]);
      NoCrashTail(run);
      EarlyRun(c, Do(c, s, run[0]), run[1..]);
    }
  }

  /** A Close that found no cancel function cancels nothing, ever: no later call stops the poller. */
  lemma EarlyCloseStopsNothing(c: Settings, s: System, run: seq<Step>)
    requires Reachable(c, s) && s.ctl.path.Early? && IsRun(c, s, run) && NoCrash(run)
    ensures var s' := Exec(c, s, run); !s'.ctl.cancelled && !Leaving(s'.poller)
  {
    ReachableCore(c, s);
    EarlyRun(c, s, run);
  }

  /** A process whose first call is Close: it finds no cancel function. */
  lemma FindsNoCancel(c: Settings, file: Option<string>, server: string) returns (run: seq<Step>, s: System)
    ensures IsRun(c, Initial(c, file, server), run) && NoCrash(run) && Exec(c, Initial(c, file, server), run) == s
    ensures At(s.callers, 0) == ReadingStop && !s.ctl.stop && s.ctl.startOnce.Fresh?
  {
    var s0 := Initial(c, file, server);
    run, s := [], s0;
    run, s := Extend(c, s0, run, s, Call(0, CallClose));
    assert At(s.callers, 0) == EnteringClose;
    run, s := Extend(c, s0, run, s, Call(0, EnterClose));
  }

  lemma ClosesEarly(c: Settings, file: Option<string>, server: string) returns (run: seq<Step>, s: System)
    ensures IsRun(c, Initial(c, file, server), run) && NoCrash(run) && Exec(c, Initial(c, file, server), run) == s
    ensures s.ctl.path.Early? && s.ctl.closeOnce.Over? && s.ctl.startOnce.Fresh?
  {
    var s0 := Initial(c, file, server);
    run, s := FindsNoCancel(c, file, server);
    run, s := Extend(c, s0, run, s, Call(0, ReadStop));
    assert At(s.callers, 0) == ClosingDone;
    run, s := Extend(c, s0, run, s, Call(0, CloseDoneEarly));
  }

  /** It happens, under any settings: Close returns, Start launches the poller after it, and nothing
      any caller does from there on stops that poller. */
  lemma EarlyCloseHappens(c: Settings, file: Option<string>, server: string) returns (run: seq<Step>)
    ensures IsRun(c, Initial(c, file, server), run) && NoCrash(run)
    ensures var s := Exec(c, Initial(c, file, server), run);
            && s.ctl.path.Early? && s.ctl.closeOnce.Over? && s.poller == Top(true)
            && forall more | IsRun(c, s, more) && NoCrash(more) :: !Leaving(Exec(c, s, more).poller)
  {
    var s0 := Initial(c, file, server);
    var close, s := ClosesEarly(c, file, server);
    var start := NewcomerCanLaunch(c, s);
    RunConcat(c, s0, close, start);
    run := close + start;
    CoreBoot(c, Disk(file, map[], 0), file, [], server);
    CoreRun(c, s0, run);
    CoreRun(c, s0, close);
    EarlyRun(c, s, start);
    var end := Exec(c, s0, run);
    forall more | IsRun(c, end, more) && NoCrash(more) ensures !Leaving(Exec(c, end, more).poller) {
      EarlyRun(c, end, more);
    }
  }

  /** Whatever the callers do, the poller and all it writes stay as they are. */
  ghost predicate Quiet(c: Settings, s: System) {
    forall run | IsRun(c, s, run) && NoCrash(run) :: Exec(c, s, run).mem == s.mem && Exec(c, s, run).poller == s.poller
  }

  /** A Start that has entered its Once can be run on until it launches the poller. */
  lemma StartCanLaunch(c: Settings, s: System, t: Thread) returns (run: seq<Step>)
    requires InStart(At(s.callers, t))
    ensures IsRun(c, s, run) && NoCrash(run) && Exec(c, s, run).poller == Top(true)
    ensures Exec(c, s, run).ctl.cancelled == s.ctl.cancelled
    decreases match At(s.callers, t)
              case LoadingFile => 5 case VerifyingFile(_) => 4 case PublishingFile(_) => 3
              case SettingStop => 2 case _ => 1
  {
    var k :=
      match At(s.callers, t)
      case LoadingFile => LoadFile(false)
      case VerifyingFile(_) => VerifyFile(0)
      case PublishingFile(_) => PublishFile
      case SettingStop => SetStop
      case _ => Launch;
    var s' := DoStart(c, s, t, k);
    var rest: seq<Step> := [];
    if k != Launch {
      rest := StartCanLaunch(c, s', t);
    }
    RunCons(c, s, Call(t, k), rest);
    run := [Call(t, k)] + rest;
  }

  lemma SomeIdleThread(callers: map<Thread, Caller>) returns (t: Thread)
    ensures t !in callers
  {
    var keys := callers.Keys;
    t := 0;
    while t in callers
      invariant keys <= callers.Keys
      invariant forall u | u in callers && u !in keys :: u < t
      invariant forall u: Thread | u < t :: u in callers
      decreases |keys|
    {
      keys := keys - {t};
      t := t + 1;
    }
  }

  lemma NewcomerCanLaunch(c: Settings, s: System) returns (run: seq<Step>)
    requires s.ctl.startOnce.Fresh?
    ensures IsRun(c, s, run) && NoCrash(run) && Exec(c, s, run).poller == Top(true)
    ensures Exec(c, s, run).ctl.cancelled == s.ctl.cancelled
  {
    var t := SomeIdleThread(s.callers);
    var s1 := DoGet(c, s, t, CallStart);
    var s2 := DoStart(c, s1, t, EnterStart);
    var rest := StartCanLaunch(c, s2, t);
    RunCons(c, s1, Call(t, EnterStart), rest);
    var tail := [Call(t, EnterStart)] + rest;
    RunCons(c, s, Call(t, CallStart), tail);
    run := [Call(t, CallStart)] + tail;
  }

  lemma EarlyIsNotQuiet(c: Settings, s: System)
    requires Core(c, s) && StoreSane(s) && s.ctl.path.Early?
    ensures !Quiet(c, s)
  {
    var run: seq<Step>;
    if !s.poller.NotLaunched? {
      PollerNeverStuck(c, s);
      RunCons(c, s, Poll(NextPollStep(s)), []);
      run := [Poll(NextPollStep(s))] + [];
    } else if s.ctl.startOnce.Running? {
      run := StartCanLaunch(c, s, s.ctl.startOnce.thread);
    } else {
      run := NewcomerCanLaunch(c, s);
    }
    assert IsRun(c, s, run) && NoCrash(run) && Exec(c, s, run).poller != s.poller;
  }

  /** Exactly when a finished Close freezes snapshot, state record, ready channel, cache file and
      poller for good: when it found the cancel function set. Otherwise some continuation still
      runs a poller, which nothing will ever stop. */
  lemma CloseIsFinalExactlyWhenItStops(c: Settings, s: System)
    requires Reachable(c, s) && s.ctl.closeOnce.Over?
    ensures s.ctl.path.Stops? <==> Quiet(c, s)
    ensures s.ctl.path.Stops? ==> s.poller.Exited?
    ensures !s.ctl.path.Stops? ==> s.ctl.path.Early?
  {
    ReachableCore(c, s);
    ReachableDurable(c, s);
    if s.ctl.path.Stops? {
      forall run | IsRun(c, s, run) && NoCrash(run)
        ensures Exec(c, s, run).mem == s.mem && Exec(c, s, run).poller == s.poller
      {
        FrozenForever(c, s, run);
      }
    } else {
      EarlyIsNotQuiet(c, s);
    }
  }
}

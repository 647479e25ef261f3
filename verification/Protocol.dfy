/** The running client as a state machine: one poller, any number of threads calling Start, Close
    and the getters, a file system that outlives the process, and a server. Each step is one
    atomic action of one goroutine, or an event of the environment. */
module Protocol {
  import opened Wrappers
  import opened Ruleset
  import opened Verifier
  import opened Recording
  import opened FileCache
  import opened Memory
  import opened Backoff

  /** An envelope accepted live, with the validator it came under and the time it was judged. */
  datatype Acceptance = Acceptance(raw: string, etag: string, payload: RulesetPayload, at: Instant)

  /** Where the poller stands in `poll` and `record`. `first` is poll's own local; the lock is
      held from `Publishing` to `ClosingReady`. */
  datatype Poller =
    | NotLaunched
    | Top(first: bool)
    | Fetching(first: bool, sent: string)
    | Fetched(first: bool, outcome: FetchOutcome)
    | Recording(first: bool, outcome: FetchOutcome)
    | Publishing(first: bool, outcome: FetchOutcome, accepted: Acceptance)
    | Storing(first: bool, outcome: FetchOutcome, accepted: Acceptance, store: Store)
    | CheckingReady(first: bool, outcome: FetchOutcome)
    | ClosingReady(first: bool, outcome: FetchOutcome)
    | Recorded(first: bool, outcome: FetchOutcome)
    | Choosing(outcome: FetchOutcome)
    | Sleeping(delay: int)
    | Quitting
    | Exiting
    | Exited

  datatype StartOutcome = StartReady | StartCacheOnly | StartTimedOut

  /** Where a calling thread stands in Start, in Close, or in a getter. `prompted` says that it was the
      caller's context that ended Start's wait. */
  datatype Caller =
    | Idle
    | EnteringStart | LoadingFile | VerifyingFile(raw: string) | PublishingFile(loading: Snapshot)
    | SettingStop | Launching | Waiting | LookingAgain | LoadingFinal(prompted: bool)
    | LookingFinal(prompted: bool, found: Option<Snapshot>) | Started(prompted: bool, outcome: StartOutcome)
    | EnteringClose | ReadingStop | Cancelling | AwaitingDone | ClosingDone | CloseReturning
    | Asking(q: Query, since: nat, after: nat)
    | Holding(q: Query, since: nat, after: nat, k: nat, held: Option<Snapshot>)
    | Answering(q: Query, since: nat, after: nat, k: nat, answer: Answer)

  type Thread = nat

  /** A sync.Once. */
  datatype Once = Fresh | Running(thread: Thread) | Over

  /** Which way the one Close that does anything went. */
  datatype ClosePath = Undecided | Stops | Early

  /** A getter call that returned: it was invoked when `since` rulesets had been published and
      `after` calls had returned, loaded the k-th ruleset, and returned when `until` were. */
  datatype GetterCall = GetterCall(thread: Thread, q: Query, since: nat, after: nat, k: nat, until: nat, answer: Answer)

  /** The one-shot channels (how often each was closed), the cancel function, the two Onces. */
  datatype Control = Control(
    firstAttempt: nat, done: nat, stop: bool, cancelled: bool, startOnce: Once, closeOnce: Once, path: ClosePath)

  /** What has happened in this process, kept for stating properties; no step reads it. */
  datatype History = History(
    published: seq<Snapshot>, loaded: Option<Snapshot>, accepted: seq<Acceptance>, entries: seq<Entry>)

  /** The getters' answers as counted, and their calls as they returned. */
  datatype Log = Log(answers: seq<Answer>, calls: seq<GetterCall>)

  /** `server` is the body the server would send now; `current` lists the bodies that were so since the
      outstanding fetch went out, in order, kept for stating properties. */
  datatype System = System(
    mem: Memory, ctl: Control, poller: Poller, callers: map<Thread, Caller>, counters: Counters,
    hist: History, log: Log, waits: seq<int>,
    initialFile: Option<string>, renamed: seq<Acceptance>, server: string, current: seq<string>)

  function At(callers: map<Thread, Caller>, t: Thread): Caller { if t in callers then callers[t] else Idle }

  const IDLE_CONTROL := Control(0, 0, false, false, Fresh, Fresh, Undecided)

  /** A process that has just called New. */
  function Boot(c: Settings, disk: Disk,
                initialFile: Option<string>, renamed: seq<Acceptance>, server: string): System {
    System(FreshMemory(c, disk), IDLE_CONTROL, NotLaunched, map[], ZERO_COUNTERS,
           History([], None, [], []), Log([], []), [], initialFile, renamed, server, [])
  }

  function Initial(c: Settings, file: Option<string>, server: string): System {
    Boot(c, Disk(file, map[], 0), file, [], server)
  }

  // ---------------------------------------------------------------- steps

  datatype PollStep =
    | ReadEtag
    | FetchReturns(got: FetchOutcome)
    | CheckContext
    | BeginRecord(fetchedAt: Instant, judgedAt: Instant)
    | Publish
    | StoreCall(call: Syscall)
    | FinishStore
    | CheckReady
    | CloseReady
    | CloseFirst
    | ChooseDelay(random: Random)
    | TimerFires
    | SeeCancel
    | CloseDone

  datatype CallStep =
    | CallStart | EnterStart | LoadFile(readFails: bool) | VerifyFile(now: Instant) | PublishFile | SetStop | Launch
    | SelectReady | SelectContext | SelectFirst | LookAgain | LoadFinal | LookFinal
    | CallClose | EnterClose | ReadStop | Cancel | SeeDone | CloseDoneEarly
    | Ask(query: Query) | LoadSnapshot | Count | Return

  datatype Step =
    | Poll(p: PollStep)
    | Call(thread: Thread, k: CallStep)
    | ServerPublishes(raw: string)
    | Crash

  predicate InFetch(p: Poller) { p.Top? || p.Fetching? || p.Fetched? }

  /** Inside `record`. */
  predicate InRecord(p: Poller) {
    p.Recording? || p.Publishing? || p.Storing? || p.CheckingReady? || p.ClosingReady?
  }

  predicate FetchEnabled(poller: Poller, p: PollStep) {
    match poller
    case Top(_) => p.ReadEtag?
    case Fetching(_, _) => p.FetchReturns?
    case Fetched(_, _) => p.CheckContext?
    case _ => false
  }

  predicate RecordEnabled(poller: Poller, disk: Disk, p: PollStep) {
    match poller
    case Recording(_, _) => p.BeginRecord?
    case Publishing(_, _, _) => p.Publish?
    case Storing(_, _, _, store) =>
      (p.StoreCall? && StoreCan(store, disk, p.call)) || (p.FinishStore? && store.Finished?)
    case CheckingReady(_, _) => p.CheckReady?
    case ClosingReady(_, _) => p.CloseReady?
    case _ => false
  }

  ghost predicate RestEnabled(poller: Poller, cancelled: bool, p: PollStep) {
    match poller
    case Recorded(_, _) => p.CloseFirst?
    case Choosing(_) => p.ChooseDelay? && InRange(p.random)
    case Sleeping(_) => p.TimerFires? || (p.SeeCancel? && cancelled)
    case Quitting => p.CloseFirst?
    case Exiting => p.CloseDone?
    case _ => false
  }

  ghost predicate PollEnabled(s: System, p: PollStep) {
    if InFetch(s.poller) then FetchEnabled(s.poller, p)
    else if InRecord(s.poller) then RecordEnabled(s.poller, s.mem.disk, p)
    else RestEnabled(s.poller, s.ctl.cancelled, p)
  }

  /** Start, up to the launch: the caller's way to and through the Once. */
  predicate Starting(p: Caller) { p.EnteringStart? || InStart(p) }

  predicate InStart(p: Caller) {
    p.LoadingFile? || p.VerifyingFile? || p.PublishingFile? || p.SettingStop? || p.Launching?
  }

  predicate InClose(p: Caller) { p.ReadingStop? || p.Cancelling? || p.AwaitingDone? || p.ClosingDone? }

  predicate Closing(p: Caller) { p.EnteringClose? || InClose(p) }

  predicate Awaiting(p: Caller) { p.Waiting? || p.LookingAgain? || p.LoadingFinal? || p.LookingFinal? }

  predicate Getting(p: Caller) { p.Asking? || p.Holding? || p.Answering? }

  predicate StartEnabled(s: System, p: Caller, k: CallStep) {
    match p
    case EnteringStart => k.EnterStart? && !s.ctl.startOnce.Running?
    case LoadingFile => k.LoadFile?
    case VerifyingFile(_) => k.VerifyFile?
    case PublishingFile(_) => k.PublishFile?
    case SettingStop => k.SetStop?
    case Launching => k.Launch?
    case _ => false
  }

  predicate AwaitEnabled(s: System, p: Caller, k: CallStep) {
    match p
    case Waiting =>
      (k.SelectReady? && s.mem.networkReady > 0) || k.SelectContext? || (k.SelectFirst? && s.ctl.firstAttempt > 0)
    case LookingAgain => k.LookAgain?
    case LoadingFinal(_) => k.LoadFinal?
    case LookingFinal(_, _) => k.LookFinal?
    case _ => false
  }

  predicate CloseEnabled(s: System, p: Caller, k: CallStep) {
    match p
    case EnteringClose => k.EnterClose? && !s.ctl.closeOnce.Running?
    case ReadingStop => k.ReadStop?
    case Cancelling => k.Cancel?
    case AwaitingDone => k.SeeDone? && s.ctl.done > 0
    case ClosingDone => k.CloseDoneEarly?
    case _ => false
  }

  predicate GetEnabled(p: Caller, k: CallStep) {
    match p
    case Idle => k.CallStart? || k.CallClose? || k.Ask?
    case Asking(_, _, _) => k.LoadSnapshot?
    case Holding(_, _, _, _, _) => k.Count?
    case Answering(_, _, _, _, _) => k.Return?
    case Started(_, _) => k.Return?
    case CloseReturning => k.Return?
    case _ => false
  }

  predicate CallEnabled(s: System, t: Thread, k: CallStep) {
    var p := At(s.callers, t);
    if Starting(p) then StartEnabled(s, p, k)
    else if Awaiting(p) then AwaitEnabled(s, p, k)
    else if Closing(p) then CloseEnabled(s, p, k)
    else GetEnabled(p, k)
  }

  ghost predicate Enabled(s: System, step: Step) {
    match step
    case Poll(p) => PollEnabled(s, p)
    case Call(t, k) => CallEnabled(s, t, k)
    case _ => true
  }

  // ---------------------------------------------------------------- the poller

  function DoBeginRecord(c: Settings, s: System, entry: Entry): System
    requires s.poller.Recording? && entry.outcome == s.poller.outcome
  {
    var s1 := s.(mem := s.mem.(state := RecordState(c, s.mem.state, entry)),
                 hist := s.hist.(entries := s.hist.entries + [entry]));
    if !IsAccepted(c, entry) then s1.(poller := Recorded(s.poller.first, s.poller.outcome))
    else
      var verdict := Judge(c, entry);
      var a := Acceptance(verdict.raw, entry.outcome.etag, verdict.payload, entry.judgedAt);
      s1.(poller := Publishing(s.poller.first, s.poller.outcome, a),
          hist := s1.hist.(accepted := s.hist.accepted + [a]))
  }

  function DoPublish(c: Settings, s: System): System
    requires s.poller.Publishing?
  {
    var snapshot := SnapshotOf(c.lib, s.poller.accepted.payload, false);
    s.(mem := s.mem.(snapshot := Some(snapshot)),
       hist := s.hist.(published := s.hist.published + [snapshot]),
       poller := if c.hasCache
                 then Storing(s.poller.first, s.poller.outcome, s.poller.accepted, Opening(s.poller.accepted.raw))
                 else CheckingReady(s.poller.first, s.poller.outcome))
  }

  function DoStoreCall(s: System, call: Syscall): System
    requires s.poller.Storing? && StoreCan(s.poller.store, s.mem.disk, call)
  {
    var (store, disk) := StoreStep(s.poller.store, s.mem.disk, call);
    s.(mem := s.mem.(disk := disk), poller := s.poller.(store := store),
       renamed := if s.poller.store.Closed? && call.ok then s.renamed + [s.poller.accepted] else s.renamed)
  }

  function DoFetch(s: System, p: PollStep): (s': System)
    requires FetchEnabled(s.poller, p)
    ensures s' == s.(poller := s'.poller, current := s'.current) && !s'.poller.NotLaunched?
  {
    s.(current := if s.poller.Top? then [s.server] else s.current,
       poller :=
         match s.poller
         case Top(first) => Fetching(first, s.mem.state.etag)
         case Fetching(first, _) => Fetched(first, p.got)
         case Fetched(first, outcome) =>
           if !s.ctl.cancelled then Recording(first, outcome) else if first then Quitting else Exiting)
  }

  function DoRecord(c: Settings, s: System, p: PollStep): (s': System)
    requires RecordEnabled(s.poller, s.mem.disk, p)
    ensures s' == s.(mem := s'.mem, hist := s'.hist, poller := s'.poller, renamed := s'.renamed)
    ensures s'.poller.Recorded? || (InRecord(s'.poller) && !s'.poller.Recording?)
  {
    match s.poller
    case Recording(_, outcome) => DoBeginRecord(c, s, Entry(outcome, p.fetchedAt, p.judgedAt))
    case Publishing(_, _, _) => DoPublish(c, s)
    case Storing(first, outcome, _, store) =>
      if p.StoreCall? then DoStoreCall(s, p.call)
      else s.(mem := s.mem.(state := s.mem.state.(cacheState := if store.ok then CacheStored else CacheStoreFailed)),
              poller := CheckingReady(first, outcome))
    case CheckingReady(first, outcome) =>
      s.(poller := if s.mem.networkReady > 0 then Recorded(first, outcome) else ClosingReady(first, outcome))
    case ClosingReady(first, outcome) =>
      s.(mem := s.mem.(networkReady := s.mem.networkReady + 1), poller := Recorded(first, outcome))
  }

  function DoRest(c: Settings, s: System, p: PollStep): (s': System)
    requires RestEnabled(s.poller, s.ctl.cancelled, p)
    ensures s' == s.(poller := s'.poller, ctl := s'.ctl, waits := s'.waits)
    ensures s'.ctl.startOnce == s.ctl.startOnce && !InRecord(s'.poller) && !s'.poller.NotLaunched?
  {
    match s.poller
    case Recorded(first, outcome) =>
      s.(ctl := if first then s.ctl.(firstAttempt := s.ctl.firstAttempt + 1) else s.ctl, poller := Choosing(outcome))
    case Choosing(outcome) =>
      var delay := WaitAfter(c, s.mem.state.consecutiveFailures, outcome, p.random);
      s.(poller := Sleeping(delay), waits := s.waits + [delay])
    case Sleeping(_) => s.(poller := if p.TimerFires? then Top(false) else Exiting)
    case Quitting => s.(ctl := s.ctl.(firstAttempt := s.ctl.firstAttempt + 1), poller := Exiting)
    case Exiting => s.(ctl := s.ctl.(done := s.ctl.done + 1), poller := Exited)
  }

  function DoPoll(c: Settings, s: System, p: PollStep): System
    requires PollEnabled(s, p)
  {
    if InFetch(s.poller) then DoFetch(s, p)
    else if InRecord(s.poller) then DoRecord(c, s, p)
    else DoRest(c, s, p)
  }

  // ---------------------------------------------------------------- the callers

  function Goto(s: System, t: Thread, to: Caller): System { s.(callers := s.callers[t := to]) }

  function DoStart(c: Settings, s: System, t: Thread, k: CallStep): (s': System)
    requires StartEnabled(s, At(s.callers, t), k)
    ensures s' == s.(mem := s'.mem, ctl := s'.ctl, poller := s'.poller, callers := s.callers[t := At(s'.callers, t)],
                     hist := s'.hist)
    ensures s'.mem.disk == s.mem.disk && (s'.poller == s.poller || s'.poller == Top(true))
    ensures !Getting(At(s'.callers, t)) && !InClose(At(s'.callers, t))
  {
    match At(s.callers, t)
    case EnteringStart =>
      if s.ctl.startOnce.Over? then Goto(s, t, Waiting)
      else Goto(s, t, LoadingFile).(ctl := s.ctl.(startOnce := Running(t)))
    case LoadingFile =>
      var raw := LoadResult(s.mem.disk.file, k.readFails);
      Goto(s, t, if !c.hasCache || raw.None? then SettingStop else VerifyingFile(raw.value))
    case VerifyingFile(raw) =>
      (match VerifyEnvelope(c.lib, raw, c.policy, CacheExpectations(c, k.now))
       case Rejected(_) =>
         Goto(s, t, SettingStop).(mem := s.mem.(state := s.mem.state.(cacheState := CacheLoadFailed)))
       case Accepted(_, payload) =>
         Goto(s, t, PublishingFile(SnapshotOf(c.lib, payload, true)))
         .(mem := s.mem.(state := s.mem.state.(cacheState := CacheLoaded))))
    case PublishingFile(snapshot) =>
      Goto(s, t, SettingStop).(mem := s.mem.(snapshot := Some(snapshot)),
                               hist := s.hist.(published := s.hist.published + [snapshot], loaded := Some(snapshot)))
    case SettingStop => Goto(s, t, Launching).(ctl := s.ctl.(stop := true))
    case Launching => Goto(s, t, Waiting).(poller := Top(true), ctl := s.ctl.(startOnce := Over))
  }

  function DoAwait(s: System, t: Thread, k: CallStep): (s': System)
    requires AwaitEnabled(s, At(s.callers, t), k)
    ensures s' == s.(callers := s.callers[t := At(s'.callers, t)])
    ensures !InStart(At(s'.callers, t)) && !InClose(At(s'.callers, t)) && !Getting(At(s'.callers, t))
  {
    Goto(s, t,
         match At(s.callers, t)
         case Waiting =>
           if k.SelectReady? then Started(false, StartReady)
           else if k.SelectFirst? then LookingAgain
           else LoadingFinal(true)
         case LookingAgain => if s.mem.networkReady > 0 then Started(false, StartReady) else LoadingFinal(false)
         case LoadingFinal(prompted) =>
           if s.mem.snapshot.Some? && s.mem.snapshot.value.fromCache then Started(prompted, StartCacheOnly)
           else LookingFinal(prompted, s.mem.snapshot)
         case LookingFinal(prompted, _) =>
           Started(prompted, if s.mem.networkReady > 0 then StartReady else StartTimedOut))
  }

  function DoClose(s: System, t: Thread, k: CallStep): (s': System)
    requires CloseEnabled(s, At(s.callers, t), k)
    ensures s' == s.(callers := s.callers[t := At(s'.callers, t)], ctl := s'.ctl)
    ensures s'.ctl.startOnce == s.ctl.startOnce && !InStart(At(s'.callers, t)) && !Getting(At(s'.callers, t))
  {
    match At(s.callers, t)
    case EnteringClose =>
      if s.ctl.closeOnce.Over? then Goto(s, t, CloseReturning)
      else Goto(s, t, ReadingStop).(ctl := s.ctl.(closeOnce := Running(t)))
    case ReadingStop =>
      if s.ctl.stop then Goto(s, t, Cancelling).(ctl := s.ctl.(path := Stops))
      else Goto(s, t, ClosingDone).(ctl := s.ctl.(path := Early))
    case Cancelling => Goto(s, t, AwaitingDone).(ctl := s.ctl.(cancelled := true))
    case AwaitingDone => Goto(s, t, CloseReturning).(ctl := s.ctl.(closeOnce := Over))
    case ClosingDone => Goto(s, t, CloseReturning).(ctl := s.ctl.(done := s.ctl.done + 1, closeOnce := Over))
  }

  function DoGet(c: Settings, s: System, t: Thread, k: CallStep): (s': System)
    requires GetEnabled(At(s.callers, t), k)
    ensures s' == s.(callers := s.callers[t := At(s'.callers, t)], counters := s'.counters, log := s'.log)
    ensures !InStart(At(s'.callers, t)) && !InClose(At(s'.callers, t))
  {
    match At(s.callers, t)
    case Idle =>
      Goto(s, t, match k
                 case CallStart => EnteringStart
                 case CallClose => EnteringClose
                 case Ask(q) => Asking(q, |s.hist.published|, |s.log.calls|))
    case Asking(q, since, after) => Goto(s, t, Holding(q, since, after, |s.hist.published|, s.mem.snapshot))
    case Holding(q, since, after, load, held) =>
      var a := Resolve(c.lib, held, q);
      Goto(s, t, Answering(q, since, after, load, a))
      .(counters := CountAnswer(s.counters, a), log := s.log.(answers := s.log.answers + [a]))
    case Answering(q, since, after, load, a) =>
      var call := GetterCall(t, q, since, after, load, |s.hist.published|, a);
      Goto(s, t, Idle).(log := s.log.(calls := s.log.calls + [call]))
    case Started(_, _) => Goto(s, t, Idle)
    case CloseReturning => Goto(s, t, Idle)
  }

  function DoCall(c: Settings, s: System, t: Thread, k: CallStep): (s': System)
    requires CallEnabled(s, t, k)
    ensures !Starting(At(s.callers, t)) ==>
              && s' == s.(callers := s.callers[t := At(s'.callers, t)], ctl := s'.ctl,
                          counters := s'.counters, log := s'.log)
              && s'.ctl.startOnce == s.ctl.startOnce && !InStart(At(s'.callers, t))
  {
    var p := At(s.callers, t);
    if Starting(p) then DoStart(c, s, t, k)
    else if Awaiting(p) then DoAwait(s, t, k)
    else if Closing(p) then DoClose(s, t, k)
    else DoGet(c, s, t, k)
  }

  /** One step. A crash loses everything but the file system. */
  function Do(c: Settings, s: System, step: Step): System
    requires Enabled(s, step)
  {
    match step
    case Poll(p) => DoPoll(c, s, p)
    case Call(t, k) => DoCall(c, s, t, k)
    case ServerPublishes(raw) => s.(server := raw, current := s.current + [raw])
    case Crash => Boot(c, s.mem.disk, s.initialFile, s.renamed, s.server)
  }

  // ---------------------------------------------------------------- runs

  ghost predicate IsRun(c: Settings, s: System, run: seq<Step>)
    decreases |run|
  {
    run == [] || (Enabled(s, run[0]) && IsRun(c, Do(c, s, run[0]), run[1..]))
  }

  ghost function Exec(c: Settings, s: System, run: seq<Step>): System
    requires IsRun(c, s, run)
    decreases |run|
  {
    if run == [] then s else Exec(c, Do(c, s, run[0]), run[1..])
  }

  ghost predicate NoCrash(run: seq<Step>) {
    forall i | 0 <= i < |run| :: !run[i].Crash?
  }

  ghost predicate Reachable(c: Settings, s: System) {
    exists file: Option<string>, server: string, run: seq<Step> ::
      IsRun(c, Initial(c, file, server), run) && Exec(c, Initial(c, file, server), run) == s
  }

  lemma RunCons(c: Settings, s: System, step: Step, rest: seq<Step>)
    requires Enabled(s, step) && IsRun(c, Do(c, s, step), rest)
    ensures IsRun(c, s, [step] + rest) && Exec(c, s, [step] + rest) == Exec(c, Do(c, s, step), rest)
  {
    assert ([step] + rest)[1..] == rest;
  }

  lemma {:induction false} RunConcat(c: Settings, s: System, front: seq<Step>, back: seq<Step>)
    requires IsRun(c, s, front) && IsRun(c, Exec(c, s, front), back)
    ensures IsRun(c, s, front + back) && Exec(c, s, front + back) == Exec(c, Exec(c, s, front), back)
    decreases |front|
  {
    if front == [] {
      assert front + back == back;
    } else {
      RunConcat(c, Do(c, s, front[0]), front[1..], back);
      RunCons(c, s, front[0], front[1..] + back);
      assert [front[0]] + (front[1..] + back) == front + back;
    }
  }

  /** One more step at the end of a run. */
  lemma Extend(c: Settings, s0: System, run: seq<Step>, s: System, step: Step) returns (run': seq<Step>, s': System)
    requires IsRun(c, s0, run) && Exec(c, s0, run) == s && Enabled(s, step)
    ensures run' == run + [step] && s' == Do(c, s, step)
    ensures IsRun(c, s0, run') && Exec(c, s0, run') == s'
    ensures NoCrash(run) && !step.Crash? ==> NoCrash(run')
  {
    run', s' := run + [step], Do(c, s, step);
    RunCons(c, s, step, []);
    RunConcat(c, s0, run, [step] + []);
    assert [step] + [] == [step];
  }
}

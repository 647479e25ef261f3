/** What every step of the running client keeps. */
module Invariants {
  import opened Wrappers
  import opened Ruleset
  import opened Verifier
  import opened Recording
  import opened FileCache
  import opened Memory
  import opened Protocol

  /** The poller still owes the closing of `firstAttempt`. */
  predicate FirstOpen(p: Poller) {
    match p
    case NotLaunched => true
    case Top(first) => first
    case Fetching(first, _) => first
    case Fetched(first, _) => first
    case Recording(first, _) => first
    case Publishing(first, _, _) => first
    case Storing(first, _, _, _) => first
    case CheckingReady(first, _) => first
    case ClosingReady(first, _) => first
    case Recorded(first, _) => first
    case Quitting => true
    case _ => false
  }

  predicate Leaving(p: Poller) { p.Quitting? || p.Exiting? || p.Exited? }

  /** In `record`'s critical section, past the acceptance and before the ready channel is seen to. */
  predicate MidRecord(p: Poller) { p.Publishing? || p.Storing? || p.CheckingReady? || p.ClosingReady? }

  // ---------------------------------------------------------------- lifecycle

  /** Only the thread running a Once is inside it. */
  ghost predicate Owners(ctl: Control, callers: map<Thread, Caller>) {
    && (forall t :: InStart(At(callers, t)) ==> ctl.startOnce == Running(t))
    && (forall t :: InClose(At(callers, t)) ==> ctl.closeOnce == Running(t))
    && (ctl.startOnce.Running? ==> InStart(At(callers, ctl.startOnce.thread)))
    && (ctl.closeOnce.Running? ==> InClose(At(callers, ctl.closeOnce.thread)))
  }

  /** Where the thread running that Once stands. */
  function Runner(once: Once, callers: map<Thread, Caller>): Caller {
    if once.Running? then At(callers, once.thread) else Idle
  }

  /** How the launch, the one Close and the three channels relate. */
  ghost predicate Channels(ctl: Control, poller: Poller, starter: Caller, closer: Caller) {
    && (ctl.startOnce.Over? <==> !poller.NotLaunched?)
    && (ctl.startOnce.Over? ==> ctl.stop) && (ctl.stop ==> !ctl.startOnce.Fresh?)
    && (ctl.startOnce.Running? ==> (ctl.stop <==> starter.Launching?))
    && (Leaving(poller) ==> ctl.cancelled)
    && (ctl.cancelled ==> ctl.path.Stops?) && (ctl.path.Stops? ==> ctl.stop)
    && (ctl.path.Undecided? <==> ctl.closeOnce.Fresh? || closer.ReadingStop?)
    && (closer.Cancelling? ==> ctl.path.Stops? && !ctl.cancelled)
    && (closer.AwaitingDone? ==> ctl.cancelled)
    && (closer.ClosingDone? ==> ctl.path.Early?)
    && (ctl.closeOnce.Over? && ctl.path.Stops? ==> poller.Exited?)
    && ctl.done == (if poller.Exited? then 1 else 0) + (if ctl.path.Early? && ctl.closeOnce.Over? then 1 else 0)
    && ctl.firstAttempt == (if FirstOpen(poller) then 0 else 1)
  }

  ghost predicate Lifecycle(s: System) {
    && Owners(s.ctl, s.callers)
    && Channels(s.ctl, s.poller, Runner(s.ctl.startOnce, s.callers), Runner(s.ctl.closeOnce, s.callers))
  }

  lemma LifecycleFetch(s: System, p: PollStep)
    requires Lifecycle(s) && FetchEnabled(s.poller, p)
    ensures Lifecycle(DoFetch(s, p))
  {
  }

  lemma LifecycleRecord(c: Settings, s: System, p: PollStep)
    requires Lifecycle(s) && RecordEnabled(s.poller, s.mem.disk, p)
    ensures Lifecycle(DoRecord(c, s, p))
  {
  }

  lemma LifecycleRest(c: Settings, s: System, p: PollStep)
    requires Lifecycle(s) && RestEnabled(s.poller, s.ctl.cancelled, p)
    ensures Lifecycle(DoRest(c, s, p))
  {
  }

  /** A thread that stays inside, or outside, of both Onces. */
  lemma OwnersMove(ctl: Control, callers: map<Thread, Caller>, t: Thread, to: Caller)
    requires Owners(ctl, callers)
    requires InStart(to) == InStart(At(callers, t)) && InClose(to) == InClose(At(callers, t))
    ensures Owners(ctl, callers[t := to])
    ensures Runner(ctl.startOnce, callers[t := to]) == if InStart(to) then to else Runner(ctl.startOnce, callers)
    ensures Runner(ctl.closeOnce, callers[t := to]) == if InClose(to) then to else Runner(ctl.closeOnce, callers)
  {
  }

  lemma LifecycleStart(c: Settings, s: System, t: Thread, k: CallStep)
    requires Lifecycle(s) && StartEnabled(s, At(s.callers, t), k)
    ensures Lifecycle(DoStart(c, s, t, k))
  {
    var s' := DoStart(c, s, t, k);
    var p, to := At(s.callers, t), At(s'.callers, t);
    if InStart(to) == InStart(p) {
      OwnersMove(s.ctl, s.callers, t, to);
    } else {
      assert Owners(s'.ctl, s'.callers);
      assert Runner(s'.ctl.closeOnce, s'.callers) == Runner(s.ctl.closeOnce, s.callers);
    }
  }

  lemma LifecycleAwait(s: System, t: Thread, k: CallStep)
    requires Lifecycle(s) && AwaitEnabled(s, At(s.callers, t), k)
    ensures Lifecycle(DoAwait(s, t, k))
  {
    OwnersMove(s.ctl, s.callers, t, At(DoAwait(s, t, k).callers, t));
  }

  lemma LifecycleClose(s: System, t: Thread, k: CallStep)
    requires Lifecycle(s) && CloseEnabled(s, At(s.callers, t), k)
    ensures Lifecycle(DoClose(s, t, k))
  {
    var s' := DoClose(s, t, k);
    if InClose(At(s'.callers, t)) == InClose(At(s.callers, t)) {
      OwnersMove(s.ctl, s.callers, t, At(s'.callers, t));
    } else {
      assert Owners(s'.ctl, s'.callers);
      assert Runner(s'.ctl.startOnce, s'.callers) == Runner(s.ctl.startOnce, s.callers);
    }
  }

  lemma LifecycleGet(c: Settings, s: System, t: Thread, k: CallStep)
    requires Lifecycle(s) && GetEnabled(At(s.callers, t), k)
    ensures Lifecycle(DoGet(c, s, t, k))
  {
    var to := At(DoGet(c, s, t, k).callers, t);
    OwnersMove(s.ctl, s.callers, t, to);
  }

  // ---------------------------------------------------------------- what is held

  /** The acceptances visible to getters: all but one whose snapshot is about to be stored. */
  function Shown(hist: History, poller: Poller): seq<Acceptance> {
    var n := |hist.accepted|;
    if poller.Publishing? && n > 0 then hist.accepted[..n - 1] else hist.accepted
  }

  function Latest(accepted: seq<Acceptance>): Option<Acceptance> {
    if accepted == [] then None else Some(accepted[|accepted| - 1])
  }

  /** The snapshot is the last shown acceptance's, or the cache's while there is none; the ETag is
      the last acceptance's; the ready channel is closed once an acceptance is through `record`. */
  ghost predicate Held(c: Settings, mem: Memory, hist: History, poller: Poller) {
    var n := |hist.accepted|;
    && (poller.Publishing? || poller.Storing? ==> Latest(hist.accepted) == Some(poller.accepted))
    && (MidRecord(poller) ==> n > 0)
    && (poller.ClosingReady? ==> mem.networkReady == 0)
    && (poller.Storing? ==> c.hasCache)
    && (poller.NotLaunched? ==> hist.entries == [])
    && mem.networkReady == (if n > (if MidRecord(poller) then 1 else 0) then 1 else 0)
    && mem.state.etag == (match Latest(hist.accepted) case Some(a) => a.etag case None => "")
    && mem.snapshot == (match Latest(Shown(hist, poller))
                        case Some(a) => Some(SnapshotOf(c.lib, a.payload, false))
                        case None => hist.loaded)
  }

  /** The acceptances of a history, in order. */
  function Acceptances(c: Settings, entries: seq<Entry>): seq<Acceptance> {
    if entries == [] then []
    else
      var last := entries[|entries| - 1];
      var rest := Acceptances(c, entries[..|entries| - 1]);
      if IsAccepted(c, last)
      then rest + [Acceptance(Judge(c, last).raw, last.outcome.etag, Judge(c, last).payload, last.judgedAt)]
      else rest
  }

  ghost predicate AcceptedLive(c: Settings, a: Acceptance) {
    VerifyEnvelope(c.lib, a.raw, c.policy, LiveExpectations(c, a.at)) == Accepted(a.raw, a.payload)
  }

  /** The state record is the replay of the outcomes, the cache state aside. */
  ghost predicate Replayed(c: Settings, state: ClientState, hist: History) {
    && state.(cacheState := FreshState(c).cacheState) == Replay(c, hist.entries)
    && hist.accepted == Acceptances(c, hist.entries)
    && forall i | 0 <= i < |hist.accepted| :: AcceptedLive(c, hist.accepted[i])
  }

  /** An envelope of this payload passes verification at some time, live or as a cache load. */
  ghost predicate Verified(c: Settings, payload: RulesetPayload, live: bool) {
    exists raw, now ::
      VerifyEnvelope(c.lib, raw, c.policy, Expectations(c.environment, now, live)) == Accepted(raw, payload)
  }

  /** The snapshot is a verified payload's. */
  ghost predicate WellFormed(c: Settings, snapshot: Snapshot) {
    exists payload ::
      Verified(c, payload, !snapshot.fromCache) && snapshot == SnapshotOf(c.lib, payload, snapshot.fromCache)
  }

  /** Hence it has only known kinds, and its issue time is what its payload's own text parses to. */
  lemma WellFormedMeans(c: Settings, snapshot: Snapshot) returns (payload: RulesetPayload)
    requires WellFormed(c, snapshot)
    ensures snapshot == SnapshotOf(c.lib, payload, snapshot.fromCache) && payload.environment == c.environment
    ensures KnownKinds(snapshot.flags) && c.lib.parseRfc3339(payload.issuedAt) == Some(snapshot.issuedAt)
  {
    payload :| Verified(c, payload, !snapshot.fromCache) && snapshot == SnapshotOf(c.lib, payload, snapshot.fromCache);
    var raw, now :|
      VerifyEnvelope(c.lib, raw, c.policy, Expectations(c.environment, now, !snapshot.fromCache))
      == Accepted(raw, payload);
    var wanted := Expectations(c.environment, now, !snapshot.fromCache);
    VerdictCharacterised(c.lib, raw, c.policy, wanted);
    assert Passes(c.lib, raw, c.policy, wanted, SameEnvironment);
  }

  /** The k-th ruleset published by this process; none for k = 0. */
  function Nth(published: seq<Snapshot>, k: nat): Option<Snapshot>
    requires k <= |published|
  {
    if k == 0 then None else Some(published[k - 1])
  }

  ghost predicate Published(c: Settings, snapshot: Option<Snapshot>, published: seq<Snapshot>) {
    && snapshot == Nth(published, |published|)
    && forall i | 0 <= i < |published| :: WellFormed(c, published[i])
  }

  /** The one cache load happens before the launch and yields a well-formed cache snapshot. */
  ghost predicate Loading(c: Settings, hist: History, startOnce: Once, starter: Caller) {
    && (hist.loaded.Some? ==> hist.loaded.value.fromCache && c.hasCache)
    && (startOnce.Fresh? || starter.LoadingFile? || starter.VerifyingFile? || starter.PublishingFile? ==>
          hist.loaded.None?)
    && (starter.VerifyingFile? || starter.PublishingFile? ==> c.hasCache)
    && (starter.PublishingFile? ==> starter.loading.fromCache && WellFormed(c, starter.loading))
  }

  ghost predicate Data(c: Settings, s: System) {
    && Held(c, s.mem, s.hist, s.poller)
    && Replayed(c, s.mem.state, s.hist)
    && Published(c, s.mem.snapshot, s.hist.published)
    && Loading(c, s.hist, s.ctl.startOnce, Runner(s.ctl.startOnce, s.callers))
  }

  lemma LiveIsWellFormed(c: Settings, a: Acceptance)
    requires AcceptedLive(c, a)
    ensures WellFormed(c, SnapshotOf(c.lib, a.payload, false))
  {
    assert Verified(c, a.payload, true);
  }

  lemma CachedIsWellFormed(c: Settings, raw: string, now: Instant)
    requires VerifyEnvelope(c.lib, raw, c.policy, CacheExpectations(c, now)).Accepted?
    ensures var payload := VerifyEnvelope(c.lib, raw, c.policy, CacheExpectations(c, now)).payload;
            WellFormed(c, SnapshotOf(c.lib, payload, true))
  {
    assert Verified(c, VerifyEnvelope(c.lib, raw, c.policy, CacheExpectations(c, now)).payload, false);
  }

  /** Away from `record` the poller moves without touching the data. */
  lemma DataQuiet(c: Settings, s: System, s': System)
    requires Data(c, s) && s'.mem == s.mem && s'.hist == s.hist && s'.callers == s.callers
    requires s'.ctl.startOnce == s.ctl.startOnce
    requires !MidRecord(s.poller) && !MidRecord(s'.poller) && !s'.poller.NotLaunched?
    ensures Data(c, s')
  {
  }

  lemma DataFetch(c: Settings, s: System, p: PollStep)
    requires Data(c, s) && FetchEnabled(s.poller, p)
    ensures Data(c, DoFetch(s, p))
  {
    DataQuiet(c, s, DoFetch(s, p));
  }

  lemma DataRest(c: Settings, s: System, p: PollStep)
    requires Data(c, s) && RestEnabled(s.poller, s.ctl.cancelled, p)
    ensures Data(c, DoRest(c, s, p))
  {
    DataQuiet(c, s, DoRest(c, s, p));
  }

  lemma HeldBeginRecord(c: Settings, s: System, entry: Entry)
    requires Held(c, s.mem, s.hist, s.poller) && s.poller.Recording? && entry.outcome == s.poller.outcome
    ensures var s' := DoBeginRecord(c, s, entry); Held(c, s'.mem, s'.hist, s'.poller)
  {
    var s' := DoBeginRecord(c, s, entry);
    if IsAccepted(c, entry) {
      assert Shown(s'.hist, s'.poller) == s.hist.accepted;
    }
  }

  /** Recording commutes with forgetting the cache state. */
  lemma ReplaySnoc(c: Settings, state: ClientState, entries: seq<Entry>, entry: Entry)
    requires state.(cacheState := FreshState(c).cacheState) == Replay(c, entries)
    ensures RecordState(c, state, entry).(cacheState := FreshState(c).cacheState) == Replay(c, entries + [entry])
  {
    assert (entries + [entry])[..|entries|] == entries;
  }

  lemma AcceptancesSnoc(c: Settings, entries: seq<Entry>, entry: Entry)
    ensures Acceptances(c, entries + [entry])
         == Acceptances(c, entries)
            + if IsAccepted(c, entry)
              then [Acceptance(Judge(c, entry).raw, entry.outcome.etag, Judge(c, entry).payload, entry.judgedAt)]
              else []
  {
    assert (entries + [entry])[..|entries|] == entries;
  }

  lemma ReplayedBeginRecord(c: Settings, s: System, entry: Entry)
    requires Replayed(c, s.mem.state, s.hist) && s.poller.Recording? && entry.outcome == s.poller.outcome
    ensures var s' := DoBeginRecord(c, s, entry); Replayed(c, s'.mem.state, s'.hist)
  {
    ReplaySnoc(c, s.mem.state, s.hist.entries, entry);
    AcceptancesSnoc(c, s.hist.entries, entry);
  }

  lemma DataBeginRecord(c: Settings, s: System, entry: Entry)
    requires Data(c, s) && s.poller.Recording? && entry.outcome == s.poller.outcome
    ensures Data(c, DoBeginRecord(c, s, entry))
  {
    HeldBeginRecord(c, s, entry);
    ReplayedBeginRecord(c, s, entry);
  }

  lemma DataRecord(c: Settings, s: System, p: PollStep)
    requires Data(c, s) && RecordEnabled(s.poller, s.mem.disk, p)
    ensures Data(c, DoRecord(c, s, p))
  {
    if s.poller.Recording? {
      DataBeginRecord(c, s, Entry(s.poller.outcome, p.fetchedAt, p.judgedAt));
    } else if s.poller.Publishing? {
      LiveIsWellFormed(c, s.poller.accepted);
    }
  }

  lemma DataStart(c: Settings, s: System, t: Thread, k: CallStep)
    requires Lifecycle(s) && Data(c, s) && StartEnabled(s, At(s.callers, t), k)
    ensures Data(c, DoStart(c, s, t, k))
  {
    var p := At(s.callers, t);
    assert InStart(p) ==> Runner(s.ctl.startOnce, s.callers) == p;
    if p.VerifyingFile? && At(DoStart(c, s, t, k).callers, t).PublishingFile? {
      CachedIsWellFormed(c, p.raw, k.now);
    }
  }

  lemma DataFrame(c: Settings, s: System, s': System)
    requires Data(c, s) && s'.mem == s.mem && s'.hist == s.hist && s'.poller == s.poller
    requires s'.ctl.startOnce == s.ctl.startOnce
    requires Runner(s.ctl.startOnce, s'.callers) == Runner(s.ctl.startOnce, s.callers)
    ensures Data(c, s')
  {
  }

  lemma DataAwait(c: Settings, s: System, t: Thread, k: CallStep)
    requires Lifecycle(s) && Data(c, s) && AwaitEnabled(s, At(s.callers, t), k)
    ensures Data(c, DoAwait(s, t, k))
  {
    DataFrame(c, s, DoAwait(s, t, k));
  }

  lemma DataClose(c: Settings, s: System, t: Thread, k: CallStep)
    requires Lifecycle(s) && Data(c, s) && CloseEnabled(s, At(s.callers, t), k)
    ensures Data(c, DoClose(s, t, k))
  {
    DataFrame(c, s, DoClose(s, t, k));
  }

  lemma DataGet(c: Settings, s: System, t: Thread, k: CallStep)
    requires Lifecycle(s) && Data(c, s) && GetEnabled(At(s.callers, t), k)
    ensures Data(c, DoGet(c, s, t, k))
  {
    DataFrame(c, s, DoGet(c, s, t, k));
  }

  // ---------------------------------------------------------------- every step

  ghost predicate Core(c: Settings, s: System) { Lifecycle(s) && Data(c, s) }

  lemma CorePoll(c: Settings, s: System, p: PollStep)
    requires Core(c, s) && PollEnabled(s, p)
    ensures Core(c, DoPoll(c, s, p))
  {
    if InFetch(s.poller) {
      LifecycleFetch(s, p);
      DataFetch(c, s, p);
    } else if InRecord(s.poller) {
      LifecycleRecord(c, s, p);
      DataRecord(c, s, p);
    } else {
      LifecycleRest(c, s, p);
      DataRest(c, s, p);
    }
  }

  lemma CoreCall(c: Settings, s: System, t: Thread, k: CallStep)
    requires Core(c, s) && CallEnabled(s, t, k)
    ensures Core(c, DoCall(c, s, t, k))
  {
    var p := At(s.callers, t);
    if Starting(p) {
      LifecycleStart(c, s, t, k);
      DataStart(c, s, t, k);
    } else if Awaiting(p) {
      LifecycleAwait(s, t, k);
      DataAwait(c, s, t, k);
    } else if Closing(p) {
      LifecycleClose(s, t, k);
      DataClose(c, s, t, k);
    } else {
      LifecycleGet(c, s, t, k);
      DataGet(c, s, t, k);
    }
  }

  lemma CoreBoot(c: Settings, disk: Disk, file: Option<string>, renamed: seq<Acceptance>, server: string)
    ensures Core(c, Boot(c, disk, file, renamed, server))
  {
  }

  lemma CoreStep(c: Settings, s: System, step: Step)
    requires Core(c, s) && Enabled(s, step)
    ensures Core(c, Do(c, s, step))
  {
    match step
    case Poll(p) => CorePoll(c, s, p);
    case Call(t, k) => CoreCall(c, s, t, k);
    case ServerPublishes(_) =>
    case Crash => CoreBoot(c, s.mem.disk, s.initialFile, s.renamed, s.server);
  }

  lemma {:induction false} CoreRun(c: Settings, s: System, run: seq<Step>)
    requires Core(c, s) && IsRun(c, s, run)
    ensures Core(c, Exec(c, s, run))
    decreases |run|
  {
    if run != [] {
      CoreStep(c, s, run[0]);
      CoreRun(c, Do(c, s, run[0]), run[1..]);
    }
  }

  /** While the poller runs, no other thread touches what `record` works on. */
  lemma OthersStayOut(c: Settings, s: System, step: Step)
    requires Core(c, s) && !s.poller.NotLaunched? && Enabled(s, step) && !step.Poll? && !step.Crash?
    ensures var s' := Do(c, s, step); s'.mem == s.mem && s'.poller == s.poller && s'.hist == s.hist
  {
    if step.Call? {
      assert !InStart(At(s.callers, step.thread));
    }
  }

  /** Every state any interleaving can reach, across crashes and restarts. */
  lemma ReachableCore(c: Settings, s: System)
    requires Reachable(c, s)
    ensures Core(c, s)
  {
    var file: Option<string>, server: string, run: seq<Step> :|
      IsRun(c, Initial(c, file, server), run) && Exec(c, Initial(c, file, server), run) == s;
    CoreBoot(c, Disk(file, map[], 0), file, [], server);
    CoreRun(c, Initial(c, file, server), run);
  }
}

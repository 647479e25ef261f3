/** What Start's answer means, and when it says less than the client holds. */
module StartOutcomes {
  import opened Wrappers
  import opened Ruleset
  import opened Verifier
  import opened Recording
  import opened FileCache
  import opened Memory
  import opened Protocol
  import opened Invariants
  import opened Shutdown

  predicate HoldsNetwork(snapshot: Option<Snapshot>) { snapshot.Some? && !snapshot.value.fromCache }

  /** A live ruleset is stored, but `record` has yet to close the ready channel for the first time. */
  predicate PublicationInProgress(s: System) {
    (s.poller.Storing? || s.poller.CheckingReady? || s.poller.ClosingReady?) && |s.hist.accepted| == 1
  }

  /** Outside `record`'s critical section the ready channel is closed exactly when the snapshot is a
      network one; inside, the one exception is a first publication in progress. */
  lemma ReadyIffNetwork(c: Settings, s: System)
    requires Reachable(c, s)
    ensures s.mem.networkReady > 0 ==> HoldsNetwork(s.mem.snapshot)
    ensures HoldsNetwork(s.mem.snapshot) && s.mem.networkReady == 0 <==> PublicationInProgress(s)
    ensures !InRecord(s.poller) ==> (s.mem.networkReady > 0 <==> HoldsNetwork(s.mem.snapshot))
  {
    ReachableCore(c, s);
    ReadyAndHeld(c, s);
  }

  lemma ReadyAndHeld(c: Settings, s: System)
    requires Core(c, s)
    ensures s.mem.networkReady > 0 ==> HoldsNetwork(s.mem.snapshot)
    ensures HoldsNetwork(s.mem.snapshot) && s.mem.networkReady == 0 <==> PublicationInProgress(s)
    ensures !InRecord(s.poller) ==> (s.mem.networkReady > 0 <==> HoldsNetwork(s.mem.snapshot))
  {
  }

  /** What a thread on its way out of Start, or just out of it, has seen still holds. */
  ghost predicate SeenBy(p: Caller, s: System) {
    && (Awaiting(p) ==> s.ctl.startOnce.Over?)
    && (p.LookingAgain? ==> s.ctl.firstAttempt > 0)
    && (p.LoadingFinal? && !p.prompted ==> s.ctl.firstAttempt > 0)
    && (p.LookingFinal? ==> SeenFinally(p, s))
    && (p.Started? ==> SeenAtStart(p, s))
  }

  ghost predicate SeenFinally(p: Caller, s: System)
    requires p.LookingFinal?
  {
    && (!p.prompted ==> s.ctl.firstAttempt > 0)
    && (if p.found.Some? then HoldsNetwork(p.found) && HoldsNetwork(s.mem.snapshot) else s.hist.loaded.None?)
  }

  ghost predicate SeenAtStart(p: Caller, s: System)
    requires p.Started?
  {
    && s.ctl.startOnce.Over?
    && (p.outcome.StartReady? ==> s.mem.networkReady > 0)
    && (p.outcome.StartCacheOnly? ==> s.hist.loaded.Some?)
    && (!p.prompted && !p.outcome.StartReady? ==> s.ctl.firstAttempt > 0)
  }

  ghost predicate Seen(s: System) {
    forall t :: SeenBy(At(s.callers, t), s)
  }

  /** What only grows, as long as the process lives. */
  ghost predicate Later(s: System, s': System) {
    && s'.ctl.firstAttempt >= s.ctl.firstAttempt && s'.mem.networkReady >= s.mem.networkReady
    && (HoldsNetwork(s.mem.snapshot) ==> HoldsNetwork(s'.mem.snapshot))
    && (s.ctl.startOnce.Over? ==> s'.ctl.startOnce.Over? && s'.hist.loaded == s.hist.loaded)
  }

  lemma LaterRecord(c: Settings, s: System, p: PollStep)
    requires Core(c, s) && RecordEnabled(s.poller, s.mem.disk, p)
    ensures Later(s, DoRecord(c, s, p))
  {
  }

  lemma LaterPoll(c: Settings, s: System, p: PollStep)
    requires Core(c, s) && PollEnabled(s, p)
    ensures Later(s, DoPoll(c, s, p)) && DoPoll(c, s, p).callers == s.callers
  {
    if InFetch(s.poller) {
      assert Later(s, DoFetch(s, p));
    } else if InRecord(s.poller) {
      LaterRecord(c, s, p);
    } else {
      assert Later(s, DoRest(c, s, p));
    }
  }

  lemma LaterStart(c: Settings, s: System, t: Thread, k: CallStep)
    requires Core(c, s) && StartEnabled(s, At(s.callers, t), k)
    ensures Later(s, DoStart(c, s, t, k))
  {
    assert InStart(At(s.callers, t)) ==> s.ctl.startOnce == Running(t);
  }

  lemma LaterClose(s: System, t: Thread, k: CallStep)
    requires CloseEnabled(s, At(s.callers, t), k)
    ensures Later(s, DoClose(s, t, k))
  {
  }

  lemma LaterCall(c: Settings, s: System, t: Thread, k: CallStep)
    requires Core(c, s) && CallEnabled(s, t, k)
    ensures Later(s, DoCall(c, s, t, k))
  {
    if Starting(At(s.callers, t)) {
      LaterStart(c, s, t, k);
    } else if Awaiting(At(s.callers, t)) {
      assert Later(s, DoAwait(s, t, k));
    } else if Closing(At(s.callers, t)) {
      LaterClose(s, t, k);
    } else {
      assert Later(s, DoGet(c, s, t, k));
    }
  }

  lemma LaterStep(c: Settings, s: System, step: Step)
    requires Core(c, s) && Enabled(s, step) && !step.Crash?
    ensures Later(s, Do(c, s, step))
  {
    match step
    case Poll(p) => LaterPoll(c, s, p);
    case Call(t, k) => LaterCall(c, s, t, k);
    case _ =>
  }

  lemma SeenStays(s: System, s': System)
    requires Seen(s) && Later(s, s') && s'.callers == s.callers
    ensures Seen(s')
  {
    forall u ensures SeenBy(At(s'.callers, u), s') {
      assert SeenBy(At(s.callers, u), s);
    }
  }

  lemma SeenMove(s: System, s': System, t: Thread, to: Caller)
    requires Seen(s) && Later(s, s') && s'.callers == s.callers[t := to] && SeenBy(to, s')
    ensures Seen(s')
  {
    forall u ensures SeenBy(At(s'.callers, u), s') {
      assert SeenBy(At(s.callers, u), s);
    }
  }

  lemma SeenAwait(c: Settings, s: System, t: Thread, k: CallStep)
    requires Core(c, s) && Seen(s) && AwaitEnabled(s, At(s.callers, t), k)
    ensures SeenBy(At(DoAwait(s, t, k).callers, t), DoAwait(s, t, k))
  {
    assert SeenBy(At(s.callers, t), s);
  }

  lemma SeenStart(c: Settings, s: System, t: Thread, k: CallStep)
    requires StartEnabled(s, At(s.callers, t), k)
    ensures SeenBy(At(DoStart(c, s, t, k).callers, t), DoStart(c, s, t, k))
  {
    var to := At(DoStart(c, s, t, k).callers, t);
    assert !Awaiting(to) || to.Waiting?;
  }

  lemma SeenClose(s: System, t: Thread, k: CallStep)
    requires CloseEnabled(s, At(s.callers, t), k)
    ensures SeenBy(At(DoClose(s, t, k).callers, t), DoClose(s, t, k))
  {
  }

  lemma SeenGet(c: Settings, s: System, t: Thread, k: CallStep)
    requires GetEnabled(At(s.callers, t), k)
    ensures SeenBy(At(DoGet(c, s, t, k).callers, t), DoGet(c, s, t, k))
  {
  }

  lemma SeenCall(c: Settings, s: System, t: Thread, k: CallStep)
    requires Core(c, s) && Seen(s) && CallEnabled(s, t, k)
    ensures Seen(DoCall(c, s, t, k))
  {
    if Starting(At(s.callers, t)) {
      SeenStart(c, s, t, k);
    } else if Awaiting(At(s.callers, t)) {
      SeenAwait(c, s, t, k);
    } else if Closing(At(s.callers, t)) {
      SeenClose(s, t, k);
    } else {
      SeenGet(c, s, t, k);
    }
    LaterCall(c, s, t, k);
    SeenMove(s, DoCall(c, s, t, k), t, At(DoCall(c, s, t, k).callers, t));
  }

  lemma SeenStep(c: Settings, s: System, step: Step)
    requires Core(c, s) && Seen(s) && Enabled(s, step)
    ensures Seen(Do(c, s, step))
  {
    match step
    case Poll(p) =>
      LaterPoll(c, s, p);
      SeenStays(s, DoPoll(c, s, p));
    case Call(t, k) => SeenCall(c, s, t, k);
    case ServerPublishes(raw) => SeenStays(s, Do(c, s, step));
    case Crash =>
  }

  lemma {:induction false} SeenRun(c: Settings, s: System, run: seq<Step>)
    requires Core(c, s) && Seen(s) && IsRun(c, s, run)
    ensures Seen(Exec(c, s, run))
    decreases |run|
  {
    if run != [] {
      CoreStep(c, s, run[0]);
      SeenStep(c, s, run[0]);
      SeenRun(c, Do(c, s, run[0]), run[1..]);
    }
  }

  lemma ReachableSeen(c: Settings, s: System)
    requires Reachable(c, s)
    ensures Core(c, s) && Seen(s)
  {
    var file: Option<string>, server: string, run: seq<Step> :|
      IsRun(c, Initial(c, file, server), run) && Exec(c, Initial(c, file, server), run) == s;
    CoreBoot(c, Disk(file, map[], 0), file, [], server);
    SeenRun(c, Initial(c, file, server), run);
    CoreRun(c, Initial(c, file, server), run);
  }

  /** Start outcome soundness, at the step that decides. Ready: a network ruleset is held. CacheOnly:
      a cache ruleset was held at the load. TimedOut: the ready channel was open at the final look,
      and the ruleset loaded just before was none, or a network one whose publication was still in
      progress. Unless its context prompted it, Start answers only after the first fetch attempt or
      the first publication, and anything but Ready only after the first attempt, cache or no cache. */
  lemma StartOutcomeSoundness(c: Settings, s: System, t: Thread, k: CallStep)
    requires Reachable(c, s) && AwaitEnabled(s, At(s.callers, t), k)
    requires At(DoAwait(s, t, k).callers, t).Started?
    ensures Sound(s, At(s.callers, t), k, Answered(s, t, k).0, Answered(s, t, k).1)
  {
    ReachableSeen(c, s);
    ReadyAndHeld(c, s);
    assert SeenBy(At(s.callers, t), s);
  }

  /** What an answer given at step k by a thread standing at p says about the state. */
  ghost predicate Sound(s: System, p: Caller, k: CallStep, prompted: bool, outcome: StartOutcome) {
    && (outcome.StartReady? <==> s.mem.networkReady > 0 && !k.LoadFinal?)
    && (outcome.StartReady? ==> HoldsNetwork(s.mem.snapshot))
    && (outcome.StartCacheOnly? ==> k.LoadFinal? && s.mem.snapshot.Some? && s.mem.snapshot.value.fromCache)
    && (outcome.StartTimedOut? ==>
          && p.LookingFinal? && s.mem.networkReady == 0
          && (p.found.None? || (HoldsNetwork(p.found) && PublicationInProgress(s))))
    && (!prompted ==> s.ctl.firstAttempt > 0 || s.mem.networkReady > 0)
    && (!prompted && !outcome.StartReady? ==> s.ctl.firstAttempt > 0)
  }

  /** And what it says for as long as the caller looks at it. */
  lemma StartReturned(c: Settings, s: System, t: Thread)
    requires Reachable(c, s) && At(s.callers, t).Started?
    ensures var p := At(s.callers, t);
            && (p.outcome.StartReady? ==> s.mem.networkReady > 0 && HoldsNetwork(s.mem.snapshot))
            && (p.outcome.StartCacheOnly? ==>
                  s.hist.loaded.Some? && s.hist.loaded.value.fromCache && s.mem.snapshot.Some?)
            && (p.prompted || s.ctl.firstAttempt > 0 || s.mem.networkReady > 0)
            && (p.prompted || p.outcome.StartReady? || s.ctl.firstAttempt > 0)
  {
    ReachableSeen(c, s);
    ReadyAndHeld(c, s);
    assert SeenBy(At(s.callers, t), s);
  }

  /** What a deciding step answers, and whether the context prompted it. */
  function Answered(s: System, t: Thread, k: CallStep): (bool, StartOutcome)
    requires AwaitEnabled(s, At(s.callers, t), k) && At(DoAwait(s, t, k).callers, t).Started?
  {
    var p := At(DoAwait(s, t, k).callers, t);
    (p.prompted, p.outcome)
  }

  lemma {:induction false} NetworkRun(c: Settings, s: System, run: seq<Step>)
    requires Core(c, s) && HoldsNetwork(s.mem.snapshot) && IsRun(c, s, run) && NoCrash(run)
    ensures HoldsNetwork(Exec(c, s, run).mem.snapshot)
    decreases |run|
  {
    if run != [] {
      NoCrashTail(run);
      CoreStep(c, s, run[0]);
      LaterStep(c, s, run[0]);
      NetworkRun(c, Do(c, s, run[0]), run[1..]);
    }
  }

  /** After Ready a network ruleset is held from then on, to the end of the process. */
  lemma ReadyForever(c: Settings, s: System, run: seq<Step>)
    requires Reachable(c, s) && s.mem.networkReady > 0 && IsRun(c, s, run) && NoCrash(run)
    ensures HoldsNetwork(Exec(c, s, run).mem.snapshot)
  {
    ReachableCore(c, s);
    ReadyAndHeld(c, s);
    NetworkRun(c, s, run);
  }

  // ------------------------------------------------- how long Start blocks

  /** Nothing but its own context can move this thread out of Start. */
  ghost predicate Blocked(s: System, t: Thread) {
    At(s.callers, t).Waiting? && forall k: CallStep | CallEnabled(s, t, k) :: k.SelectContext?
  }

  /** Start is said to block until the first ruleset exists, from network or cache. It blocks exactly
      until the first attempt is over or a live ruleset is through `record`; a cache ruleset, or a
      live one still being published, does not release it. */
  lemma BlockedExactly(c: Settings, s: System, t: Thread)
    requires Reachable(c, s) && At(s.callers, t).Waiting?
    ensures Blocked(s, t) <==> s.ctl.firstAttempt == 0 && s.mem.networkReady == 0
    ensures Blocked(s, t) <==> FirstOpen(s.poller) && |s.hist.accepted| <= if MidRecord(s.poller) then 1 else 0
  {
    ReachableCore(c, s);
    if s.ctl.firstAttempt > 0 {
      assert CallEnabled(s, t, SelectFirst);
    }
    if s.mem.networkReady > 0 {
      assert CallEnabled(s, t, SelectReady);
    }
  }

  // ------------------------------------------------- what the first attempt leaves behind

  /** `first` tells whether this turn's outcome is the first to be recorded. */
  ghost predicate Attempts(c: Settings, poller: Poller, entries: seq<Entry>) {
    var n := |entries|;
    && (InFetch(poller) || poller.Recording? ==> (poller.first <==> n == 0))
    && (MidRecord(poller) || poller.Recorded? ==> n > 0 && (poller.first <==> n == 1))
    && (poller.Choosing? || poller.Sleeping? ==> n > 0)
    && (MidRecord(poller) ==> IsAccepted(c, entries[n - 1]))
  }

  lemma AttemptsRecord(c: Settings, s: System, p: PollStep)
    requires Attempts(c, s.poller, s.hist.entries) && RecordEnabled(s.poller, s.mem.disk, p)
    ensures var s' := DoRecord(c, s, p); Attempts(c, s'.poller, s'.hist.entries)
  {
  }

  lemma AttemptsPoll(c: Settings, s: System, p: PollStep)
    requires Attempts(c, s.poller, s.hist.entries) && PollEnabled(s, p)
    ensures var s' := DoPoll(c, s, p); Attempts(c, s'.poller, s'.hist.entries)
  {
    if InFetch(s.poller) {
      assert Attempts(c, DoFetch(s, p).poller, s.hist.entries);
    } else if InRecord(s.poller) {
      AttemptsRecord(c, s, p);
    } else {
      assert Attempts(c, DoRest(c, s, p).poller, s.hist.entries);
    }
  }

  lemma AttemptsStart(c: Settings, s: System, t: Thread, k: CallStep)
    requires Core(c, s) && Attempts(c, s.poller, s.hist.entries) && StartEnabled(s, At(s.callers, t), k)
    ensures var s' := DoStart(c, s, t, k); Attempts(c, s'.poller, s'.hist.entries)
  {
    assert InStart(At(s.callers, t)) ==> s.ctl.startOnce == Running(t);
  }

  lemma AttemptsStep(c: Settings, s: System, step: Step)
    requires Core(c, s) && Attempts(c, s.poller, s.hist.entries) && Enabled(s, step)
    ensures var s' := Do(c, s, step); Attempts(c, s'.poller, s'.hist.entries)
  {
    match step
    case Poll(p) => AttemptsPoll(c, s, p);
    case Call(t, k) =>
      if Starting(At(s.callers, t)) {
        AttemptsStart(c, s, t, k);
      } else {
        AttemptsElsewhere(c, s, t, k);
      }
    case _ =>
  }

  lemma AttemptsElsewhere(c: Settings, s: System, t: Thread, k: CallStep)
    requires Attempts(c, s.poller, s.hist.entries) && CallEnabled(s, t, k) && !Starting(At(s.callers, t))
    ensures var s' := DoCall(c, s, t, k); Attempts(c, s'.poller, s'.hist.entries)
  {
    assert DoCall(c, s, t, k).poller == s.poller && DoCall(c, s, t, k).hist == s.hist;
  }

  lemma {:induction false} AttemptsRun(c: Settings, s: System, run: seq<Step>)
    requires Core(c, s) && Attempts(c, s.poller, s.hist.entries) && IsRun(c, s, run)
    ensures var s' := Exec(c, s, run); Attempts(c, s'.poller, s'.hist.entries)
    decreases |run|
  {
    if run != [] {
      CoreStep(c, s, run[0]);
      AttemptsStep(c, s, run[0]);
      AttemptsRun(c, Do(c, s, run[0]), run[1..]);
    }
  }

  lemma ReachableAttempts(c: Settings, s: System)
    requires Reachable(c, s)
    ensures Attempts(c, s.poller, s.hist.entries)
  {
    var file: Option<string>, server: string, run: seq<Step> :|
      IsRun(c, Initial(c, file, server), run) && Exec(c, Initial(c, file, server), run) == s;
    CoreBoot(c, Disk(file, map[], 0), file, [], server);
    AttemptsRun(c, Initial(c, file, server), run);
  }

  lemma {:induction false} FirstIsAmongAccepted(c: Settings, entries: seq<Entry>)
    requires entries != [] && IsAccepted(c, entries[0])
    ensures Acceptances(c, entries) != []
  {
    if |entries| > 1 {
      FirstIsAmongAccepted(c, entries[..|entries| - 1]);
    }
  }

  /** With the first attempt over and the ready channel open, that attempt brought no acceptance. */
  lemma FirstAttemptFailed(c: Settings, s: System)
    requires Core(c, s) && Attempts(c, s.poller, s.hist.entries)
    requires s.ctl.firstAttempt > 0 && s.mem.networkReady == 0 && s.hist.entries != []
    ensures !IsAccepted(c, s.hist.entries[0])
  {
    var entries := s.hist.entries;
    if IsAccepted(c, entries[0]) {
      FirstIsAmongAccepted(c, entries);
      assert MidRecord(s.poller) && |entries| > 1;
      FirstIsAmongAccepted(c, entries[..|entries| - 1]);
    }
  }

  // ------------------------------------------------- when TimedOut says less than is so

  /** TimedOut is said to mean that the context ended before any ruleset existed. At the deciding step,
      in any interleaving, a live ruleset is held all the same exactly while its first publication
      is in progress; otherwise none is held. */
  lemma BelatedExactlyWhenPublishing(c: Settings, s: System, t: Thread)
    requires Reachable(c, s) && At(s.callers, t).LookingFinal?
    ensures var timedOut := Answered(s, t, LookFinal).1.StartTimedOut?;
            && (timedOut && HoldsNetwork(s.mem.snapshot) <==> PublicationInProgress(s))
            && (timedOut ==> (s.mem.snapshot.None? <==> !PublicationInProgress(s)))
  {
    ReachableSeen(c, s);
    ReadyAndHeld(c, s);
    assert SeenBy(At(s.callers, t), s);
  }

  /** Nor need the context have ended: a Start that it did not prompt answers TimedOut exactly when no
      acceptance is through `record` by its final look, and then the first attempt has failed. */
  lemma TimedOutUnprompted(c: Settings, s: System, t: Thread)
    requires Reachable(c, s) && At(s.callers, t).LookingFinal? && !At(s.callers, t).prompted
    ensures Answered(s, t, LookFinal) == (false, StartTimedOut)
       <==> |s.hist.accepted| <= if MidRecord(s.poller) then 1 else 0
    ensures Answered(s, t, LookFinal) == (false, StartTimedOut) ==>
              && s.ctl.firstAttempt > 0 && (s.hist.entries != [] ==> !IsAccepted(c, s.hist.entries[0]))
              && (s.hist.loaded.None? || PublicationInProgress(s))
  {
    ReachableSeen(c, s);
    ReadyAndHeld(c, s);
    ReachableAttempts(c, s);
    assert SeenBy(At(s.callers, t), s);
    if s.mem.networkReady == 0 && s.hist.entries != [] {
      FirstAttemptFailed(c, s);
    }
  }

  /** Some fetch brought an answer, of whatever kind. */
  ghost predicate NetworkAnswered(s: System) {
    exists i :: 0 <= i < |s.hist.entries| && s.hist.entries[i].outcome != TransportError
  }

  /** CacheOnly is said to mean that the network has not answered yet. Start answers it exactly when the
      cache had a ruleset and no live one has been published; so it is answered although the network
      has, exactly when that is so and some outcome recorded was no transport error. If the context
      did not prompt it, the first attempt is over, and brought no acceptance if it was recorded; the
      meaning is then kept exactly if every outcome recorded was a transport error. */
  lemma CacheOnlyExactly(c: Settings, s: System, t: Thread)
    requires Reachable(c, s) && At(s.callers, t).LoadingFinal?
    ensures var prompted := At(s.callers, t).prompted;
            var cacheOnly := At(DoAwait(s, t, LoadFinal).callers, t) == Started(prompted, StartCacheOnly);
            && (cacheOnly <==> s.hist.loaded.Some? && Shown(s.hist, s.poller) == [])
            && (cacheOnly && NetworkAnswered(s) <==>
                  s.hist.loaded.Some? && Shown(s.hist, s.poller) == []
                  && exists i :: 0 <= i < |s.hist.entries| && !s.hist.entries[i].outcome.TransportError?)
            && (cacheOnly && !prompted ==>
                  && s.ctl.firstAttempt > 0 && (s.hist.entries != [] ==> !IsAccepted(c, s.hist.entries[0]))
                  && (!NetworkAnswered(s) <==>
                      forall entry | entry in s.hist.entries :: entry.outcome == TransportError))
  {
    ReachableSeen(c, s);
    ReadyAndHeld(c, s);
    ReachableAttempts(c, s);
    assert SeenBy(At(s.callers, t), s);
    if s.mem.networkReady == 0 && s.ctl.firstAttempt > 0 && s.hist.entries != [] {
      FirstAttemptFailed(c, s);
    }
  }

  /** Undisturbed, with the first attempt over, the ready channel open and a context that lives on,
      Start answers TimedOut unless it holds a cache ruleset. */
  lemma FirstAttemptOver(s: System, t: Thread)
    requires At(s.callers, t).Waiting? && s.ctl.firstAttempt > 0 && s.mem.networkReady == 0
    ensures var s1 := DoAwait(s, t, SelectFirst);
            var s2 := DoAwait(s1, t, LookAgain);
            var s3 := DoAwait(s2, t, LoadFinal);
            var p := At(s3.callers, t);
            if s.mem.snapshot.Some? && s.mem.snapshot.value.fromCache then p == Started(false, StartCacheOnly)
            else p.LookingFinal? && Answered(s3, t, LookFinal) == (false, StartTimedOut)
  {
    var s1 := DoAwait(s, t, SelectFirst);
    assert At(s1.callers, t) == LookingAgain;
    assert At(DoAwait(s1, t, LookAgain).callers, t) == LoadingFinal(false);
  }

  // ------------------------------------------------- runs in which all this happens

  /** Thread 0 calls Start. */
  lemma CallsStart(c: Settings, file: Option<string>, server: string) returns (run: seq<Step>, s: System)
    ensures IsRun(c, Initial(c, file, server), run) && Exec(c, Initial(c, file, server), run) == s
    ensures At(s.callers, 0) == LoadingFile && s.poller.NotLaunched?
    ensures s.ctl == IDLE_CONTROL.(startOnce := Running(0))
    ensures s.mem == FreshMemory(c, Disk(file, map[], 0)) && s.hist == History([], None, [], [])
  {
    var s0 := Initial(c, file, server);
    run, s := [], s0;
    run, s := Extend(c, s0, run, s, Call(0, CallStart));
    run, s := Extend(c, s0, run, s, Call(0, EnterStart));
  }

  /** Its cache load over, it launches the poller and waits. */
  lemma Launches(c: Settings, s0: System, before: seq<Step>, was: System) returns (run: seq<Step>, s: System)
    requires IsRun(c, s0, before) && Exec(c, s0, before) == was && At(was.callers, 0) == SettingStop
    ensures IsRun(c, s0, run) && Exec(c, s0, run) == s
    ensures s.poller == Top(true) && At(s.callers, 0) == Waiting && s.mem == was.mem && s.hist == was.hist
    ensures s.ctl.cancelled == was.ctl.cancelled && s.ctl.firstAttempt == was.ctl.firstAttempt
  {
    run, s := Extend(c, s0, before, was, Call(0, SetStop));
    assert At(s.callers, 0) == Launching;
    run, s := Extend(c, s0, run, s, Call(0, Launch));
  }

  /** A fetch goes out and returns. */
  lemma OneFetch(c: Settings, s0: System, before: seq<Step>, was: System, outcome: FetchOutcome)
    returns (run: seq<Step>, s: System)
    requires IsRun(c, s0, before) && Exec(c, s0, before) == was && was.poller.Top? && !was.ctl.cancelled
    ensures IsRun(c, s0, run) && Exec(c, s0, run) == s
    ensures s == was.(poller := Recording(was.poller.first, outcome), current := s.current)
  {
    run, s := Extend(c, s0, before, was, Poll(ReadEtag));
    run, s := Extend(c, s0, run, s, Poll(FetchReturns(outcome)));
    run, s := Extend(c, s0, run, s, Poll(CheckContext));
  }

  /** What it brought is recorded without acceptance, and the first attempt is over. */
  lemma Fails(c: Settings, s0: System, before: seq<Step>, was: System, entry: Entry) returns (run: seq<Step>, s: System)
    requires IsRun(c, s0, before) && Exec(c, s0, before) == was
    requires was.poller == Recording(true, entry.outcome) && !IsAccepted(c, entry)
    ensures IsRun(c, s0, run) && Exec(c, s0, run) == s
    ensures s.callers == was.callers && s.ctl.firstAttempt > 0 && s.hist.entries == was.hist.entries + [entry]
    ensures s.mem.snapshot == was.mem.snapshot && s.mem.networkReady == was.mem.networkReady
  {
    run, s := Extend(c, s0, before, was, Poll(BeginRecord(entry.fetchedAt, entry.judgedAt)));
    assert s.poller == Recorded(true, entry.outcome);
    run, s := Extend(c, s0, run, s, Poll(CloseFirst));
  }

  /** Start goes on after it, and finds the ready channel open. */
  lemma GoesOn(c: Settings, s0: System, before: seq<Step>, was: System) returns (run: seq<Step>, s: System)
    requires IsRun(c, s0, before) && Exec(c, s0, before) == was
    requires At(was.callers, 0) == Waiting && was.ctl.firstAttempt > 0 && was.mem.networkReady == 0
    ensures IsRun(c, s0, run) && Exec(c, s0, run) == s
    ensures At(s.callers, 0) == LoadingFinal(false) && s.mem == was.mem && s.hist == was.hist
  {
    run, s := Extend(c, s0, before, was, Call(0, SelectFirst));
    assert At(s.callers, 0) == LookingAgain;
    run, s := Extend(c, s0, run, s, Call(0, LookAgain));
  }

  /** Start's last two looks, with no cache ruleset held and the ready channel open. */
  lemma LooksInVain(c: Settings, s0: System, before: seq<Step>, was: System, prompted: bool) returns (run: seq<Step>)
    requires IsRun(c, s0, before) && Exec(c, s0, before) == was
    requires At(was.callers, 0) == LoadingFinal(prompted) && was.mem.networkReady == 0
    requires was.mem.snapshot.Some? ==> HoldsNetwork(was.mem.snapshot)
    ensures IsRun(c, s0, run)
    ensures var s := Exec(c, s0, run); At(s.callers, 0) == Started(prompted, StartTimedOut) && s.mem == was.mem
  {
    var s: System;
    run, s := Extend(c, s0, before, was, Call(0, LoadFinal));
    assert At(s.callers, 0).LookingFinal?;
    run, s := Extend(c, s0, run, s, Call(0, LookFinal));
  }

  /** With no cache file, Start waits for the first fetch, which returns this. */
  lemma FetchesFirst(c: Settings, server: string, outcome: FetchOutcome) returns (run: seq<Step>, s: System)
    ensures IsRun(c, Initial(c, None, server), run) && Exec(c, Initial(c, None, server), run) == s
    ensures s.poller == Recording(true, outcome) && At(s.callers, 0) == Waiting
    ensures s.mem == FreshMemory(c, Disk(None, map[], 0)) && s.hist == History([], None, [], [])
  {
    var s0 := Initial(c, None, server);
    run, s := CallsStart(c, None, server);
    run, s := Extend(c, s0, run, s, Call(0, LoadFile(false)));
    run, s := Launches(c, s0, run, s);
    run, s := OneFetch(c, s0, run, s, outcome);
  }

  /** An accepted envelope is stored, and the ready channel still open. */
  lemma Publishes(c: Settings, server: string, entry: Entry) returns (run: seq<Step>, s: System)
    requires IsAccepted(c, entry)
    ensures IsRun(c, Initial(c, None, server), run) && Exec(c, Initial(c, None, server), run) == s
    ensures At(s.callers, 0) == Waiting && s.mem.networkReady == 0 && HoldsNetwork(s.mem.snapshot)
  {
    var s0 := Initial(c, None, server);
    run, s := FetchesFirst(c, server, entry.outcome);
    run, s := Extend(c, s0, run, s, Poll(BeginRecord(entry.fetchedAt, entry.judgedAt)));
    assert s.poller.Publishing?;
    run, s := Extend(c, s0, run, s, Poll(Publish));
  }

  /** Under any settings and for any first envelope they accept: Start, prompted by its context, answers
      TimedOut although a live ruleset is already stored. */
  lemma TimedOutWhileHolding(c: Settings, server: string, entry: Entry) returns (run: seq<Step>)
    requires IsAccepted(c, entry)
    ensures IsRun(c, Initial(c, None, server), run)
    ensures var s := Exec(c, Initial(c, None, server), run);
            At(s.callers, 0) == Started(true, StartTimedOut) && HoldsNetwork(s.mem.snapshot)
  {
    var s0, s := Initial(c, None, server), Initial(c, None, server);
    run, s := Publishes(c, server, entry);
    run, s := Extend(c, s0, run, s, Call(0, SelectContext));
    assert At(s.callers, 0) == LoadingFinal(true);
    run := LooksInVain(c, s0, run, s, true);
  }

  /** Under any settings and for any first outcome that is no acceptance: Start answers TimedOut although
      its context never ended. */
  lemma TimedOutInTime(c: Settings, server: string, entry: Entry) returns (run: seq<Step>)
    requires !IsAccepted(c, entry)
    ensures IsRun(c, Initial(c, None, server), run)
    ensures At(Exec(c, Initial(c, None, server), run).callers, 0) == Started(false, StartTimedOut)
  {
    var s0, s := Initial(c, None, server), Initial(c, None, server);
    run, s := FetchesFirst(c, server, entry.outcome);
    run, s := Fails(c, s0, run, s, entry);
    run, s := GoesOn(c, s0, run, s);
    run := LooksInVain(c, s0, run, s, false);
  }

  /** The cache file holds an envelope that these settings accept from it at this time. */
  ghost predicate Loadable(c: Settings, raw: string, now: Instant) {
    c.hasCache && Storable(raw) && VerifyEnvelope(c.lib, raw, c.policy, CacheExpectations(c, now)).Accepted?
  }

  /** Start loads it. */
  lemma LoadsCache(c: Settings, raw: string, now: Instant, server: string) returns (run: seq<Step>, s: System)
    requires Loadable(c, raw, now)
    ensures IsRun(c, Initial(c, Some(raw), server), run) && Exec(c, Initial(c, Some(raw), server), run) == s
    ensures At(s.callers, 0) == SettingStop && !s.ctl.cancelled && s.ctl.firstAttempt == 0 && s.mem.networkReady == 0
    ensures s.mem.snapshot.Some? && s.mem.snapshot.value.fromCache && s.hist.entries == []
  {
    var s0 := Initial(c, Some(raw), server);
    run, s := CallsStart(c, Some(raw), server);
    run, s := Extend(c, s0, run, s, Call(0, LoadFile(false)));
    assert At(s.callers, 0) == VerifyingFile(raw);
    run, s := Extend(c, s0, run, s, Call(0, VerifyFile(now)));
    assert At(s.callers, 0).PublishingFile? && At(s.callers, 0).loading.fromCache;
    run, s := Extend(c, s0, run, s, Call(0, PublishFile));
  }

  /** Under any settings with a loadable cache: Start is blocked although it holds the cache's ruleset. */
  lemma BlockedWithCache(c: Settings, raw: string, now: Instant, server: string) returns (run: seq<Step>, s: System)
    requires Loadable(c, raw, now)
    ensures IsRun(c, Initial(c, Some(raw), server), run) && Exec(c, Initial(c, Some(raw), server), run) == s
    ensures Blocked(s, 0) && s.mem.snapshot.Some? && s.mem.snapshot.value.fromCache
    ensures s.poller == Top(true) && !s.ctl.cancelled && s.mem.networkReady == 0 && s.hist.entries == []
  {
    run, s := LoadsCache(c, raw, now, server);
    run, s := Launches(c, Initial(c, Some(raw), server), run, s);
  }

  /** Under any settings with a loadable cache, and for any first outcome that is no acceptance, be it the
      network's refusal: Start answers CacheOnly after the network has answered. */
  lemma CacheOnlyAfterAnswer(c: Settings, raw: string, now: Instant, server: string, entry: Entry)
    returns (run: seq<Step>)
    requires Loadable(c, raw, now) && !IsAccepted(c, entry)
    ensures IsRun(c, Initial(c, Some(raw), server), run)
    ensures var s := Exec(c, Initial(c, Some(raw), server), run);
            && At(s.callers, 0) == Started(false, StartCacheOnly) && s.hist.entries == [entry]
            && (NetworkAnswered(s) <==> entry.outcome != TransportError)
  {
    var s0, s := Initial(c, Some(raw), server), Initial(c, Some(raw), server);
    run, s := BlockedWithCache(c, raw, now, server);
    run, s := OneFetch(c, s0, run, s, entry.outcome);
    run, s := Fails(c, s0, run, s, entry);
    run, s := GoesOn(c, s0, run, s);
    assert s.hist.entries == [entry] && s.hist.entries[0] == entry;
    run, s := Extend(c, s0, run, s, Call(0, LoadFinal));
  }

  /** Settings with a cache file under which any body is a ruleset with no flags. */
  const LENIENT: Settings :=
    Settings(
      Library(s => s, s => None, s => None, s => None, s => Some(WireEnvelope("p", None)),
              s => Some(RulesetPayload(1, "dev", "t", "t", map[])), s => Some(s), s => 0, (k, m, g) => false,
              s => Some(0)),
      "dev", SignaturePolicy(true, false, map[]), true, 30_000_000_000)

  /** So there are settings, envelopes and cache files of which all this is said. */
  lemma LenientAccepts()
    ensures IsAccepted(LENIENT, Entry(Success("r", ""), 0, 0)) && Loadable(LENIENT, "r", 0)
    ensures !IsAccepted(LENIENT, Entry(Unauthorized, 0, 0))
  {
  }
}

/** What the client shows after any sequence of outcomes, read off that sequence. */
module Histories {
  import opened Wrappers
  import opened Verifier
  import opened Recording
  import opened FileCache
  import opened Protocol
  import opened Invariants

  lemma {:induction false} LatestIsLastAccepting(c: Settings, entries: seq<Entry>)
    ensures var i := LastOf(c, entries, Accepting);
            match Latest(Acceptances(c, entries))
            case None => i < 0
            case Some(a) =>
              i >= 0 && a == Acceptance(Judge(c, entries[i]).raw, entries[i].outcome.etag,
                                        Judge(c, entries[i]).payload, entries[i].judgedAt)
  {
    if entries != [] && !IsAccepted(c, entries[|entries| - 1]) {
      LatestIsLastAccepting(c, entries[..|entries| - 1]);
    }
  }

  /** History characterisation over every run: the failure count is the length of the longest suffix
      of outcomes with no acceptance and no 304; ETag and served flags are those of the last
      acceptance, whole (a departed flag is gone at once); the rejection shown is the most recent
      one since the last acceptance, and it is stale when that is not the last outcome. */
  lemma ReachableHistory(c: Settings, s: System)
    requires Reachable(c, s)
    ensures var h, state := s.hist.entries, s.mem.state;
            var healthy, accepted, rejected := LastOf(c, h, Healthy), LastOf(c, h, Accepting), LastOf(c, h, Rejecting);
            && state.consecutiveFailures == |h| - 1 - healthy
            && state.etag == (if accepted < 0 then "" else h[accepted].outcome.etag)
            && state.lastRejection == (if rejected > accepted then Some(Judge(c, h[rejected]).code) else None)
            && (state.lastRejection.Some? && state.lastFetchStatus != StatusRejectedEnvelope
                <==> accepted < rejected < |h| - 1)
            && StatusTells(c, state.lastFetchStatus, h)
            && (h != [] ==> state.lastFetchAt == Some(h[|h| - 1].fetchedAt))
            && (!s.poller.Publishing? ==>
                  s.mem.snapshot == if accepted < 0 then s.hist.loaded
                                    else Some(SnapshotOf(c.lib, Judge(c, h[accepted]).payload, false)))
  {
    ReachableCore(c, s);
    HistoryCharacterised(c, s.hist.entries);
    StaleRejection(c, s.hist.entries);
    LatestIsLastAccepting(c, s.hist.entries);
  }

  /** Outside the lock, a Diagnostics read is coherent: source "network" means the shown ETag, flags
      and freshness belong to one response; "cache" or none means there is no ETag to present. */
  lemma DiagnosticsCoherent(c: Settings, s: System)
    requires Reachable(c, s) && !MidRecord(s.poller)
    ensures s.mem.snapshot.Some? && !s.mem.snapshot.value.fromCache ==>
              && Latest(s.hist.accepted).Some?
              && s.mem.state.etag == Latest(s.hist.accepted).value.etag
              && s.mem.snapshot == Some(SnapshotOf(c.lib, Latest(s.hist.accepted).value.payload, false))
              && s.mem.networkReady == 1
    ensures s.mem.snapshot.None? || s.mem.snapshot.value.fromCache ==> s.mem.state.etag == "" && s.mem.networkReady == 0
  {
    ReachableCore(c, s);
  }

  // ---------------------------------------------------------------- acceptances and their clocks

  lemma {:induction false} AcceptanceOfEntry(c: Settings, entries: seq<Entry>, n: nat)
    requires n < |Acceptances(c, entries)|
    ensures var a := Acceptances(c, entries)[n];
            exists i :: 0 <= i < |entries| && IsAccepted(c, entries[i]) && entries[i].judgedAt == a.at
                        && Judge(c, entries[i]) == Accepted(a.raw, a.payload)
  {
    var init, last := entries[..|entries| - 1], entries[|entries| - 1];
    if n < |Acceptances(c, init)| {
      AcceptanceOfEntry(c, init, n);
      var a := Acceptances(c, entries)[n];
      var i :| 0 <= i < |init| && IsAccepted(c, init[i]) && init[i].judgedAt == a.at
               && Judge(c, init[i]) == Accepted(a.raw, a.payload);
      assert entries[i] == init[i];
    } else {
      assert IsAccepted(c, last);
    }
  }

  /** In every reachable state each live acceptance was of a body received, judged at the clock reading
      then taken: no more than 300 s before its issue, no more than 300 s after its expiry. */
  lemma AcceptancesAreTimely(c: Settings, s: System, n: nat)
    requires Reachable(c, s) && n < |s.hist.accepted|
    ensures var a := s.hist.accepted[n];
            var issued, expires := c.lib.parseRfc3339(a.payload.issuedAt), c.lib.parseRfc3339(a.payload.expiresAt);
            && (exists i :: 0 <= i < |s.hist.entries| && s.hist.entries[i].outcome.Success?
                            && s.hist.entries[i].outcome.raw == a.raw && s.hist.entries[i].judgedAt == a.at)
            && issued.Some? && issued.value <= a.at + 300_000_000_000
            && expires.Some? && a.at <= expires.value + 300_000_000_000
  {
    ReachableCore(c, s);
    AcceptanceOfEntry(c, s.hist.entries, n);
    var a := s.hist.accepted[n];
    AcceptanceCharacterised(c.lib, a.raw, c.policy, Expectations(c.environment, a.at, true), a.payload);
    var i :| 0 <= i < |s.hist.entries| && IsAccepted(c, s.hist.entries[i]) && s.hist.entries[i].judgedAt == a.at
             && Judge(c, s.hist.entries[i]) == Accepted(a.raw, a.payload);
    VerdictCharacterised(c.lib, s.hist.entries[i].outcome.raw, c.policy, LiveExpectations(c, a.at));
  }

  // ---------------------------------------------------------------- the cache state

  /** The acceptances whose turn to be stored is over. */
  function StoredSoFar(s: System): int {
    |s.hist.accepted| - if s.poller.Publishing? || s.poller.Storing? then 1 else 0
  }

  ghost predicate CacheTells(c: Settings, s: System) {
    var state, starter := s.mem.state.cacheState, Runner(s.ctl.startOnce, s.callers);
    && (state == CacheDisabled <==> !c.hasCache)
    && (c.hasCache && StoredSoFar(s) == 0 ==>
          && state in {CacheEmpty, CacheLoaded, CacheLoadFailed}
          && (state == CacheLoaded <==> s.hist.loaded.Some? || starter.PublishingFile?))
    && (c.hasCache && StoredSoFar(s) > 0 ==> state in {CacheStored, CacheStoreFailed})
  }

  /** Any step that leaves the data of Start and `record` alone. */
  lemma TellsAside(c: Settings, s: System, s': System)
    requires CacheTells(c, s) && s'.mem.state.cacheState == s.mem.state.cacheState && s'.hist == s.hist
    requires StoredSoFar(s') == StoredSoFar(s)
    requires Runner(s'.ctl.startOnce, s'.callers) == Runner(s.ctl.startOnce, s.callers)
    ensures CacheTells(c, s')
  {
  }

  lemma TellsBeginRecord(c: Settings, s: System, entry: Entry)
    requires CacheTells(c, s) && s.poller.Recording? && entry.outcome == s.poller.outcome
    ensures CacheTells(c, DoBeginRecord(c, s, entry))
  {
    assert StoredSoFar(DoBeginRecord(c, s, entry)) == StoredSoFar(s);
  }

  lemma TellsRecord(c: Settings, s: System, p: PollStep)
    requires Core(c, s) && CacheTells(c, s) && RecordEnabled(s.poller, s.mem.disk, p)
    ensures CacheTells(c, DoRecord(c, s, p))
  {
    if p.BeginRecord? {
      TellsBeginRecord(c, s, Entry(s.poller.outcome, p.fetchedAt, p.judgedAt));
    } else if p.StoreCall? {
      TellsAside(c, s, DoStoreCall(s, p.call));
    }
  }

  lemma TellsFetch(c: Settings, s: System, p: PollStep)
    requires CacheTells(c, s) && FetchEnabled(s.poller, p)
    ensures CacheTells(c, DoFetch(s, p))
  {
    TellsAside(c, s, DoFetch(s, p));
  }

  lemma TellsRest(c: Settings, s: System, p: PollStep)
    requires CacheTells(c, s) && RestEnabled(s.poller, s.ctl.cancelled, p)
    ensures CacheTells(c, DoRest(c, s, p))
  {
    TellsAside(c, s, DoRest(c, s, p));
  }

  lemma TellsPoll(c: Settings, s: System, p: PollStep)
    requires Core(c, s) && CacheTells(c, s) && PollEnabled(s, p)
    ensures CacheTells(c, DoPoll(c, s, p))
  {
    if InFetch(s.poller) {
      TellsFetch(c, s, p);
    } else if InRecord(s.poller) {
      TellsRecord(c, s, p);
    } else {
      TellsRest(c, s, p);
    }
  }

  lemma TellsStart(c: Settings, s: System, t: Thread, k: CallStep)
    requires Core(c, s) && CacheTells(c, s) && StartEnabled(s, At(s.callers, t), k)
    ensures CacheTells(c, DoStart(c, s, t, k))
  {
    assert InStart(At(s.callers, t)) ==> Runner(s.ctl.startOnce, s.callers) == At(s.callers, t);
    assert InStart(At(s.callers, t)) ==> s.poller.NotLaunched?;
  }

  lemma RunnerStays(ctl: Control, callers: map<Thread, Caller>, t: Thread, to: Caller)
    requires Owners(ctl, callers) && !InStart(At(callers, t))
    ensures Runner(ctl.startOnce, callers[t := to]) == Runner(ctl.startOnce, callers)
  {
  }

  /** Another thread's step outside Start. */
  lemma TellsElsewhere(c: Settings, s: System, t: Thread, k: CallStep)
    requires Core(c, s) && CacheTells(c, s) && CallEnabled(s, t, k) && !Starting(At(s.callers, t))
    ensures CacheTells(c, DoCall(c, s, t, k))
  {
    var s' := DoCall(c, s, t, k);
    RunnerStays(s.ctl, s.callers, t, At(s'.callers, t));
    TellsAside(c, s, s');
  }

  lemma TellsStep(c: Settings, s: System, step: Step)
    requires Core(c, s) && CacheTells(c, s) && Enabled(s, step)
    ensures CacheTells(c, Do(c, s, step))
  {
    match step
    case Poll(p) => TellsPoll(c, s, p);
    case Call(t, k) =>
      if Starting(At(s.callers, t)) {
        TellsStart(c, s, t, k);
      } else {
        TellsElsewhere(c, s, t, k);
      }
    case _ =>
  }

  lemma {:induction false} TellsRun(c: Settings, s: System, run: seq<Step>)
    requires Core(c, s) && CacheTells(c, s) && IsRun(c, s, run)
    ensures CacheTells(c, Exec(c, s, run))
    decreases |run|
  {
    if run != [] {
      CoreStep(c, s, run[0]);
      TellsStep(c, s, run[0]);
      TellsRun(c, Do(c, s, run[0]), run[1..]);
    }
  }

  /** What the cache state shown says, once Start's load is over and no store is under way: disabled
      without a cache path; until the first acceptance, loaded exactly if the load brought a ruleset;
      from then on, what became of the last store. */
  lemma CacheStateTells(c: Settings, s: System)
    requires Reachable(c, s) && s.ctl.startOnce.Over? && !s.poller.Publishing? && !s.poller.Storing?
    ensures var state := s.mem.state.cacheState;
            && (state == CacheDisabled <==> !c.hasCache)
            && (c.hasCache && s.hist.accepted == [] ==>
                  && state in {CacheEmpty, CacheLoaded, CacheLoadFailed}
                  && (state == CacheLoaded <==> s.hist.loaded.Some?))
            && (c.hasCache && s.hist.accepted != [] ==> state in {CacheStored, CacheStoreFailed})
  {
    var file: Option<string>, server: string, run: seq<Step> :|
      IsRun(c, Initial(c, file, server), run) && Exec(c, Initial(c, file, server), run) == s;
    CoreBoot(c, Disk(file, map[], 0), file, [], server);
    TellsRun(c, Initial(c, file, server), run);
  }
}

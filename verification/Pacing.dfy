/** The waits between polls over whole runs. */
module Pacing {
  import opened Wrappers
  import opened Verifier
  import opened Configuration
  import opened Recording
  import opened Backoff
  import opened FileCache
  import opened Protocol
  import opened Invariants

  /** The failure streak after a history, by recursion on its end. */
  function Streak(c: Settings, entries: seq<Entry>): nat {
    if entries == [] || IsHealthy(c, entries[|entries| - 1]) then 0 else Streak(c, entries[..|entries| - 1]) + 1
  }

  lemma {:induction false} StreakIsFailureCount(c: Settings, entries: seq<Entry>)
    ensures Replay(c, entries).consecutiveFailures == Streak(c, entries)
  {
    if entries != [] {
      StreakIsFailureCount(c, entries[..|entries| - 1]);
    }
  }

  /** `wait` is a choice the poller could make after the i-th outcome. */
  ghost predicate ChosenAfter(c: Settings, entries: seq<Entry>, i: nat, wait: int)
    requires i < |entries|
  {
    exists random :: InRange(random) && wait == WaitAfter(c, Streak(c, entries[..i + 1]), entries[i].outcome, random)
  }

  /** An outcome is recorded whose wait is still to be chosen. */
  predicate WaitPending(p: Poller) {
    p.Publishing? || p.Storing? || p.CheckingReady? || p.ClosingReady? || p.Recorded? || p.Choosing?
  }

  ghost predicate Paced(c: Settings, s: System) {
    && |s.hist.entries| == |s.waits| + (if WaitPending(s.poller) then 1 else 0)
    && (WaitPending(s.poller) ==> s.hist.entries[|s.waits|].outcome == s.poller.outcome)
    && forall i | 0 <= i < |s.waits| :: ChosenAfter(c, s.hist.entries, i, s.waits[i])
  }

  lemma PacedBeginRecord(c: Settings, s: System, entry: Entry)
    requires Paced(c, s) && s.poller.Recording? && entry.outcome == s.poller.outcome
    ensures Paced(c, DoBeginRecord(c, s, entry))
  {
    var more := s.hist.entries + [entry];
    forall i | 0 <= i < |s.waits| ensures ChosenAfter(c, more, i, s.waits[i]) {
      assert more[..i + 1] == s.hist.entries[..i + 1];
      assert ChosenAfter(c, s.hist.entries, i, s.waits[i]);
    }
  }

  lemma PacedChoose(c: Settings, s: System, random: Random)
    requires Core(c, s) && Paced(c, s) && s.poller.Choosing? && InRange(random)
    ensures Paced(c, DoRest(c, s, ChooseDelay(random)))
  {
    ChosenLast(c, s, random);
    PacedWait(c, s, WaitAfter(c, s.mem.state.consecutiveFailures, s.poller.outcome, random));
  }

  lemma PacedWait(c: Settings, s: System, wait: int)
    requires Paced(c, s) && s.poller.Choosing? && ChosenAfter(c, s.hist.entries, |s.waits|, wait)
    ensures Paced(c, s.(poller := Sleeping(wait), waits := s.waits + [wait]))
  {
    var waits := s.waits + [wait];
    forall i | 0 <= i < |waits| ensures ChosenAfter(c, s.hist.entries, i, waits[i]) {
    }
  }

  lemma ChosenLast(c: Settings, s: System, random: Random)
    requires Core(c, s) && Paced(c, s) && s.poller.Choosing? && InRange(random)
    ensures ChosenAfter(c, s.hist.entries, |s.waits|,
                        WaitAfter(c, s.mem.state.consecutiveFailures, s.poller.outcome, random))
  {
    StreakIsFailureCount(c, s.hist.entries);
    assert s.hist.entries[..|s.waits| + 1] == s.hist.entries;
  }

  /** Any step that records nothing and chooses nothing. */
  lemma PacedQuiet(c: Settings, s: System, s': System)
    requires Paced(c, s) && s'.waits == s.waits && s'.hist.entries == s.hist.entries
    requires WaitPending(s'.poller) == WaitPending(s.poller)
    requires WaitPending(s.poller) ==> s'.poller.outcome == s.poller.outcome
    ensures Paced(c, s')
  {
  }

  lemma PacedRecord(c: Settings, s: System, p: PollStep)
    requires Paced(c, s) && RecordEnabled(s.poller, s.mem.disk, p)
    ensures Paced(c, DoRecord(c, s, p))
  {
    if p.BeginRecord? {
      PacedBeginRecord(c, s, Entry(s.poller.outcome, p.fetchedAt, p.judgedAt));
    } else if p.StoreCall? {
      PacedQuiet(c, s, DoStoreCall(s, p.call));
    } else {
      PacedQuiet(c, s, DoRecord(c, s, p));
    }
  }

  lemma PacedRest(c: Settings, s: System, p: PollStep)
    requires Core(c, s) && Paced(c, s) && RestEnabled(s.poller, s.ctl.cancelled, p)
    ensures Paced(c, DoRest(c, s, p))
  {
    if p.ChooseDelay? {
      PacedChoose(c, s, p.random);
    } else {
      PacedQuiet(c, s, DoRest(c, s, p));
    }
  }

  lemma PacedFetch(c: Settings, s: System, p: PollStep)
    requires Paced(c, s) && FetchEnabled(s.poller, p)
    ensures Paced(c, DoFetch(s, p))
  {
    PacedQuiet(c, s, DoFetch(s, p));
  }

  lemma PacedPoll(c: Settings, s: System, p: PollStep)
    requires Core(c, s) && Paced(c, s) && PollEnabled(s, p)
    ensures Paced(c, DoPoll(c, s, p))
  {
    if InFetch(s.poller) {
      PacedFetch(c, s, p);
    } else if InRecord(s.poller) {
      PacedRecord(c, s, p);
    } else {
      PacedRest(c, s, p);
    }
  }

  lemma PacedStart(c: Settings, s: System, t: Thread, k: CallStep)
    requires Core(c, s) && Paced(c, s) && StartEnabled(s, At(s.callers, t), k)
    ensures Paced(c, DoStart(c, s, t, k))
  {
    assert InStart(At(s.callers, t)) ==> s.ctl.startOnce == Running(t);
    PacedQuiet(c, s, DoStart(c, s, t, k));
  }

  lemma PacedStep(c: Settings, s: System, step: Step)
    requires Core(c, s) && Paced(c, s) && Enabled(s, step)
    ensures Paced(c, Do(c, s, step))
  {
    match step
    case Poll(p) => PacedPoll(c, s, p);
    case Call(t, k) =>
      if Starting(At(s.callers, t)) {
        PacedStart(c, s, t, k);
      } else {
        PacedQuiet(c, s, DoCall(c, s, t, k));
      }
    case ServerPublishes(_) => PacedQuiet(c, s, Do(c, s, step));
    case Crash =>
  }

  lemma {:induction false} PacedRun(c: Settings, s: System, run: seq<Step>)
    requires Core(c, s) && Paced(c, s) && IsRun(c, s, run)
    ensures Paced(c, Exec(c, s, run))
    decreases |run|
  {
    if run != [] {
      CoreStep(c, s, run[0]);
      PacedStep(c, s, run[0]);
      PacedRun(c, Do(c, s, run[0]), run[1..]);
    }
  }

  /** k failures in a row without a server hint. */
  ghost predicate UnhintedFailures(c: Settings, entries: seq<Entry>, from: nat, k: nat) {
    && from + k <= |entries|
    && forall i | from <= i < from + k ::
         && !IsHealthy(c, entries[i])
         && !(entries[i].outcome.RateLimited? && entries[i].outcome.retryAfterSeconds > 0)
  }

  /** The first of them right after a success or at the start of the process. */
  ghost predicate FreshFailures(c: Settings, entries: seq<Entry>, from: nat, k: nat) {
    UnhintedFailures(c, entries, from, k) && (from > 0 ==> IsHealthy(c, entries[from - 1]))
  }

  lemma {:induction false} StreakGrows(c: Settings, entries: seq<Entry>, from: nat, k: nat)
    requires UnhintedFailures(c, entries, from, k)
    ensures Streak(c, entries[..from + k]) == Streak(c, entries[..from]) + k
    decreases k
  {
    if k > 0 {
      StreakGrows(c, entries, from, k - 1);
      var taken := entries[..from + k];
      assert taken[|taken| - 1] == entries[from + k - 1] && taken[..|taken| - 1] == entries[..from + (k - 1)];
    }
  }

  /** What holds of one wait, chosen after recording this entry. */
  ghost predicate WaitIsPaced(c: Settings, entry: Entry, wait: int) {
    && 1_000_000_000 <= wait && 10 * wait <= MaxInt(21_600_000_000_000, 12 * c.interval)
    && (IsHealthy(c, entry) ==>
          24_000_000_000 <= wait && 8 * c.interval <= 10 * wait + 9 && 10 * wait <= 12 * c.interval)
    && (entry.outcome.RateLimited? && entry.outcome.retryAfterSeconds > 0 ==>
          var n := entry.outcome.retryAfterSeconds;
          wait == 1_000_000_000 * if n < 1800 then n else 1800)
    && (12 * c.interval < 10 * 0x8000_0000_0000_0000 ==> wait < 0x8000_0000_0000_0000)
  }

  /** How long a stretch of unhinted failures sleeps. */
  ghost predicate StretchIsPaced(c: Settings, entries: seq<Entry>, waits: seq<int>, from: nat, k: nat) {
    UnhintedFailures(c, entries, from, k) && from + k <= |waits| ==>
      var j, slept := Streak(c, entries[..from]), Sum(waits[from..from + k]);
      && AFifthEitherWay(slept, LadderSum(j + k) - LadderSum(j))
      && (FreshFailures(c, entries, from, k) ==> AFifthEitherWay(slept, LadderSum(k)))
  }

  /** Poll pacing over runs. In every reachable state, each wait chosen so far lies between 1 s and
      the larger of 2160 s and 1.2 intervals, is at least 24 s after a success, is the server's hint
      to the second, up to half an hour, when there was one, and fits an int64; and every stretch of
      k unhinted failures, whatever j failures it follows on, slept between 0.8 and 1.2 times
      S(j + k) - S(j), which is S(k) after a success. */
  lemma PollPacing(c: Settings, s: System, from: nat, k: nat)
    requires Reachable(c, s) && c.interval >= MINIMUM_POLL_INTERVAL
    ensures |s.waits| <= |s.hist.entries|
    ensures forall i | 0 <= i < |s.waits| :: WaitIsPaced(c, s.hist.entries[i], s.waits[i])
    ensures StretchIsPaced(c, s.hist.entries, s.waits, from, k)
  {
    ReachablePaced(c, s);
    EveryWait(c, s);
    EveryStretch(c, s, from, k);
  }

  lemma EveryStretch(c: Settings, s: System, from: nat, k: nat)
    requires Paced(c, s)
    ensures StretchIsPaced(c, s.hist.entries, s.waits, from, k)
  {
    if UnhintedFailures(c, s.hist.entries, from, k) && from + k <= |s.waits| {
      PacedStretch(c, s, from, k, Streak(c, s.hist.entries[..from]));
      if FreshFailures(c, s.hist.entries, from, k) {
        FreshStretch(c, s, from, k);
      }
    }
  }

  lemma EveryWait(c: Settings, s: System)
    requires Paced(c, s) && c.interval >= MINIMUM_POLL_INTERVAL
    ensures forall i | 0 <= i < |s.waits| :: WaitIsPaced(c, s.hist.entries[i], s.waits[i])
  {
    forall i | 0 <= i < |s.waits| ensures WaitIsPaced(c, s.hist.entries[i], s.waits[i]) {
      EachWait(c, s.hist.entries, i, s.waits[i]);
    }
  }

  lemma PacedStretch(c: Settings, s: System, from: nat, k: nat, j: nat)
    requires Paced(c, s) && UnhintedFailures(c, s.hist.entries, from, k) && from + k <= |s.waits|
    requires j == Streak(c, s.hist.entries[..from])
    ensures AFifthEitherWay(Sum(s.waits[from..from + k]), LadderSum(j + k) - LadderSum(j))
  {
    StretchWaits(c, s, from, k, j);
    FailurePacing(s.waits[from..from + k], j, j + k);
  }

  lemma FreshStretch(c: Settings, s: System, from: nat, k: nat)
    requires Paced(c, s) && FreshFailures(c, s.hist.entries, from, k) && from + k <= |s.waits|
    ensures AFifthEitherWay(Sum(s.waits[from..from + k]), LadderSum(k))
  {
    FreshStreak(c, s.hist.entries, from);
    PacedStretch(c, s, from, k, 0);
    LadderSumStart();
  }

  lemma FreshStreak(c: Settings, entries: seq<Entry>, from: nat)
    requires from <= |entries|
    ensures from == 0 || IsHealthy(c, entries[from - 1]) ==> Streak(c, entries[..from]) == 0
  {
  }

  lemma ReachablePaced(c: Settings, s: System)
    requires Reachable(c, s)
    ensures Paced(c, s)
  {
    var file: Option<string>, server: string, run: seq<Step> :|
      IsRun(c, Initial(c, file, server), run) && Exec(c, Initial(c, file, server), run) == s;
    CoreBoot(c, Disk(file, map[], 0), file, [], server);
    PacedRun(c, Initial(c, file, server), run);
  }

  lemma EachWait(c: Settings, entries: seq<Entry>, i: nat, wait: int)
    requires i < |entries| && ChosenAfter(c, entries, i, wait) && c.interval >= MINIMUM_POLL_INTERVAL
    ensures WaitIsPaced(c, entries[i], wait)
  {
    var streak := Streak(c, entries[..i + 1]);
    var random :| InRange(random) && wait == WaitAfter(c, streak, entries[i].outcome, random);
    WaitBounds(c, streak, entries[i].outcome, random);
    assert entries[..i + 1][i] == entries[i];
  }

  /** A wait after an unhinted failure is that of its place in the streak. */
  lemma UnhintedWait(c: Settings, entries: seq<Entry>, from: nat, k: nat, n: nat, wait: int)
    requires UnhintedFailures(c, entries, from, k) && from <= n < from + k && ChosenAfter(c, entries, n, wait)
    ensures IsRetryDelay(wait, Streak(c, entries[..from]) + (n - from) + 1)
  {
    StreakGrows(c, entries, from, n + 1 - from);
    assert from + (n + 1 - from) == n + 1;
  }

  lemma StretchWait(c: Settings, entries: seq<Entry>, waits: seq<int>, from: nat, k: nat, j: nat, i: nat)
    requires UnhintedFailures(c, entries, from, k) && from + k <= |waits| && i < k && j == Streak(c, entries[..from])
    requires ChosenAfter(c, entries, from + i, waits[from + i])
    ensures IsRetryDelay(waits[from..from + k][i], j + i + 1)
  {
    UnhintedWait(c, entries, from, k, from + i, waits[from..from + k][i]);
  }

  lemma StretchWaits(c: Settings, s: System, from: nat, k: nat, j: nat)
    requires Paced(c, s) && UnhintedFailures(c, s.hist.entries, from, k) && from + k <= |s.waits|
    requires j == Streak(c, s.hist.entries[..from])
    ensures UnhintedFailureWaits(s.waits[from..from + k], j)
  {
    var stretch := s.waits[from..from + k];
    forall i | 0 <= i < |stretch| ensures IsRetryDelay(stretch[i], j + i + 1) {
      StretchWait(c, s.hist.entries, s.waits, from, k, j, i);
    }
  }
}

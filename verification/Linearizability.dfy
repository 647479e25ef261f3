/** Getters under concurrency: every answer is the evaluation of one whole published ruleset, the
    current one at an instant inside the call, and every counted call is counted once. */
module Linearizability {
  import opened Wrappers
  import opened Ruleset
  import opened Verifier
  import opened Recording
  import opened FileCache
  import opened Protocol
  import opened Invariants

  // ---------------------------------------------------------------- one register, one writer

  /** A call invoked with `since` rulesets published, after `after` calls had returned. */
  ghost predicate Began(published: seq<Snapshot>, calls: seq<GetterCall>, since: nat, after: nat) {
    && since <= |published| && after <= |calls|
    && forall i | 0 <= i < after :: calls[i].until <= since
  }

  /** No call of this thread has returned since. */
  ghost predicate Alone(calls: seq<GetterCall>, t: Thread, after: nat) {
    forall i | after <= i < |calls| :: calls[i].thread != t
  }

  ghost predicate InFlight(lib: Library, published: seq<Snapshot>, calls: seq<GetterCall>, t: Thread, p: Caller) {
    match p
    case Asking(q, since, after) => Began(published, calls, since, after) && Alone(calls, t, after)
    case Holding(q, since, after, k, held) =>
      Began(published, calls, since, after) && Alone(calls, t, after)
      && since <= k <= |published| && held == Nth(published, k)
    case Answering(q, since, after, k, answer) =>
      Began(published, calls, since, after) && Alone(calls, t, after)
      && since <= k <= |published| && answer == Resolve(lib, Nth(published, k), q)
    case _ => true
  }

  ghost predicate Linearized(lib: Library, published: seq<Snapshot>, calls: seq<GetterCall>, j: nat)
    requires j < |calls|
  {
    var e := calls[j];
    && e.since <= e.k <= e.until <= |published|
    && e.answer == Resolve(lib, Nth(published, e.k), e.q)
    && e.after <= j
    && (forall i | 0 <= i < e.after :: calls[i].until <= e.since)
    && (forall i | e.after <= i < j :: calls[i].thread != e.thread)
  }

  ghost predicate Reads(lib: Library, published: seq<Snapshot>, calls: seq<GetterCall>, callers: map<Thread, Caller>) {
    && (forall t :: InFlight(lib, published, calls, t, At(callers, t)))
    && (forall j | 0 <= j < |calls| :: Linearized(lib, published, calls, j))
  }

  ghost predicate ReadsOf(c: Settings, s: System) { Reads(c.lib, s.hist.published, s.log.calls, s.callers) }

  /** A thread moves outside the getters. */
  lemma ReadsMove(lib: Library, published: seq<Snapshot>, calls: seq<GetterCall>, callers: map<Thread, Caller>,
                  t: Thread, to: Caller)
    requires Reads(lib, published, calls, callers) && InFlight(lib, published, calls, t, to)
    ensures Reads(lib, published, calls, callers[t := to])
  {
    var moved := callers[t := to];
    forall u ensures InFlight(lib, published, calls, u, At(moved, u)) {
      assert InFlight(lib, published, calls, u, At(callers, u));
    }
  }

  /** A publication leaves every earlier read standing. */
  lemma ReadsPublish(lib: Library, published: seq<Snapshot>, calls: seq<GetterCall>,
                     callers: map<Thread, Caller>, x: Snapshot)
    requires Reads(lib, published, calls, callers)
    ensures Reads(lib, published + [x], calls, callers)
  {
    var more := published + [x];
    forall t ensures InFlight(lib, more, calls, t, At(callers, t)) {
      assert InFlight(lib, published, calls, t, At(callers, t));
    }
    forall j | 0 <= j < |calls| ensures Linearized(lib, more, calls, j) {
      assert Linearized(lib, published, calls, j);
    }
  }

  /** A returning call joins the log. */
  lemma ReadsReturn(lib: Library, published: seq<Snapshot>, calls: seq<GetterCall>, callers: map<Thread, Caller>,
                    t: Thread, q: Query, since: nat, after: nat, k: nat, a: Answer)
    requires Reads(lib, published, calls, callers) && At(callers, t) == Answering(q, since, after, k, a)
    ensures Reads(lib, published, calls + [GetterCall(t, q, since, after, k, |published|, a)], callers[t := Idle])
  {
    var more := calls + [GetterCall(t, q, since, after, k, |published|, a)];
    assert InFlight(lib, published, calls, t, At(callers, t));
    var moved := callers[t := Idle];
    forall u ensures InFlight(lib, published, more, u, At(moved, u)) {
      assert InFlight(lib, published, calls, u, At(callers, u));
    }
    forall j | 0 <= j < |more| ensures Linearized(lib, published, more, j) {
      if j < |calls| {
        assert Linearized(lib, published, calls, j);
      }
    }
  }

  lemma ReadsGet(c: Settings, s: System, t: Thread, k: CallStep)
    requires Core(c, s) && ReadsOf(c, s) && GetEnabled(At(s.callers, t), k)
    ensures ReadsOf(c, DoGet(c, s, t, k))
  {
    var p := At(s.callers, t);
    assert InFlight(c.lib, s.hist.published, s.log.calls, t, p);
    if p.Answering? {
      ReadsReturn(c.lib, s.hist.published, s.log.calls, s.callers, t, p.q, p.since, p.after, p.k, p.answer);
    } else if p.Idle? && k.Ask? {
      forall i | 0 <= i < |s.log.calls| ensures s.log.calls[i].until <= |s.hist.published| {
        assert Linearized(c.lib, s.hist.published, s.log.calls, i);
      }
      ReadsMove(c.lib, s.hist.published, s.log.calls, s.callers, t, Asking(k.query, |s.hist.published|, |s.log.calls|));
    } else {
      ReadsMove(c.lib, s.hist.published, s.log.calls, s.callers, t, At(DoGet(c, s, t, k).callers, t));
    }
  }

  lemma ReadsStart(c: Settings, s: System, t: Thread, k: CallStep)
    requires ReadsOf(c, s) && StartEnabled(s, At(s.callers, t), k)
    ensures ReadsOf(c, DoStart(c, s, t, k))
  {
    var p, s' := At(s.callers, t), DoStart(c, s, t, k);
    ReadsMove(c.lib, s.hist.published, s.log.calls, s.callers, t, At(s'.callers, t));
    if p.PublishingFile? {
      ReadsPublish(c.lib, s.hist.published, s.log.calls, s'.callers, p.loading);
    }
  }

  lemma ReadsStep(c: Settings, s: System, step: Step)
    requires Core(c, s) && ReadsOf(c, s) && Enabled(s, step)
    ensures ReadsOf(c, Do(c, s, step))
  {
    match step
    case Poll(p) => ReadsPoll(c, s, p);
    case Call(t, k) =>
      var to := At(DoCall(c, s, t, k).callers, t);
      if Starting(At(s.callers, t)) {
        ReadsStart(c, s, t, k);
      } else if Awaiting(At(s.callers, t)) || Closing(At(s.callers, t)) {
        ReadsMove(c.lib, s.hist.published, s.log.calls, s.callers, t, to);
      } else {
        ReadsGet(c, s, t, k);
      }
    case _ =>
  }

  lemma ReadsPoll(c: Settings, s: System, p: PollStep)
    requires ReadsOf(c, s) && PollEnabled(s, p)
    ensures ReadsOf(c, DoPoll(c, s, p))
  {
    if s.poller.Publishing? {
      ReadsPublish(c.lib, s.hist.published, s.log.calls, s.callers,
                   SnapshotOf(c.lib, s.poller.accepted.payload, false));
    }
  }

  lemma {:induction false} ReadsRun(c: Settings, s: System, run: seq<Step>)
    requires Core(c, s) && ReadsOf(c, s) && IsRun(c, s, run)
    ensures ReadsOf(c, Exec(c, s, run))
    decreases |run|
  {
    if run != [] {
      CoreStep(c, s, run[0]);
      ReadsStep(c, s, run[0]);
      ReadsRun(c, Do(c, s, run[0]), run[1..]);
    }
  }

  /** Linearizable reads. In every interleaving, each returned getter call j answered with the
      pure evaluation of one whole ruleset, the k-th published, and k lies between the number
      published when the call was invoked and when it returned, so that ruleset was current at
      an instant inside the call. If call i returned before call j was invoked, in particular if
      the same thread made i and then j, then j did not see an older ruleset than i. */
  lemma LinearizableReads(c: Settings, s: System)
    requires Reachable(c, s)
    ensures var calls := s.log.calls;
            && (forall j | 0 <= j < |calls| ::
                  && calls[j].since <= calls[j].k <= calls[j].until <= |s.hist.published|
                  && calls[j].answer == Resolve(c.lib, Nth(s.hist.published, calls[j].k), calls[j].q))
            && (forall i, j | 0 <= i < |calls| && 0 <= j < |calls| && i < calls[j].after :: calls[i].k <= calls[j].k)
            && (forall i, j | 0 <= i < j < |calls| && calls[i].thread == calls[j].thread :: calls[i].k <= calls[j].k)
  {
    var file: Option<string>, server: string, run: seq<Step> :|
      IsRun(c, Initial(c, file, server), run) && Exec(c, Initial(c, file, server), run) == s;
    CoreBoot(c, Disk(file, map[], 0), file, [], server);
    ReadsRun(c, Initial(c, file, server), run);
    ReadsAreOrdered(c.lib, s.hist.published, s.log.calls, s.callers);
  }

  lemma ReadsAreOrdered(lib: Library, published: seq<Snapshot>, calls: seq<GetterCall>, callers: map<Thread, Caller>)
    requires Reads(lib, published, calls, callers)
    ensures forall j | 0 <= j < |calls| ::
              && calls[j].since <= calls[j].k <= calls[j].until <= |published|
              && calls[j].answer == Resolve(lib, Nth(published, calls[j].k), calls[j].q)
    ensures forall i, j | 0 <= i < |calls| && 0 <= j < |calls| && i < calls[j].after :: calls[i].k <= calls[j].k
    ensures forall i, j | 0 <= i < j < |calls| && calls[i].thread == calls[j].thread :: calls[i].k <= calls[j].k
  {
    forall j | 0 <= j < |calls|
      ensures calls[j].since <= calls[j].k <= calls[j].until <= |published|
      ensures calls[j].answer == Resolve(lib, Nth(published, calls[j].k), calls[j].q)
    {
      assert Linearized(lib, published, calls, j);
    }
    forall i, j | 0 <= i < |calls| && 0 <= j < |calls| && i < calls[j].after ensures calls[i].k <= calls[j].k {
      assert Linearized(lib, published, calls, j);
    }
    forall i, j | 0 <= i < j < |calls| && calls[i].thread == calls[j].thread ensures calls[i].k <= calls[j].k {
      assert Linearized(lib, published, calls, j);
      assert i < calls[j].after;
    }
  }

  // ---------------------------------------------------------------- conservation

  datatype Reason = WasServed | WasNoSnapshot | WasUnknownFlag | WasKindMismatch | WasNoValue

  function ReasonOf(a: Answer): Reason {
    match a
    case Served(_) => WasServed
    case NoSnapshot => WasNoSnapshot
    case UnknownFlag => WasUnknownFlag
    case KindMismatch => WasKindMismatch
    case NoValue => WasNoValue
  }

  function HowMany(answers: seq<Answer>, reason: Reason): nat {
    if answers == [] then 0
    else HowMany(answers[..|answers| - 1], reason) + if ReasonOf(answers[|answers| - 1]) == reason then 1 else 0
  }

  ghost predicate Counted(k: Counters, answers: seq<Answer>) {
    && k.served == HowMany(answers, WasServed) % 0x1_0000_0000_0000_0000
    && k.noSnapshot == HowMany(answers, WasNoSnapshot) % 0x1_0000_0000_0000_0000
    && k.unknownFlag == HowMany(answers, WasUnknownFlag) % 0x1_0000_0000_0000_0000
    && k.kindMismatch == HowMany(answers, WasKindMismatch) % 0x1_0000_0000_0000_0000
    && k.noValue == HowMany(answers, WasNoValue) % 0x1_0000_0000_0000_0000
  }

  lemma CountedAnswer(k: Counters, answers: seq<Answer>, a: Answer)
    requires Counted(k, answers)
    ensures Counted(CountAnswer(k, a), answers + [a])
  {
    assert (answers + [a])[..|answers|] == answers;
    WrapsOnce(HowMany(answers, ReasonOf(a)), 1);
  }

  lemma CountedStep(c: Settings, s: System, step: Step)
    requires Counted(s.counters, s.log.answers) && Enabled(s, step)
    ensures var s' := Do(c, s, step); Counted(s'.counters, s'.log.answers)
  {
    if step.Call? && At(s.callers, step.thread).Holding? {
      var p := At(s.callers, step.thread);
      CountedAnswer(s.counters, s.log.answers, Resolve(c.lib, p.held, p.q));
    }
  }

  lemma {:induction false} CountedRun(c: Settings, s: System, run: seq<Step>)
    requires Counted(s.counters, s.log.answers) && IsRun(c, s, run)
    ensures var s' := Exec(c, s, run); Counted(s'.counters, s'.log.answers)
    decreases |run|
  {
    if run != [] {
      CountedStep(c, s, run[0]);
      CountedRun(c, Do(c, s, run[0]), run[1..]);
    }
  }

  lemma {:induction false} ReasonsPartition(answers: seq<Answer>)
    ensures HowMany(answers, WasServed) + HowMany(answers, WasNoSnapshot) + HowMany(answers, WasUnknownFlag)
          + HowMany(answers, WasKindMismatch) + HowMany(answers, WasNoValue) == |answers|
  {
    if answers != [] {
      ReasonsPartition(answers[..|answers| - 1]);
    }
  }

  lemma WrapsOnce(a: nat, b: nat)
    ensures (a % UINT64 + b) % UINT64 == (a + b) % UINT64
  {
  }

  lemma ModSum(a: nat, b: nat, d: nat, e: nat, f: nat)
    ensures (a % UINT64 + b % UINT64 + d % UINT64 + e % UINT64 + f % UINT64) % UINT64 == (a + b + d + e + f) % UINT64
  {
    WrapsOnce(a, b % UINT64 + d % UINT64 + e % UINT64 + f % UINT64);
    WrapsOnce(b, a + d % UINT64 + e % UINT64 + f % UINT64);
    WrapsOnce(d, a + b + e % UINT64 + f % UINT64);
    WrapsOnce(e, a + b + d + f % UINT64);
    WrapsOnce(f, a + b + d + e);
  }

  /** Conservation: the five counters together equal the number of counted getter calls modulo
      2^64, under any interleaving, and `served` is the number answered from a ruleset. */
  lemma CounterConservation(c: Settings, s: System)
    requires Reachable(c, s)
    ensures var k := s.counters;
            && (k.served + k.noSnapshot + k.unknownFlag + k.kindMismatch + k.noValue) % 0x1_0000_0000_0000_0000
                == |s.log.answers| % 0x1_0000_0000_0000_0000
            && Counted(k, s.log.answers)
  {
    var file: Option<string>, server: string, run: seq<Step> :|
      IsRun(c, Initial(c, file, server), run) && Exec(c, Initial(c, file, server), run) == s;
    CountedRun(c, Initial(c, file, server), run);
    CountersSum(s.counters, s.log.answers);
  }

  lemma CountersSum(k: Counters, answers: seq<Answer>)
    requires Counted(k, answers)
    ensures (k.served + k.noSnapshot + k.unknownFlag + k.kindMismatch + k.noValue) % UINT64 == |answers| % UINT64
  {
    ReasonsPartition(answers);
    ModSum(HowMany(answers, WasServed), HowMany(answers, WasNoSnapshot),
           HowMany(answers, WasUnknownFlag),
           HowMany(answers, WasKindMismatch), HowMany(answers, WasNoValue));
  }

  /** The typed getter through which a flag can be read. */
  ghost predicate Answers(lib: Library, snapshot: Snapshot, flagKey: string, kind: string) {
    forall contextKey, tags :: !Resolve(lib, Some(snapshot), Query(flagKey, contextKey, tags, kind)).KindMismatch?
  }

  /** Each flag is read without a kind mismatch through exactly one of the three typed getters. */
  ghost predicate OneGetterEach(lib: Library, snapshot: Snapshot) {
    forall key | key in snapshot.flags ::
      exists kind :: KnownKind(kind) && forall k :: KnownKind(k) ==> (Answers(lib, snapshot, key, k) <==> k == kind)
  }

  /** The snapshot is that of a verified payload for this environment, and carries the issue time that
      this payload's own text parses to. */
  ghost predicate OfVerified(c: Settings, snapshot: Snapshot) {
    exists payload ::
      && Verified(c, payload, !snapshot.fromCache) && snapshot == SnapshotOf(c.lib, payload, snapshot.fromCache)
      && payload.environment == c.environment && c.lib.parseRfc3339(payload.issuedAt) == Some(snapshot.issuedAt)
  }

  lemma OneGetterAnswers(lib: Library, snapshot: Snapshot, key: string)
    requires key in snapshot.flags
    ensures forall k :: Answers(lib, snapshot, key, k) <==> k == snapshot.flags[key].kind
  {
    forall k ensures Answers(lib, snapshot, key, k) <==> k == snapshot.flags[key].kind {
      assert Resolve(lib, Some(snapshot), Query(key, "", map[], k)).KindMismatch? <==> k != snapshot.flags[key].kind;
    }
  }

  lemma WellFormedReads(c: Settings, snapshot: Snapshot)
    requires WellFormed(c, snapshot)
    ensures OfVerified(c, snapshot) && OneGetterEach(c.lib, snapshot)
  {
    var payload := WellFormedMeans(c, snapshot);
    forall key | key in snapshot.flags
      ensures exists kind ::
                KnownKind(kind) && forall k :: KnownKind(k) ==> (Answers(c.lib, snapshot, key, k) <==> k == kind)
    {
      OneGetterAnswers(c.lib, snapshot, key);
    }
  }

  /** Every ruleset published so far, hence every ruleset a getter can see, is a verified payload's,
      and each of its flags can be read through one typed getter and no other. */
  lemma PublishedSnapshotInvariant(c: Settings, s: System)
    requires Reachable(c, s)
    ensures s.mem.snapshot == Nth(s.hist.published, |s.hist.published|)
    ensures forall i | 0 <= i < |s.hist.published| ::
              OfVerified(c, s.hist.published[i]) && OneGetterEach(c.lib, s.hist.published[i])
  {
    ReachableCore(c, s);
    forall i | 0 <= i < |s.hist.published|
      ensures OfVerified(c, s.hist.published[i]) && OneGetterEach(c.lib, s.hist.published[i])
    {
      WellFormedReads(c, s.hist.published[i]);
    }
  }

  /** The snapshot is that of a payload which passes every check from the bytes up. */
  ghost predicate OfAcceptable(c: Settings, snapshot: Snapshot, live: bool) {
    exists raw, now, envelope, bytes, payload ::
      && Acceptable(c.lib, raw, c.policy, Expectations(c.environment, now, live), envelope, bytes, payload)
      && snapshot == SnapshotOf(c.lib, payload, snapshot.fromCache)
  }

  /** Only authentic rulesets are ever evaluated. In every reachable state, whatever the cache file held
      and whatever the fetcher returned, each published ruleset is that of an acceptable envelope: one
      signed over exactly its bytes under a trusted key, when the policy requires that. */
  lemma PublishedAreAuthentic(c: Settings, s: System)
    requires Reachable(c, s)
    ensures forall i | 0 <= i < |s.hist.published| ::
              OfAcceptable(c, s.hist.published[i], !s.hist.published[i].fromCache)
  {
    ReachableCore(c, s);
    forall i | 0 <= i < |s.hist.published|
      ensures OfAcceptable(c, s.hist.published[i], !s.hist.published[i].fromCache)
    {
      WellFormedIsAuthentic(c, s.hist.published[i]);
    }
  }

  lemma WellFormedIsAuthentic(c: Settings, snapshot: Snapshot)
    requires WellFormed(c, snapshot)
    ensures OfAcceptable(c, snapshot, !snapshot.fromCache)
  {
    var live := !snapshot.fromCache;
    var payload :| Verified(c, payload, live) && snapshot == SnapshotOf(c.lib, payload, snapshot.fromCache);
    var raw, now :|
      VerifyEnvelope(c.lib, raw, c.policy, Expectations(c.environment, now, live)) == Accepted(raw, payload);
    AcceptanceCharacterised(c.lib, raw, c.policy, Expectations(c.environment, now, live), payload);
  }

  /** The typed getters' assertions cannot fail: in every interleaving, a call that was answered from
      a ruleset had a published one that knows the flag, and got a value of the kind it asked for. */
  lemma ServedHaveKind(c: Settings, s: System, j: nat)
    requires Reachable(c, s) && j < |s.log.calls| && s.log.calls[j].answer.Served?
    ensures var call := s.log.calls[j];
            && KnownKind(call.q.kind) && HasKind(call.answer.value, call.q.kind)
            && 0 < call.k <= |s.hist.published| && call.q.flagKey in s.hist.published[call.k - 1].flags
  {
    LinearizableReads(c, s);
  }
}

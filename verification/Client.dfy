/** The client object (client.go, fortressflag.go): the methods that update its fields in place,
    each tied to the effect it has on the shared memory. */
module Client {
  import opened Wrappers
  import opened Ruleset
  import opened Verifier
  import opened Recording
  import opened FileCache
  import opened Memory
  import opened Backoff
  import Evaluator

  /** One turn of the poll loop: what the fetcher, the clock, the disk and the dice answer. */
  datatype Turn = Turn(entry: Entry, fault: Fault, random: Random)

  ghost function RecordAll(c: Settings, m: Memory, turns: seq<Turn>): Memory {
    if turns == [] then m
    else
      var last := turns[|turns| - 1];
      RecordEffect(c, RecordAll(c, m, turns[..|turns| - 1]), last.entry, last.fault)
  }

  /** The wait the loop chooses at the end of each turn. */
  ghost function Waits(c: Settings, m: Memory, turns: seq<Turn>): (waits: seq<int>)
    ensures |waits| == |turns|
  {
    if turns == [] then []
    else
      var last := turns[|turns| - 1];
      Waits(c, m, turns[..|turns| - 1])
      + [WaitAfter(c, RecordAll(c, m, turns).state.consecutiveFailures, last.entry.outcome, last.random)]
  }

  ghost function Entries(turns: seq<Turn>): (entries: seq<Entry>)
    ensures |entries| == |turns| && forall i | 0 <= i < |turns| :: entries[i] == turns[i].entry
  {
    if turns == [] then [] else Entries(turns[..|turns| - 1]) + [turns[|turns| - 1].entry]
  }

  /** The state record after any number of turns is the replay of their outcomes, the cache state
      aside: no disk fault reaches it. */
  lemma {:induction false} RecordAllReplays(c: Settings, disk: Disk, turns: seq<Turn>)
    ensures var s := RecordAll(c, FreshMemory(c, disk), turns).state;
            s.(cacheState := FreshState(c).cacheState) == Replay(c, Entries(turns))
  {
    if turns != [] {
      var init := turns[..|turns| - 1];
      RecordAllReplays(c, disk, init);
      assert Entries(turns)[..|turns| - 1] == Entries(init);
    }
  }

  /** Each turn presents the ETag that the turns before it have left on record. */
  ghost predicate Presents(c: Settings, start: Memory, turns: seq<Turn>, presented: seq<string>) {
    && |presented| <= |turns| + 1
    && forall i | 0 <= i < |presented| :: presented[i] == RecordAll(c, start, turns[..i]).state.etag
  }

  /** What the loop has done to the memory, presented to the fetcher and chosen, after these turns. */
  ghost predicate Polled(
    c: Settings, start: Memory, turns: seq<Turn>, m: Memory, presented: seq<string>, waits: seq<int>) {
    && m == RecordAll(c, start, turns) && waits == Waits(c, start, turns)
    && |presented| == |turns| && Presents(c, start, turns, presented)
  }

  lemma PolledOnce(
    c: Settings, start: Memory, turns: seq<Turn>, k: nat, m: Memory, m': Memory,
    presented: seq<string>, waits: seq<int>, delay: int)
    requires k < |turns| && Polled(c, start, turns[..k], m, presented, waits)
    requires m' == RecordEffect(c, m, turns[k].entry, turns[k].fault)
    requires delay == WaitAfter(c, m'.state.consecutiveFailures, turns[k].entry.outcome, turns[k].random)
    ensures Polled(c, start, turns[..k + 1], m', presented + [m.state.etag], waits + [delay])
  {
    var more := turns[..k + 1];
    assert more[..k] == turns[..k];
    forall i | 0 <= i <= k ensures (presented + [m.state.etag])[i] == RecordAll(c, start, more[..i]).state.etag {
      if i < k {
        assert more[..i] == turns[..k][..i];
      }
    }
  }

  /** The fetch in which the cancellation is noticed has presented one ETag more. */
  lemma PolledAtLast(c: Settings, start: Memory, turns: seq<Turn>, m: Memory, presented: seq<string>, waits: seq<int>)
    requires Polled(c, start, turns, m, presented, waits)
    ensures Presents(c, start, turns, presented + [m.state.etag])
  {
    assert turns[..|turns|] == turns;
  }

  class Client {
    const settings: Settings
    const cache: FileCache?

    var snapshot: Option<Snapshot>

    var lastFetchAt: Option<Instant>
    var lastFetchStatus: FetchStatus
    var lastRejection: Option<Rejection>
    var etag: string
    var consecutiveFailures: nat
    var cacheState: CacheState

    var served: nat
    var fallbackNoSnapshot: nat
    var fallbackUnknownFlag: nat
    var fallbackKindMismatch: nat
    var fallbackNoValue: nat

    // How often each one-shot channel has been closed.
    var networkReady: nat
    var firstAttempt: nat
    var done: nat

    ghost predicate Valid()
      reads this
    {
      settings.hasCache <==> cache != null
    }

    ghost function View(): Memory
      reads this, cache
    {
      Memory(
        snapshot,
        ClientState(lastFetchAt, lastFetchStatus, lastRejection, etag, consecutiveFailures, cacheState),
        networkReady,
        if cache == null then Disk(None, map[], 0) else cache.View())
    }

    ghost function Counters(): Counters
      reads this
    {
      Recording.Counters(served, fallbackNoSnapshot, fallbackUnknownFlag, fallbackKindMismatch, fallbackNoValue)
    }

    constructor (settings: Settings, cache: FileCache?)
      requires settings.hasCache <==> cache != null
      ensures Valid() && this.settings == settings && this.cache == cache
      ensures View() == FreshMemory(settings, if cache == null then Disk(None, map[], 0) else cache.View())
      ensures Counters() == ZERO_COUNTERS && firstAttempt == 0 && done == 0
    {
      this.settings, this.cache := settings, cache;
      snapshot, networkReady, firstAttempt, done := None, 0, 0, 0;
      lastFetchAt, lastFetchStatus, lastRejection, etag, consecutiveFailures := None, NeverFetched, None, "", 0;
      cacheState := if settings.hasCache then CacheEmpty else CacheDisabled;
      served, fallbackNoSnapshot, fallbackUnknownFlag, fallbackKindMismatch, fallbackNoValue := 0, 0, 0, 0, 0;
    }

    method LoadCache(readFails: bool, now: Instant)
      requires Valid()
      modifies this
      ensures Valid() && Counters() == old(Counters()) && firstAttempt == old(firstAttempt) && done == old(done)
      ensures View() == LoadEffect(settings, old(View()), readFails, now)
    {
      if cache == null {
        return;
      }
      var raw, ok := cache.Load(readFails);
      if !ok {
        return;
      }
      var verdict := VerifyEnvelope(settings.lib, raw, settings.policy, Expectations(settings.environment, now, false));
      if verdict.Rejected? {
        cacheState := CacheLoadFailed;
        return;
      }
      cacheState := CacheLoaded;
      snapshot := Some(SnapshotOf(settings.lib, verdict.payload, true));
    }

    method Publish(verdict: Verdict, fault: Fault)
      requires Valid() && verdict.Accepted?
      modifies this, cache
      ensures Valid() && Counters() == old(Counters()) && firstAttempt == old(firstAttempt) && done == old(done)
      ensures View() == AcceptEffect(settings, old(View()), verdict, fault)
    {
      snapshot := Some(SnapshotOf(settings.lib, verdict.payload, false));
      if cache != null {
        var stored := cache.Store(verdict.raw, fault);
        if stored {
          cacheState := CacheStored;
        } else {
          cacheState := CacheStoreFailed;
        }
      }
      if networkReady == 0 {
        networkReady := 1;
      }
    }

    /** The fetchSuccess case of `record`. */
    method RecordEnvelope(raw: string, tag: string, now: Instant, fault: Fault)
      requires Valid() && lastFetchAt.Some?
      modifies this, cache
      ensures Valid() && Counters() == old(Counters()) && firstAttempt == old(firstAttempt) && done == old(done)
      ensures View()
          == RecordEffect(settings, old(View()), Entry(Success(raw, tag), old(lastFetchAt.value), now), fault)
    {
      var verdict := VerifyEnvelope(settings.lib, raw, settings.policy, Expectations(settings.environment, now, true));
      if verdict.Rejected? {
        lastFetchStatus := StatusRejectedEnvelope;
        lastRejection := Some(verdict.code);
        consecutiveFailures := consecutiveFailures + 1;
        return;
      }
      lastFetchStatus := StatusFresh;
      lastRejection := None;
      etag := tag;
      consecutiveFailures := 0;
      Publish(verdict, fault);
    }

    /** The cases of `record` that brought no body. */
    method RecordBodiless(entry: Entry, fault: Fault)
      requires Valid() && !entry.outcome.Success? && lastFetchAt == Some(entry.fetchedAt)
      modifies this`lastFetchStatus, this`consecutiveFailures
      ensures View() == RecordEffect(settings, old(View()), entry, fault)
    {
      if entry.outcome.NotModified? {
        lastFetchStatus := StatusNotModified;
        consecutiveFailures := 0;
      } else {
        lastFetchStatus := FailureStatus(entry.outcome);
        consecutiveFailures := consecutiveFailures + 1;
      }
    }

    method Record(entry: Entry, fault: Fault)
      requires Valid()
      modifies this, cache
      ensures Valid() && Counters() == old(Counters()) && firstAttempt == old(firstAttempt) && done == old(done)
      ensures View() == RecordEffect(settings, old(View()), entry, fault)
    {
      lastFetchAt := Some(entry.fetchedAt);
      if entry.outcome.Success? {
        RecordEnvelope(entry.outcome.raw, entry.outcome.etag, entry.judgedAt, fault);
      } else {
        RecordBodiless(entry, fault);
      }
    }

    /** One turn of the poll loop, from the fetch's return to the choice of the wait. */
    method TakeTurn(turn: Turn, first: bool) returns (delay: int)
      requires Valid()
      modifies this, cache
      ensures Valid() && Counters() == old(Counters())
      ensures firstAttempt == old(firstAttempt) + (if first then 1 else 0) && done == old(done)
      ensures View() == RecordEffect(settings, old(View()), turn.entry, turn.fault)
      ensures delay == WaitAfter(settings, View().state.consecutiveFailures, turn.entry.outcome, turn.random)
    {
      Record(turn.entry, turn.fault);
      if first {
        firstAttempt := firstAttempt + 1;
      }
      if consecutiveFailures == 0 {
        delay := PollDelay(settings.interval, turn.random);
      } else {
        delay := RetryDelayWithServerHint(RetryAfterSeconds(turn.entry.outcome), consecutiveFailures, turn.random);
      }
    }

    /** On the way out of the loop, the first attempt counts as over, and `done` is closed. */
    method Leave(first: bool)
      modifies this`firstAttempt, this`done
      ensures firstAttempt == old(firstAttempt) + (if first then 1 else 0) && done == old(done) + 1
    {
      if first {
        firstAttempt := firstAttempt + 1;
      }
      done := done + 1;
    }

    /** The poll loop from its launch until its context is cancelled: after all the turns of the
        script, in the sleep that follows the last one or in the next fetch. */
    method Poll(script: seq<Turn>, inSleep: bool) returns (presented: seq<string>, waits: seq<int>)
      requires Valid() && (inSleep ==> script != [])
      modifies this, cache
      ensures Valid() && Counters() == old(Counters()) && firstAttempt == old(firstAttempt) + 1 && done == old(done) + 1
      ensures View() == RecordAll(settings, old(View()), script)
      ensures waits == Waits(settings, old(View()), script)
      ensures |presented| == |script| + (if inSleep then 0 else 1) && Presents(settings, old(View()), script, presented)
    {
      ghost var start := View();
      presented, waits := [], [];
      var first := true;
      for k := 0 to |script|
        invariant Valid() && Counters() == old(Counters()) && (first <==> k == 0)
        invariant firstAttempt == old(firstAttempt) + (if first then 0 else 1) && done == old(done)
        invariant Polled(settings, start, script[..k], View(), presented, waits)
      {
        ghost var m := View();
        var sent := etag;
        var delay := TakeTurn(script[k], first);
        PolledOnce(settings, start, script, k, m, View(), presented, waits, delay);
        presented, waits, first := presented + [sent], waits + [delay], false;
      }
      assert script[..|script|] == script;
      PolledAtLast(settings, start, script, View(), presented, waits);
      if !inSleep {
        presented := presented + [etag];
      }
      Leave(first);
    }

    /** The getters' shared path. */
    method Value(q: Query) returns (answer: Answer)
      modifies this`served, this`fallbackNoSnapshot, this`fallbackUnknownFlag, this`fallbackKindMismatch,
               this`fallbackNoValue
      ensures answer == Resolve(settings.lib, snapshot, q)
      ensures Counters() == CountAnswer(old(Counters()), answer)
    {
      if snapshot.None? {
        fallbackNoSnapshot := Bump(fallbackNoSnapshot);
        return NoSnapshot;
      }
      if q.flagKey !in snapshot.value.flags {
        fallbackUnknownFlag := Bump(fallbackUnknownFlag);
        return UnknownFlag;
      }
      var config := snapshot.value.flags[q.flagKey];
      if config.kind != q.kind {
        fallbackKindMismatch := Bump(fallbackKindMismatch);
        return KindMismatch;
      }
      var result, hashes := Evaluator.EvaluateFlag(settings.lib, config, q.tags, q.contextKey, q.flagKey);
      if result.None? {
        fallbackNoValue := Bump(fallbackNoValue);
        return NoValue;
      }
      served := Bump(served);
      return Served(result.value);
    }

    /** The type assertion in each typed getter cannot fail: the caller gets the evaluated value
        whenever there is one of that kind, and the fallback exactly otherwise. */
    method GetBool(flagKey: string, contextKey: string, tags: Evaluator.Tags, fallback: bool) returns (r: bool)
      modifies this`served, this`fallbackNoSnapshot, this`fallbackUnknownFlag, this`fallbackKindMismatch,
               this`fallbackNoValue
      ensures var a := Resolve(settings.lib, snapshot, Query(flagKey, contextKey, tags, "boolean"));
              && Counters() == CountAnswer(old(Counters()), a)
              && (if a.Served? then a == Served(Bool(r)) else r == fallback)
    {
      var answer := Value(Query(flagKey, contextKey, tags, KIND_BOOLEAN));
      if !answer.Served? {
        return fallback;
      }
      assert answer.value.Bool?;
      return answer.value.b;
    }

    method GetString(flagKey: string, contextKey: string, tags: Evaluator.Tags, fallback: string) returns (r: string)
      modifies this`served, this`fallbackNoSnapshot, this`fallbackUnknownFlag, this`fallbackKindMismatch,
               this`fallbackNoValue
      ensures var a := Resolve(settings.lib, snapshot, Query(flagKey, contextKey, tags, "string"));
              && Counters() == CountAnswer(old(Counters()), a)
              && (if a.Served? then a == Served(Str(r)) else r == fallback)
    {
      var answer := Value(Query(flagKey, contextKey, tags, KIND_STRING));
      if !answer.Served? {
        return fallback;
      }
      assert answer.value.Str?;
      return answer.value.s;
    }

    method GetNumber(flagKey: string, contextKey: string, tags: Evaluator.Tags, fallback: real) returns (r: real)
      modifies this`served, this`fallbackNoSnapshot, this`fallbackUnknownFlag, this`fallbackKindMismatch,
               this`fallbackNoValue
      ensures var a := Resolve(settings.lib, snapshot, Query(flagKey, contextKey, tags, "number"));
              && Counters() == CountAnswer(old(Counters()), a)
              && (if a.Served? then a == Served(Num(r)) else r == fallback)
    {
      var answer := Value(Query(flagKey, contextKey, tags, KIND_NUMBER));
      if !answer.Served? {
        return fallback;
      }
      assert answer.value.Num?;
      return answer.value.n;
    }
  }
}

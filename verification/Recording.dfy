/** What a client remembers (client.go, snapshot.go): the published snapshot, the locked state
    record, and how one fetch outcome changes the latter. */
module Recording {
  import opened Wrappers
  import opened Ruleset
  import opened Verifier
  import opened Evaluator

  const MAX_RESPONSE_BYTES: nat := 0x10_0000
  const ZERO_TIME: Instant := 0

  /** What `New` resolved. `hasCache` is a non-empty CachePath. */
  datatype Settings = Settings(
    lib: Library, environment: string, policy: SignaturePolicy, hasCache: bool, interval: int)

  datatype Snapshot = Snapshot(flags: Flags, issuedAt: Instant, fromCache: bool)

  function SnapshotOf(lib: Library, payload: RulesetPayload, fromCache: bool): Snapshot {
    var issuedAt := lib.parseRfc3339(payload.issuedAt);
    Snapshot(payload.flags, if issuedAt.Some? then issuedAt.value else ZERO_TIME, fromCache)
  }

  datatype FetchOutcome =
    | Success(raw: string, etag: string)
    | NotModified
    | Unauthorized
    | RateLimited(retryAfterSeconds: nat)
    | ServerError
    | UnexpectedStatus
    | TransportError
    | ResponseTooLarge

  datatype FetchStatus =
    | NeverFetched | StatusFresh | StatusNotModified | StatusRejectedEnvelope | StatusUnauthorized | StatusRateLimited
    | StatusServerError | StatusUnexpectedStatus | StatusTransportError | StatusResponseTooLarge

  datatype CacheState = CacheDisabled | CacheEmpty | CacheLoaded | CacheLoadFailed | CacheStored | CacheStoreFailed

  datatype ClientState = ClientState(
    lastFetchAt: Option<Instant>, lastFetchStatus: FetchStatus, lastRejection: Option<Rejection>,
    etag: string, consecutiveFailures: nat, cacheState: CacheState)

  function FreshState(c: Settings): ClientState {
    ClientState(None, NeverFetched, None, "", 0, if c.hasCache then CacheEmpty else CacheDisabled)
  }

  function RetryAfterSeconds(outcome: FetchOutcome): nat {
    if outcome.RateLimited? then outcome.retryAfterSeconds else 0
  }

  /** One recorded outcome with the two clock readings `record` takes. */
  datatype Entry = Entry(outcome: FetchOutcome, fetchedAt: Instant, judgedAt: Instant)

  function LiveExpectations(c: Settings, now: Instant): Expectations { Expectations(c.environment, now, true) }

  function CacheExpectations(c: Settings, now: Instant): Expectations { Expectations(c.environment, now, false) }

  function Judge(c: Settings, entry: Entry): Verdict
    requires entry.outcome.Success?
  {
    VerifyEnvelope(c.lib, entry.outcome.raw, c.policy, LiveExpectations(c, entry.judgedAt))
  }

  predicate IsAccepted(c: Settings, entry: Entry) { entry.outcome.Success? && Judge(c, entry).Accepted? }

  /** An entry is accepted exactly when its body passes every check at the clock reading taken for it,
      expiry included. */
  lemma AcceptedAtItsClock(c: Settings, entry: Entry)
    ensures IsAccepted(c, entry) <==>
              entry.outcome.Success? && exists envelope, bytes, payload ::
                Acceptable(c.lib, entry.outcome.raw, c.policy, Expectations(c.environment, entry.judgedAt, true),
                           envelope, bytes, payload)
  {
    if entry.outcome.Success? {
      var raw, wanted := entry.outcome.raw, Expectations(c.environment, entry.judgedAt, true);
      if IsAccepted(c, entry) {
        VerdictCharacterised(c.lib, raw, c.policy, wanted);
        AcceptanceCharacterised(c.lib, raw, c.policy, wanted, Judge(c, entry).payload);
      }
      forall envelope, bytes, payload | Acceptable(c.lib, raw, c.policy, wanted, envelope, bytes, payload)
        ensures IsAccepted(c, entry)
      {
        AcceptanceCharacterised(c.lib, raw, c.policy, wanted, payload);
      }
    }
  }

  predicate IsRejected(c: Settings, entry: Entry) { entry.outcome.Success? && Judge(c, entry).Rejected? }

  predicate IsHealthy(c: Settings, entry: Entry) { IsAccepted(c, entry) || entry.outcome.NotModified? }

  /** How each failed fetch is named on Diagnostics. */
  function FailureStatus(outcome: FetchOutcome): FetchStatus
    requires !outcome.Success? && !outcome.NotModified?
  {
    match outcome
    case Unauthorized => StatusUnauthorized
    case RateLimited(_) => StatusRateLimited
    case ServerError => StatusServerError
    case ResponseTooLarge => StatusResponseTooLarge
    case UnexpectedStatus => StatusUnexpectedStatus
    case TransportError => StatusTransportError
  }

  /** What `record` does to the state record, the cache state aside. */
  function RecordState(c: Settings, state: ClientState, entry: Entry): ClientState {
    var s := state.(lastFetchAt := Some(entry.fetchedAt));
    var failed := s.(consecutiveFailures := s.consecutiveFailures + 1);
    match entry.outcome
    case Success(_, etag) =>
      (match Judge(c, entry)
       case Rejected(code) => failed.(lastFetchStatus := StatusRejectedEnvelope, lastRejection := Some(code))
       case Accepted(_, _) =>
         s.(lastFetchStatus := StatusFresh, lastRejection := None, etag := etag, consecutiveFailures := 0))
    case NotModified => s.(lastFetchStatus := StatusNotModified, consecutiveFailures := 0)
    case _ => failed.(lastFetchStatus := FailureStatus(entry.outcome))
  }

  // ---------------------------------------------------------------- getters

  datatype Query = Query(flagKey: string, contextKey: string, tags: Tags, kind: string)

  datatype Answer = Served(value: Value) | NoSnapshot | UnknownFlag | KindMismatch | NoValue

  /** The getters' shared path: one snapshot, one evaluation, or one reason to fall back. */
  function Resolve(lib: Library, snapshot: Option<Snapshot>, q: Query): (a: Answer)
    ensures a.Served? ==> snapshot.Some? && q.flagKey in snapshot.value.flags && HasKind(a.value, q.kind)
  {
    if snapshot.None? then NoSnapshot
    else if q.flagKey !in snapshot.value.flags then UnknownFlag
    else
      var config := snapshot.value.flags[q.flagKey];
      if config.kind != q.kind then KindMismatch
      else
        EvaluateIsFirstMatch(lib, config, q.tags, q.contextKey, q.flagKey);
        match Evaluate(lib, config, q.tags, q.contextKey, q.flagKey)
        case None => NoValue
        case Some(v) => Served(v)
  }

  /** Which of the five answers a getter gives, and the value when it gives one: the decoded serve
      of the first serving rule, else the decoded default. */
  lemma AnswerCharacterised(lib: Library, snapshot: Option<Snapshot>, q: Query)
    ensures var a := Resolve(lib, snapshot, q);
            var known := snapshot.Some? && q.flagKey in snapshot.value.flags;
            && (a.NoSnapshot? <==> snapshot.None?)
            && (a.UnknownFlag? <==> snapshot.Some? && q.flagKey !in snapshot.value.flags)
            && (a.KindMismatch? <==> known && snapshot.value.flags[q.flagKey].kind != q.kind)
            && (a.Served? || a.NoValue? <==> known && snapshot.value.flags[q.flagKey].kind == q.kind)
            && (a.Served? || a.NoValue? ==>
                  var config, b := snapshot.value.flags[q.flagKey], Bucket(lib, q.contextKey, q.flagKey);
                  var value := if a.Served? then Some(a.value) else None;
                  && (forall i: nat | FirstServing(lib, config.rules, q.kind, q.tags, b, i) ::
                        value == DecodeValue(lib, config.rules[i].serve, q.kind))
                  && ((forall i | 0 <= i < |config.rules| :: !Serves(lib, config.rules[i], q.kind, q.tags, b)) ==>
                        value == DecodeValue(lib, config.default, q.kind)))
  {
    if snapshot.Some? && q.flagKey in snapshot.value.flags {
      EvaluateIsFirstMatch(lib, snapshot.value.flags[q.flagKey], q.tags, q.contextKey, q.flagKey);
    }
  }

  /** The five resolution counters, each a wrapping 64-bit word. */
  datatype Counters = Counters(served: nat, noSnapshot: nat, unknownFlag: nat, kindMismatch: nat, noValue: nat)

  const ZERO_COUNTERS := Counters(0, 0, 0, 0, 0)

  function Bump(n: nat): nat { (n + 1) % UINT64 }

  function CountAnswer(k: Counters, a: Answer): Counters {
    match a
    case Served(_) => k.(served := Bump(k.served))
    case NoSnapshot => k.(noSnapshot := Bump(k.noSnapshot))
    case UnknownFlag => k.(unknownFlag := Bump(k.unknownFlag))
    case KindMismatch => k.(kindMismatch := Bump(k.kindMismatch))
    case NoValue => k.(noValue := Bump(k.noValue))
  }

  // ------------------------------------------------- a whole history of outcomes

  function Replay(c: Settings, history: seq<Entry>): ClientState {
    if history == [] then FreshState(c)
    else RecordState(c, Replay(c, history[..|history| - 1]), history[|history| - 1])
  }

  datatype Sort = Healthy | Accepting | Rejecting

  predicate Is(c: Settings, entry: Entry, sort: Sort) {
    match sort
    case Healthy => IsHealthy(c, entry)
    case Accepting => IsAccepted(c, entry)
    case Rejecting => IsRejected(c, entry)
  }

  /** The index of the last entry of that sort, -1 when there is none. */
  function LastOf(c: Settings, history: seq<Entry>, sort: Sort): (i: int)
    ensures -1 <= i < |history|
    ensures i >= 0 ==> Is(c, history[i], sort)
    ensures forall j | i < j < |history| :: !Is(c, history[j], sort)
  {
    var n := |history| - 1;
    if n < 0 then -1
    else if Is(c, history[n], sort) then n
    else
      var i := LastOf(c, history[..n], sort);
      assert forall j | i < j < n :: !Is(c, history[..n][j], sort);
      i
  }

  /** The status shown tells the last outcome, and whether it was accepted. */
  predicate StatusTells(c: Settings, status: FetchStatus, history: seq<Entry>) {
    && (status == NeverFetched <==> history == [])
    && (history != [] ==>
          var last := history[|history| - 1];
          && (status == StatusFresh <==> IsAccepted(c, last))
          && (status == StatusRejectedEnvelope <==> IsRejected(c, last))
          && (status == StatusNotModified <==> last.outcome == NotModified)
          && (status == StatusUnauthorized <==> last.outcome == Unauthorized)
          && (status == StatusRateLimited <==> last.outcome.RateLimited?)
          && (status == StatusServerError <==> last.outcome == ServerError)
          && (status == StatusUnexpectedStatus <==> last.outcome == UnexpectedStatus)
          && (status == StatusTransportError <==> last.outcome == TransportError)
          && (status == StatusResponseTooLarge <==> last.outcome == ResponseTooLarge))
  }

  /** The state record after any history, read off the history without replaying it: the failure
      count is the length of the longest suffix with no acceptance and no 304; the ETag is that
      of the last acceptance; the rejection shown is that of the last rejection, if it came after
      the last acceptance. A 304 or another failure clears nothing. */
  lemma {:induction false} HistoryCharacterised(c: Settings, history: seq<Entry>)
    ensures var s := Replay(c, history);
            var n := |history| - 1;
            var healthy, accepted, rejected :=
              LastOf(c, history, Healthy), LastOf(c, history, Accepting), LastOf(c, history, Rejecting);
            && s.consecutiveFailures == n - healthy
            && s.etag == (if accepted < 0 then "" else history[accepted].outcome.etag)
            && s.lastRejection == (if rejected > accepted then Some(Judge(c, history[rejected]).code) else None)
            && s.lastFetchAt == (if n < 0 then None else Some(history[n].fetchedAt))
            && (n >= 0 ==> (s.lastFetchStatus == StatusFresh <==> accepted == n))
            && (n >= 0 ==> (s.lastFetchStatus == StatusRejectedEnvelope <==> rejected == n))
            && StatusTells(c, s.lastFetchStatus, history)
            && s.cacheState == (if c.hasCache then CacheEmpty else CacheDisabled)
  {
    StatusIsOfLast(c, history);
    if history != [] {
      HistoryCharacterised(c, history[..|history| - 1]);
    }
  }

  lemma StatusIsOfLast(c: Settings, history: seq<Entry>)
    ensures StatusTells(c, Replay(c, history).lastFetchStatus, history)
  {
  }

  /** A rejection is documented to show only while the status is rejectedEnvelope. It shows beside
      another status exactly when some outcome that was no acceptance followed the last rejection. */
  lemma {:induction false} StaleRejection(c: Settings, history: seq<Entry>)
    ensures var s := Replay(c, history);
            var accepted, rejected := LastOf(c, history, Accepting), LastOf(c, history, Rejecting);
            s.lastRejection.Some? && s.lastFetchStatus != StatusRejectedEnvelope
            <==> accepted < rejected < |history| - 1
  {
    HistoryCharacterised(c, history);
  }

  /** Settings under which no body is an envelope. */
  const STRICT: Settings :=
    Settings(
      Library(s => s, s => None, s => None, s => None, s => None, s => None, s => None, s => 0,
              (k, m, g) => false, s => None),
      "dev", SignaturePolicy(true, true, map[]), false, 30_000_000_000)

  /** Such a history: a refused body, then a 304. */
  const REFUSED_THEN_UNCHANGED: seq<Entry> := [Entry(Success("", ""), 0, 0), Entry(NotModified, 1, 1)]

  lemma StaleRejectionHappens()
    ensures var s := Replay(STRICT, REFUSED_THEN_UNCHANGED);
            s.lastRejection == Some(MalformedEnvelope) && s.lastFetchStatus == StatusNotModified
  {
    var h := REFUSED_THEN_UNCHANGED;
    assert h[..|h| - 1] == [h[0]] && h[..|h| - 1][..0] == [];
    assert IsRejected(STRICT, h[0]);
  }
}

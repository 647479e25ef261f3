/** Conditional polls: which ruleset the presented ETag stands for, and what a 304 then means. */
module Coherence {
  import opened Wrappers
  import opened Ruleset
  import opened Verifier
  import opened Recording
  import opened FileCache
  import opened Protocol
  import opened Invariants

  /** While a fetch is out, the validator it presented is still the one on record, and the server's
      present body is the last of those it has had in the meantime. */
  ghost predicate Presented(s: System) {
    s.poller.Fetching? ==>
      s.poller.sent == s.mem.state.etag && s.current != [] && s.current[|s.current| - 1] == s.server
  }

  lemma PresentedStart(c: Settings, s: System, t: Thread, k: CallStep)
    requires Core(c, s) && Presented(s) && StartEnabled(s, At(s.callers, t), k)
    ensures Presented(DoStart(c, s, t, k))
  {
    assert InStart(At(s.callers, t)) ==> s.ctl.startOnce == Running(t);
  }

  lemma PresentedRecord(c: Settings, s: System, p: PollStep)
    requires RecordEnabled(s.poller, s.mem.disk, p)
    ensures Presented(DoRecord(c, s, p))
  {
  }

  lemma PresentedPoll(c: Settings, s: System, p: PollStep)
    requires Presented(s) && PollEnabled(s, p)
    ensures Presented(DoPoll(c, s, p))
  {
    if InFetch(s.poller) {
      assert Presented(DoFetch(s, p));
    } else if InRecord(s.poller) {
      PresentedRecord(c, s, p);
    } else {
      assert !DoRest(c, s, p).poller.Fetching?;
    }
  }

  lemma PresentedElsewhere(c: Settings, s: System, t: Thread, k: CallStep)
    requires Presented(s) && CallEnabled(s, t, k) && !Starting(At(s.callers, t))
    ensures Presented(DoCall(c, s, t, k))
  {
    assert DoCall(c, s, t, k).poller == s.poller && DoCall(c, s, t, k).mem == s.mem;
  }

  lemma PresentedStep(c: Settings, s: System, step: Step)
    requires Core(c, s) && Presented(s) && Enabled(s, step)
    ensures Presented(Do(c, s, step))
  {
    match step
    case Poll(p) => PresentedPoll(c, s, p);
    case Call(t, k) =>
      if Starting(At(s.callers, t)) {
        PresentedStart(c, s, t, k);
      } else {
        PresentedElsewhere(c, s, t, k);
      }
    case _ =>
  }

  lemma {:induction false} PresentedRun(c: Settings, s: System, run: seq<Step>)
    requires Core(c, s) && Presented(s) && IsRun(c, s, run)
    ensures Core(c, Exec(c, s, run)) && Presented(Exec(c, s, run))
    decreases |run|
  {
    if run != [] {
      CoreStep(c, s, run[0]);
      PresentedStep(c, s, run[0]);
      PresentedRun(c, Do(c, s, run[0]), run[1..]);
    }
  }

  lemma PresentedTag(c: Settings, s: System)
    requires Core(c, s) && Presented(s) && s.poller.Fetching?
    ensures s.poller.sent != "" ==>
              && Latest(s.hist.accepted).Some?
              && s.poller.sent == Latest(s.hist.accepted).value.etag
              && s.mem.snapshot == Some(SnapshotOf(c.lib, Latest(s.hist.accepted).value.payload, false))
              && AcceptedLive(c, Latest(s.hist.accepted).value)
    ensures s.hist.accepted == [] || Latest(s.hist.accepted).value.etag == "" ==> s.poller.sent == ""
  {
  }

  /** Whenever a poll presents a non-empty ETag, the held snapshot is the network ruleset decoded from
      the very response that carried it. A cache load, or a response without one, leaves it empty. */
  lemma ConditionalPoll(c: Settings, s: System)
    requires Reachable(c, s) && s.poller.Fetching?
    ensures s.poller.sent != "" ==>
              && Latest(s.hist.accepted).Some?
              && s.poller.sent == Latest(s.hist.accepted).value.etag
              && s.mem.snapshot == Some(SnapshotOf(c.lib, Latest(s.hist.accepted).value.payload, false))
              && AcceptedLive(c, Latest(s.hist.accepted).value)
    ensures s.hist.accepted == [] || Latest(s.hist.accepted).value.etag == "" ==> s.poller.sent == ""
  {
    var file: Option<string>, server: string, run: seq<Step> :|
      IsRun(c, Initial(c, file, server), run) && Exec(c, Initial(c, file, server), run) == s;
    CoreBoot(c, Disk(file, map[], 0), file, [], server);
    PresentedRun(c, Initial(c, file, server), run);
    PresentedTag(c, s);
  }

  // ------------------------------------------------- against an honest server

  /** The server's validators (RFC 9110, sections 8.8.3 and 13.1.2). */
  type Tagger = string -> string

  /** The ruleset a body spells, whatever its signature or age. */
  function Decoded(lib: Library, raw: string): Option<RulesetPayload> {
    match ParseEnvelope(lib, raw)
    case None => None
    case Some((_, bytes)) => ParsePayload(lib, bytes)
  }

  /** Equal non-empty tags mean equal payloads. */
  ghost predicate TagsIdentify(lib: Library, tag: Tagger) {
    forall r, r' :: tag(r) == tag(r') && tag(r) != "" ==> Decoded(lib, r) == Decoded(lib, r')
  }

  /** A 200 carries its body's tag, or none; a 304 is sent only when the presented tag is that of the
      body current at the server when it answers (RFC 9110, section 15.4.5), which is some instant
      between the fetch going out and its return: the server may publish while the answer travels. */
  ghost predicate HonestStep(tag: Tagger, s: System, step: Step) {
    step.Poll? && step.p.FetchReturns? && s.poller.Fetching? ==>
      match step.p.got
      case Success(raw, etag) => etag == "" || etag == tag(raw)
      case NotModified => s.poller.sent != "" && exists body :: body in s.current && s.poller.sent == tag(body)
      case _ => true
  }

  ghost predicate HonestRun(c: Settings, tag: Tagger, s: System, run: seq<Step>)
    requires IsRun(c, s, run)
    decreases |run|
  {
    run == [] || (HonestStep(tag, s, run[0]) && HonestRun(c, tag, Do(c, s, run[0]), run[1..]))
  }

  ghost predicate OutcomeTagged(tag: Tagger, outcome: FetchOutcome) {
    outcome.Success? ==> outcome.etag == "" || outcome.etag == tag(outcome.raw)
  }

  ghost predicate Tagged(tag: Tagger, s: System) {
    && (s.poller.Fetched? || s.poller.Recording? ==> OutcomeTagged(tag, s.poller.outcome))
    && forall i | 0 <= i < |s.hist.accepted| ::
         s.hist.accepted[i].etag == "" || s.hist.accepted[i].etag == tag(s.hist.accepted[i].raw)
  }

  lemma TaggedBeginRecord(c: Settings, tag: Tagger, s: System, entry: Entry)
    requires Tagged(tag, s) && s.poller.Recording? && entry.outcome == s.poller.outcome
    ensures Tagged(tag, DoBeginRecord(c, s, entry))
  {
  }

  lemma TaggedStep(c: Settings, tag: Tagger, s: System, step: Step)
    requires Tagged(tag, s) && Enabled(s, step) && HonestStep(tag, s, step)
    ensures Tagged(tag, Do(c, s, step))
  {
    if step.Poll? && step.p.BeginRecord? {
      TaggedBeginRecord(c, tag, s, Entry(s.poller.outcome, step.p.fetchedAt, step.p.judgedAt));
    }
  }

  lemma {:induction false} HonestRunKeeps(c: Settings, tag: Tagger, s: System, run: seq<Step>)
    requires Core(c, s) && Presented(s) && Tagged(tag, s) && IsRun(c, s, run) && HonestRun(c, tag, s, run)
    ensures var s' := Exec(c, s, run); Core(c, s') && Presented(s') && Tagged(tag, s')
    decreases |run|
  {
    if run != [] {
      CoreStep(c, s, run[0]);
      PresentedStep(c, s, run[0]);
      TaggedStep(c, tag, s, run[0]);
      HonestRunKeeps(c, tag, Do(c, s, run[0]), run[1..]);
    }
  }

  /** The client holds exactly the ruleset this body spells, as a live one. */
  ghost predicate HoldsBody(c: Settings, s: System, body: string) {
    Decoded(c.lib, body).Some? && s.mem.snapshot == Some(SnapshotOf(c.lib, Decoded(c.lib, body).value, false))
  }

  /** What a 304 received now would tell this client. Some body that was the server's at an instant since
      the fetch went out has the tag presented, and any that has it spells the very ruleset held. So
      does the server's present body, unless one with another tag was published in between. */
  ghost predicate ToldCurrent(c: Settings, tag: Tagger, s: System)
    requires s.poller.Fetching?
  {
    && (exists body :: body in s.current && tag(body) == s.poller.sent)
    && (forall body | body in s.current && tag(body) == s.poller.sent :: HoldsBody(c, s, body))
    && s.server in s.current
    && (|s.current| == 1 || tag(s.server) == s.poller.sent ==> HoldsBody(c, s, s.server))
  }

  /** Conditional-poll coherence. After any run against a server whose 304 means "your tag is current"
      and whose tags identify payloads, a client told 304 holds exactly the ruleset that was the
      server's at the instant the server said so, between the fetch going out and its return. */
  lemma NotModifiedMeansCurrent(c: Settings, tag: Tagger, file: Option<string>, server: string, run: seq<Step>)
    requires TagsIdentify(c.lib, tag)
    requires IsRun(c, Initial(c, file, server), run) && HonestRun(c, tag, Initial(c, file, server), run)
    ensures var s := Exec(c, Initial(c, file, server), run);
            s.poller.Fetching? && HonestStep(tag, s, Poll(FetchReturns(NotModified))) ==>
              ToldCurrent(c, tag, s) && Do(c, s, Poll(FetchReturns(NotModified))).mem == s.mem
  {
    var s := Exec(c, Initial(c, file, server), run);
    CoreBoot(c, Disk(file, map[], 0), file, [], server);
    HonestRunKeeps(c, tag, Initial(c, file, server), run);
    if s.poller.Fetching? && HonestStep(tag, s, Poll(FetchReturns(NotModified))) {
      HonestAnswer(c, tag, s);
    }
  }

  lemma HonestAnswer(c: Settings, tag: Tagger, s: System)
    requires TagsIdentify(c.lib, tag) && Core(c, s) && Presented(s) && Tagged(tag, s)
    requires s.poller.Fetching? && HonestStep(tag, s, Poll(FetchReturns(NotModified)))
    ensures ToldCurrent(c, tag, s)
  {
    assert s.current[|s.current| - 1] == s.server;
    forall body | body in s.current && tag(body) == s.poller.sent ensures HoldsBody(c, s, body) {
      SameTagHolds(c, tag, s, body);
    }
  }

  lemma SameTagHolds(c: Settings, tag: Tagger, s: System, body: string)
    requires TagsIdentify(c.lib, tag) && Core(c, s) && Presented(s) && Tagged(tag, s)
    requires s.poller.Fetching? && s.poller.sent != "" && tag(body) == s.poller.sent
    ensures HoldsBody(c, s, body)
  {
    PresentedTag(c, s);
    AcceptedDecodes(c, Latest(s.hist.accepted).value);
  }

  lemma AcceptedDecodes(c: Settings, a: Acceptance)
    requires AcceptedLive(c, a)
    ensures Decoded(c.lib, a.raw) == Some(a.payload)
  {
  }

  /** Recording a 304 keeps that ruleset and that validator, and resets the failure count. */
  lemma NotModifiedKeeps(c: Settings, s: System, fetchedAt: Instant, judgedAt: Instant)
    requires s.poller.Recording? && s.poller.outcome.NotModified?
    ensures var m, m' := s.mem, DoBeginRecord(c, s, Entry(NotModified, fetchedAt, judgedAt)).mem;
            m'.snapshot == m.snapshot && m'.state.etag == m.state.etag && m'.disk == m.disk
            && m'.state.consecutiveFailures == 0
  {
  }

  // ------------------------------------------------- for how long

  /** The server publishes nothing new and answers every 200 with its current body; the process lives. */
  ghost predicate Steady(step: Step, body: string) {
    && !step.Crash? && !step.ServerPublishes?
    && (step.Poll? && step.p.FetchReturns? && step.p.got.Success? ==> step.p.got.raw == body)
  }

  ghost predicate SteadyRun(run: seq<Step>, body: string) { forall i | 0 <= i < |run| :: Steady(run[i], body) }

  /** The running client holds the ruleset `body` spells, and so does any success on its way in. */
  ghost predicate Current(c: Settings, s: System, body: string) {
    && !s.poller.NotLaunched?
    && HoldsBody(c, s, body)
    && ((s.poller.Fetched? || s.poller.Recording?) && s.poller.outcome.Success? ==> s.poller.outcome.raw == body)
    && (s.poller.Publishing? ==> s.poller.accepted.payload == Decoded(c.lib, body).value)
  }

  lemma CurrentBeginRecord(c: Settings, s: System, entry: Entry, body: string)
    requires Current(c, s, body) && s.poller.Recording? && entry.outcome == s.poller.outcome
    ensures Current(c, DoBeginRecord(c, s, entry), body)
  {
    if s.poller.outcome.NotModified? {
      NotModifiedKeeps(c, s, entry.fetchedAt, entry.judgedAt);
    }
  }

  lemma CurrentRecord(c: Settings, s: System, p: PollStep, body: string)
    requires Current(c, s, body) && RecordEnabled(s.poller, s.mem.disk, p)
    ensures Current(c, DoRecord(c, s, p), body)
  {
    if p.BeginRecord? {
      CurrentBeginRecord(c, s, Entry(s.poller.outcome, p.fetchedAt, p.judgedAt), body);
    }
  }

  lemma CurrentPoll(c: Settings, s: System, p: PollStep, body: string)
    requires Current(c, s, body) && PollEnabled(s, p) && Steady(Poll(p), body)
    ensures Current(c, DoPoll(c, s, p), body)
  {
    if InFetch(s.poller) {
      assert Current(c, DoFetch(s, p), body);
    } else if InRecord(s.poller) {
      CurrentRecord(c, s, p, body);
    } else {
      assert Current(c, DoRest(c, s, p), body);
    }
  }

  lemma {:induction false} CurrentRun(c: Settings, s: System, run: seq<Step>, body: string)
    requires Core(c, s) && Current(c, s, body) && IsRun(c, s, run) && SteadyRun(run, body)
    ensures Current(c, Exec(c, s, run), body)
    decreases |run|
  {
    if run != [] {
      var rest := run[1..];
      assert forall i | 0 <= i < |rest| :: rest[i] == run[i + 1];
      CoreStep(c, s, run[0]);
      if run[0].Poll? {
        CurrentPoll(c, s, run[0].p, body);
      } else {
        OthersStayOut(c, s, run[0]);
      }
      CurrentRun(c, Do(c, s, run[0]), rest, body);
    }
  }

  /** So a client told 304 while its tag is still the server's holds the server's ruleset through every
      later step of every interleaving, failed, rejected and repeated polls included, until the
      server publishes another one. */
  lemma CurrentUntilPublished(
    c: Settings, tag: Tagger, file: Option<string>, server: string, run: seq<Step>, more: seq<Step>)
    requires TagsIdentify(c.lib, tag)
    requires IsRun(c, Initial(c, file, server), run) && HonestRun(c, tag, Initial(c, file, server), run)
    requires var s := Exec(c, Initial(c, file, server), run);
             && s.poller.Fetching? && s.poller.sent != "" && s.poller.sent == tag(s.server)
             && IsRun(c, Do(c, s, Poll(FetchReturns(NotModified))), more) && SteadyRun(more, s.server)
    ensures var s := Exec(c, Initial(c, file, server), run);
            HoldsBody(c, Exec(c, Do(c, s, Poll(FetchReturns(NotModified))), more), s.server)
  {
    var s := Exec(c, Initial(c, file, server), run);
    CoreBoot(c, Disk(file, map[], 0), file, [], server);
    HonestRunKeeps(c, tag, Initial(c, file, server), run);
    SameTagHolds(c, tag, s, s.server);
    CoreStep(c, s, Poll(FetchReturns(NotModified)));
    CurrentRun(c, Do(c, s, Poll(FetchReturns(NotModified))), more, s.server);
  }
}

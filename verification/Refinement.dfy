/** The state machine's `record` and `loadCache`, run step by step without interruption, are the
    methods of the client object: both have the effect named in module Memory. */
module Refinement {
  import opened Wrappers
  import opened Ruleset
  import opened Verifier
  import opened Recording
  import opened FileCache
  import opened Memory
  import opened Protocol
  import opened Invariants
  import opened Backoff
  import opened Durability
  import opened Shutdown
  import opened StartOutcomes

  // ---------------------------------------------------------------- store

  /** The system calls a fault stands for. */
  function Syscalls(raw: string, fault: Fault): seq<Syscall> {
    if !Storable(raw) then [Create(true)]
    else
      match fault
      case CreateFault => [Create(false)]
      case WriteFault(written, removed) =>
        [Create(true)] + (if 0 < written < |raw| then [Write(written)] else []) + [WriteFails, Remove(removed)]
      case CloseFault(removed) => [Create(true), Write(|raw|), Close(false), Remove(removed)]
      case RenameFault(removed) => [Create(true), Write(|raw|), Close(true), Rename(false), Remove(removed)]
      case NoFault => [Create(true), Write(|raw|), Close(true), Rename(true)]
  }

  ghost predicate CanRun(p: Store, d: Disk, calls: seq<Syscall>)
    decreases |calls|
  {
    calls == [] ||
    (StoreCan(p, d, calls[0]) && var (p', d') := StoreStep(p, d, calls[0]); CanRun(p', d', calls[1..]))
  }

  ghost function RunCalls(p: Store, d: Disk, calls: seq<Syscall>): (Store, Disk)
    requires CanRun(p, d, calls)
    decreases |calls|
  {
    if calls == [] then (p, d)
    else
      var (p', d') := StoreStep(p, d, calls[0]);
      RunCalls(p', d', calls[1..])
  }

  lemma CallsCons(p: Store, d: Disk, call: Syscall, rest: seq<Syscall>)
    requires StoreCan(p, d, call)
    requires var (p', d') := StoreStep(p, d, call); CanRun(p', d', rest)
    ensures CanRun(p, d, [call] + rest)
    ensures RunCalls(p, d, [call] + rest) == var (p', d') := StoreStep(p, d, call); RunCalls(p', d', rest)
  {
    assert ([call] + rest)[1..] == rest;
  }

  /** Giving up: the temp file is removed, or the removal fails too. */
  lemma GiveUp(d: Disk, raw: string, temp: nat, removed: bool)
    ensures CanRun(Removing(raw, temp), d, [Remove(removed)])
    ensures RunCalls(Removing(raw, temp), d, [Remove(removed)])
         == (Finished(false), if removed then d.(temps := d.temps - {temp}) else d)
  {
    CallsCons(Removing(raw, temp), d, Remove(removed), []);
  }

  /** After the bytes are all written: close, rename, with or without a fault. */
  lemma WrittenRefines(d: Disk, raw: string, temp: nat, fault: Fault)
    requires temp in d.temps && (fault.NoFault? || fault.CloseFault? || fault.RenameFault?)
    ensures var calls := match fault
                         case CloseFault(removed) => [Close(false), Remove(removed)]
                         case RenameFault(removed) => [Close(true), Rename(false), Remove(removed)]
                         case _ => [Close(true), Rename(true)];
            && CanRun(Written(raw, temp), d, calls)
            && RunCalls(Written(raw, temp), d, calls)
            == (match fault
                case CloseFault(removed) => (Finished(false), if removed then d.(temps := d.temps - {temp}) else d)
                case RenameFault(removed) => (Finished(false), if removed then d.(temps := d.temps - {temp}) else d)
                case _ => (Finished(true), d.(file := Some(d.temps[temp]), temps := d.temps - {temp})))
  {
    match fault
    case CloseFault(removed) =>
      GiveUp(d, raw, temp, removed);
      CallsCons(Written(raw, temp), d, Close(false), [Remove(removed)]);
    case RenameFault(removed) =>
      GiveUp(d, raw, temp, removed);
      CallsCons(Closed(raw, temp), d, Rename(false), [Remove(removed)]);
      CallsCons(Written(raw, temp), d, Close(true), [Rename(false), Remove(removed)]);
    case _ =>
      CallsCons(Closed(raw, temp), d, Rename(true), []);
      CallsCons(Written(raw, temp), d, Close(true), [Rename(true)]);
  }

  lemma WriteFaultRefines(d: Disk, raw: string, temp: nat, written: nat, removed: bool)
    requires d.temps == d.temps[temp := ""] && raw != ""
    ensures var calls := (if 0 < written < |raw| then [Write(written)] else []) + [WriteFails, Remove(removed)];
            && CanRun(Writing(raw, temp, 0), d, calls)
            && RunCalls(Writing(raw, temp, 0), d, calls)
            == (Finished(false), d.(temps := if removed then d.temps - {temp}
                                             else d.temps[temp := raw[..if written < |raw| then written else 0]]))
  {
    if 0 < written < |raw| {
      var d1 := d.(temps := d.temps[temp := raw[..written]]);
      GiveUp(d1, raw, temp, removed);
      CallsCons(Writing(raw, temp, written), d1, WriteFails, [Remove(removed)]);
      CallsCons(Writing(raw, temp, 0), d, Write(written), [WriteFails, Remove(removed)]);
      assert d1.temps - {temp} == d.temps - {temp};
    } else {
      GiveUp(d, raw, temp, removed);
      CallsCons(Writing(raw, temp, 0), d, WriteFails, [Remove(removed)]);
      assert raw[..0] == "";
      assert [] + [WriteFails, Remove(removed)] == [WriteFails, Remove(removed)];
    }
  }

  /** The cache's `store`, fault by fault, is a run of its system calls. */
  lemma StoreRefines(d: Disk, raw: string, fault: Fault)
    requires FreshNames(d)
    ensures var calls := Syscalls(raw, fault);
            && CanRun(Opening(raw), d, calls)
            && RunCalls(Opening(raw), d, calls)
            == (Finished(StoreEffect(d, raw, fault).1), StoreEffect(d, raw, fault).0)
  {
    var temp := d.nextTemp;
    var d1 := Disk(d.file, d.temps[temp := ""], temp + 1);
    assert d1.temps - {temp} == d.temps - {temp};
    if !Storable(raw) {
      CallsCons(Opening(raw), d, Create(true), []);
    } else if fault.CreateFault? {
      CallsCons(Opening(raw), d, Create(false), []);
    } else if fault.WriteFault? {
      assert d1.temps == d1.temps[temp := ""];
      WriteFaultRefines(d1, raw, temp, fault.written, fault.removed);
      var rest := (if 0 < fault.written < |raw| then [Write(fault.written)] else [])
                  + [WriteFails, Remove(fault.removed)];
      CallsCons(Opening(raw), d, Create(true), rest);
      assert [Create(true)] + rest == Syscalls(raw, fault);
      var partial := raw[..if fault.written < |raw| then fault.written else 0];
      assert d1.temps[temp := partial] == d.temps[temp := partial];
    } else {
      FullWriteRefines(d, raw, fault);
    }
  }

  lemma FullWriteRefines(d: Disk, raw: string, fault: Fault)
    requires FreshNames(d) && Storable(raw) && !fault.CreateFault? && !fault.WriteFault?
    ensures var calls := Syscalls(raw, fault);
            && CanRun(Opening(raw), d, calls)
            && RunCalls(Opening(raw), d, calls)
            == (Finished(StoreEffect(d, raw, fault).1), StoreEffect(d, raw, fault).0)
  {
    var temp := d.nextTemp;
    var d1 := Disk(d.file, d.temps[temp := ""], temp + 1);
    var d2 := d1.(temps := d.temps[temp := raw]);
    assert raw[..|raw|] == raw && d1.temps[temp := raw] == d2.temps && d2.temps - {temp} == d.temps - {temp};
    WrittenRefines(d2, raw, temp, fault);
    var rest := match fault
                case CloseFault(removed) => [Close(false), Remove(removed)]
                case RenameFault(removed) => [Close(true), Rename(false), Remove(removed)]
                case _ => [Close(true), Rename(true)];
    CallsCons(Writing(raw, temp, 0), d1, Write(|raw|), rest);
    CallsCons(Opening(raw), d, Create(true), [Write(|raw|)] + rest);
    assert [Create(true)] + ([Write(|raw|)] + rest) == Syscalls(raw, fault);
  }

  // ---------------------------------------------------------------- record

  function StoreCalls(calls: seq<Syscall>): seq<Step> {
    if calls == [] then [] else [Poll(StoreCall(calls[0]))] + StoreCalls(calls[1..])
  }

  lemma {:induction false} StoreCallsRun(c: Settings, s: System, calls: seq<Syscall>)
    requires s.poller.Storing? && CanRun(s.poller.store, s.mem.disk, calls)
    ensures IsRun(c, s, StoreCalls(calls))
    ensures var s', (p, d) := Exec(c, s, StoreCalls(calls)), RunCalls(s.poller.store, s.mem.disk, calls);
            s'.mem == s.mem.(disk := d) && s'.poller == s.poller.(store := p)
            && s'.ctl == s.ctl && s'.hist.entries == s.hist.entries
    decreases |calls|
  {
    if calls != [] {
      var s1 := DoStoreCall(s, calls[0]);
      StoreCallsRun(c, s1, calls[1..]);
      RunCons(c, s, Poll(StoreCall(calls[0])), StoreCalls(calls[1..]));
    }
  }

  /** The end of the critical section: the ready channel. */
  lemma ReadyRefines(c: Settings, s: System) returns (run: seq<Step>)
    requires s.poller.CheckingReady?
    ensures IsRun(c, s, run)
    ensures var s' := Exec(c, s, run);
            && s'.poller == Recorded(s.poller.first, s.poller.outcome)
            && s'.mem == s.mem.(networkReady := if s.mem.networkReady > 0 then s.mem.networkReady else 1)
            && s'.ctl == s.ctl && s'.hist.entries == s.hist.entries
  {
    var s1 := DoRecord(c, s, CheckReady);
    if s.mem.networkReady > 0 {
      RunCons(c, s, Poll(CheckReady), []);
      run := [Poll(CheckReady)] + [];
    } else {
      RunCons(c, s1, Poll(CloseReady), []);
      run := [Poll(CloseReady)] + [];
      RunCons(c, s, Poll(CheckReady), run);
      run := [Poll(CheckReady)] + run;
    }
  }

  /** The cache part of the critical section. */
  lemma StoringRefines(c: Settings, s: System, fault: Fault) returns (run: seq<Step>)
    requires s.poller.Storing? && s.poller.store == Opening(s.poller.accepted.raw) && FreshNames(s.mem.disk)
    ensures IsRun(c, s, run)
    ensures var s', (disk, ok) := Exec(c, s, run), StoreEffect(s.mem.disk, s.poller.accepted.raw, fault);
            && s'.poller == CheckingReady(s.poller.first, s.poller.outcome)
            && s'.mem == s.mem.(disk := disk,
                                state := s.mem.state.(cacheState := if ok then CacheStored else CacheStoreFailed))
            && s'.ctl == s.ctl && s'.hist.entries == s.hist.entries
  {
    var calls := Syscalls(s.poller.accepted.raw, fault);
    StoreRefines(s.mem.disk, s.poller.accepted.raw, fault);
    StoreCallsRun(c, s, calls);
    var s1 := Exec(c, s, StoreCalls(calls));
    RunCons(c, s1, Poll(FinishStore), []);
    RunConcat(c, s, StoreCalls(calls), [Poll(FinishStore)] + []);
    run := StoreCalls(calls) + ([Poll(FinishStore)] + []);
  }

  lemma PublishRefines(c: Settings, s: System, fault: Fault) returns (run: seq<Step>)
    requires s.poller.Publishing? && FreshNames(s.mem.disk)
    ensures IsRun(c, s, run)
    ensures var s' := Exec(c, s, run);
            && s'.poller == Recorded(s.poller.first, s.poller.outcome)
            && s'.mem == AcceptEffect(c, s.mem, Accepted(s.poller.accepted.raw, s.poller.accepted.payload), fault)
            && s'.ctl == s.ctl && s'.hist.entries == s.hist.entries
  {
    var s1 := DoPublish(c, s);
    var store: seq<Step> := [];
    if c.hasCache {
      store := StoringRefines(c, s1, fault);
    }
    var ready := ReadyRefines(c, Exec(c, s1, store));
    RunConcat(c, s1, store, ready);
    RunCons(c, s, Poll(Publish), store + ready);
    run := [Poll(Publish)] + (store + ready);
  }

  /** `record` as a method has the effect of a run of the poller's steps through it, for every
      outcome, clock and fault. */
  lemma RecordRefines(c: Settings, s: System, entry: Entry, fault: Fault) returns (run: seq<Step>)
    requires s.poller.Recording? && s.poller.outcome == entry.outcome && FreshNames(s.mem.disk)
    ensures IsRun(c, s, run)
    ensures Exec(c, s, run).mem == RecordEffect(c, s.mem, entry, fault)
    ensures Exec(c, s, run).poller == Recorded(s.poller.first, s.poller.outcome)
    ensures Exec(c, s, run).ctl == s.ctl && Exec(c, s, run).hist.entries == s.hist.entries + [entry]
  {
    var s1 := DoBeginRecord(c, s, entry);
    var rest: seq<Step> := [];
    if IsAccepted(c, entry) {
      rest := PublishRefines(c, s1, fault);
    }
    RunCons(c, s, Poll(BeginRecord(entry.fetchedAt, entry.judgedAt)), rest);
    run := [Poll(BeginRecord(entry.fetchedAt, entry.judgedAt))] + rest;
  }

  /** `loadCache` as a method has the effect of the starting thread's steps through it. */
  lemma LoadRefines(c: Settings, s: System, t: Thread, readFails: bool, now: Instant) returns (run: seq<Step>)
    requires At(s.callers, t).LoadingFile?
    ensures IsRun(c, s, run)
    ensures Exec(c, s, run).mem == LoadEffect(c, s.mem, readFails, now)
    ensures At(Exec(c, s, run).callers, t) == SettingStop
  {
    var s1 := DoStart(c, s, t, LoadFile(readFails));
    run := [];
    if At(s1.callers, t).VerifyingFile? {
      var s2 := DoStart(c, s1, t, VerifyFile(now));
      if At(s2.callers, t).PublishingFile? {
        RunCons(c, s2, Call(t, PublishFile), []);
        run := [Call(t, PublishFile)] + [];
      }
      RunCons(c, s1, Call(t, VerifyFile(now)), run);
      run := [Call(t, VerifyFile(now))] + run;
    }
    RunCons(c, s, Call(t, LoadFile(readFails)), run);
    run := [Call(t, LoadFile(readFails))] + run;
  }

  // ---------------------------------------------------------------- every history happens

  /** One turn of the poll loop that brings this outcome at these clock readings. */
  lemma TurnHappens(c: Settings, s: System, entry: Entry) returns (run: seq<Step>)
    requires s.poller.Top? && !s.ctl.cancelled && FreshNames(s.mem.disk)
    ensures IsRun(c, s, run)
    ensures var s' := Exec(c, s, run);
            s'.poller == Top(false) && !s'.ctl.cancelled && s'.hist.entries == s.hist.entries + [entry]
  {
    var s1: System, more: seq<Step>;
    run, s1 := OneFetch(c, s, [], s, entry.outcome);
    more := RecordRefines(c, s1, entry, NoFault);
    RunConcat(c, s, run, more);
    run := run + more;
    var s2 := Exec(c, s, run);
    more := SleepHappens(c, s2);
    RunConcat(c, s, run, more);
    run := run + more;
  }

  lemma SleepHappens(c: Settings, s: System) returns (run: seq<Step>)
    requires s.poller.Recorded? && !s.ctl.cancelled
    ensures IsRun(c, s, run)
    ensures var s' := Exec(c, s, run); s'.poller == Top(false) && !s'.ctl.cancelled && s'.hist == s.hist
  {
    var s': System;
    run, s' := [], s;
    run, s' := Extend(c, s, run, s', Poll(CloseFirst));
    assert InRange(LOWEST);
    run, s' := Extend(c, s, run, s', Poll(ChooseDelay(LOWEST)));
    run, s' := Extend(c, s, run, s', Poll(TimerFires));
  }

  /** Every sequence of outcomes and clock readings is the history of some run, under any settings:
      what is proved of all histories is proved of nothing that cannot happen. */
  lemma {:induction false} EveryHistoryHappens(c: Settings, file: Option<string>, server: string, entries: seq<Entry>)
    returns (run: seq<Step>)
    ensures IsRun(c, Initial(c, file, server), run)
    ensures var s := Exec(c, Initial(c, file, server), run);
            s.hist.entries == entries && s.poller.Top? && !s.ctl.cancelled
    decreases |entries|
  {
    var s0, n := Initial(c, file, server), |entries| - 1;
    if entries == [] {
      run := NewcomerCanLaunch(c, s0);
      assert Reachable(c, Exec(c, s0, run));
      ReachableAttempts(c, Exec(c, s0, run));
    } else {
      run := EveryHistoryHappens(c, file, server, entries[..n]);
      var s := Exec(c, s0, run);
      assert Reachable(c, s);
      ReachableDurable(c, s);
      var more := TurnHappens(c, s, entries[n]);
      RunConcat(c, s0, run, more);
      run := run + more;
    }
  }

  // ------------------------------------------------- and conversely

  /** How far a store of `raw` that found the disk `d0` has got. */
  ghost predicate StorePassing(d0: Disk, raw: string, store: Store, d: Disk) {
    match store
    case Opening(r) => r == raw && d == d0
    case Writing(r, temp, written) => r == raw && written < |raw| && Littered(d0, raw, temp, written, d)
    case Written(r, temp) => r == raw && Littered(d0, raw, temp, |raw|, d)
    case Closed(r, temp) => r == raw && Littered(d0, raw, temp, |raw|, d)
    case Removing(r, temp) => r == raw && exists written: nat :: Littered(d0, raw, temp, written, d)
    case Finished(ok) => exists fault :: StoreEffect(d0, raw, fault) == (d, ok)
  }

  /** Only a temp file has been added, holding so many bytes of `raw`. */
  predicate Littered(d0: Disk, raw: string, temp: nat, written: nat, d: Disk) {
    Storable(raw) && temp == d0.nextTemp && written <= |raw|
    && d == Disk(d0.file, d0.temps[temp := raw[..written]], temp + 1)
  }

  lemma StorePassingStep(d0: Disk, raw: string, store: Store, d: Disk, call: Syscall)
    requires StorePassing(d0, raw, store, d) && StoreCan(store, d, call)
    ensures var (store', d') := StoreStep(store, d, call); StorePassing(d0, raw, store', d')
  {
    var (store', d') := StoreStep(store, d, call);
    match store
    case Opening(_) =>
      if store'.Finished? {
        assert StoreEffect(d0, raw, CreateFault) == (d', false);
      } else {
        assert raw[..0] == "";
      }
    case Writing(_, temp, written) =>
      if call.Write? {
        assert d0.temps[temp := raw[..written]][temp := raw[..written + call.n]]
            == d0.temps[temp := raw[..written + call.n]];
      } else {
        assert Littered(d0, raw, temp, written, d);
      }
    case Written(_, temp) => assert Littered(d0, raw, temp, |raw|, d);
    case Closed(_, temp) =>
      assert Littered(d0, raw, temp, |raw|, d) && raw[..|raw|] == raw;
      if call.ok {
        assert d.temps - {temp} == d0.temps - {temp};
        assert StoreEffect(d0, raw, NoFault) == (d', true);
      }
    case Removing(_, temp) => StoreGivesUp(d0, raw, temp, d, call.ok);
    case _ =>
  }

  lemma StoreGivesUp(d0: Disk, raw: string, temp: nat, d: Disk, removed: bool)
    requires StorePassing(d0, raw, Removing(raw, temp), d)
    ensures StorePassing(d0, raw, Finished(false), if removed then d.(temps := d.temps - {temp}) else d)
  {
    var written: nat :| Littered(d0, raw, temp, written, d);
    assert d.temps - {temp} == d0.temps - {temp};
    assert raw[..|raw|] == raw;
    var fault := if written < |raw| then WriteFault(written, removed) else CloseFault(removed);
    assert StoreEffect(d0, raw, fault) == (if removed then d.(temps := d.temps - {temp}) else d, false);
  }

  /** How far a `record` of `entry` that found the memory `m` has got. */
  ghost predicate Passing(c: Settings, m: Memory, entry: Entry, s: System) {
    var recorded := m.(state := RecordState(c, m.state, entry));
    match s.poller
    case Publishing(_, _, a) => Accepts(c, entry, a) && s.mem == recorded
    case Storing(_, _, a, store) =>
      && c.hasCache && Accepts(c, entry, a)
      && s.mem == recorded.(snapshot := Some(SnapshotOf(c.lib, a.payload, false)), disk := s.mem.disk)
      && StorePassing(m.disk, a.raw, store, s.mem.disk)
    case CheckingReady(_, _) =>
      IsAccepted(c, entry) && exists fault ::
        s.mem == AcceptEffect(c, recorded, Judge(c, entry), fault).(networkReady := m.networkReady)
    case ClosingReady(_, _) =>
      m.networkReady == 0 && IsAccepted(c, entry) && exists fault ::
        s.mem == AcceptEffect(c, recorded, Judge(c, entry), fault).(networkReady := m.networkReady)
    case Recorded(_, _) => exists fault :: s.mem == RecordEffect(c, m, entry, fault)
    case _ => false
  }

  ghost predicate Accepts(c: Settings, entry: Entry, a: Acceptance) {
    IsAccepted(c, entry) && Judge(c, entry) == Accepted(a.raw, a.payload)
  }

  lemma PassingBegins(c: Settings, s: System, entry: Entry)
    requires s.poller.Recording? && entry.outcome == s.poller.outcome
    ensures Passing(c, s.mem, entry, DoBeginRecord(c, s, entry))
  {
    if !IsAccepted(c, entry) {
      assert DoBeginRecord(c, s, entry).mem == RecordEffect(c, s.mem, entry, NoFault);
    }
  }

  lemma PassingPublish(c: Settings, m: Memory, entry: Entry, s: System)
    requires Passing(c, m, entry, s) && s.poller.Publishing?
    ensures Passing(c, m, entry, DoPublish(c, s))
  {
    if !c.hasCache {
      var recorded := m.(state := RecordState(c, m.state, entry));
      assert DoPublish(c, s).mem
          == AcceptEffect(c, recorded, Judge(c, entry), NoFault).(networkReady := m.networkReady);
    }
  }

  lemma PassingFinish(c: Settings, m: Memory, entry: Entry, s: System)
    requires Passing(c, m, entry, s) && s.poller.Storing? && s.poller.store.Finished?
    ensures Passing(c, m, entry, DoRecord(c, s, FinishStore))
  {
    var recorded := m.(state := RecordState(c, m.state, entry));
    var fault :| StoreEffect(m.disk, s.poller.accepted.raw, fault) == (s.mem.disk, s.poller.store.ok);
    assert DoRecord(c, s, FinishStore).mem
        == AcceptEffect(c, recorded, Judge(c, entry), fault).(networkReady := m.networkReady);
  }

  lemma PassingReady(c: Settings, m: Memory, entry: Entry, s: System, p: PollStep)
    requires Passing(c, m, entry, s) && (s.poller.CheckingReady? || s.poller.ClosingReady?)
    requires RecordEnabled(s.poller, s.mem.disk, p)
    ensures Passing(c, m, entry, DoRecord(c, s, p))
  {
    var recorded := m.(state := RecordState(c, m.state, entry));
    var fault :| s.mem == AcceptEffect(c, recorded, Judge(c, entry), fault).(networkReady := m.networkReady);
    var s' := DoRecord(c, s, p);
    if s'.poller.Recorded? {
      assert s'.mem == RecordEffect(c, m, entry, fault);
    }
  }

  lemma PassingRecord(c: Settings, m: Memory, entry: Entry, s: System, p: PollStep)
    requires Passing(c, m, entry, s) && RecordEnabled(s.poller, s.mem.disk, p)
    ensures Passing(c, m, entry, DoRecord(c, s, p)) && DoRecord(c, s, p).hist.entries == s.hist.entries
  {
    match p
    case Publish => PassingPublish(c, m, entry, s);
    case StoreCall(call) => StorePassingStep(m.disk, s.poller.accepted.raw, s.poller.store, s.mem.disk, call);
    case FinishStore => PassingFinish(c, m, entry, s);
    case _ => PassingReady(c, m, entry, s, p);
  }

  /** The poller is in `record` all along, until the last state at least. */
  ghost predicate Within(c: Settings, s: System, run: seq<Step>)
    requires IsRun(c, s, run)
    decreases |run|
  {
    run == [] || (InRecord(s.poller) && Within(c, Do(c, s, run[0]), run[1..]))
  }

  lemma {:induction false} PassingRun(c: Settings, m: Memory, entry: Entry, s: System, run: seq<Step>)
    requires Core(c, s) && Passing(c, m, entry, s) && IsRun(c, s, run) && NoCrash(run) && Within(c, s, run)
    ensures Passing(c, m, entry, Exec(c, s, run)) && Exec(c, s, run).hist.entries == s.hist.entries
    decreases |run|
  {
    if run != [] {
      NoCrashTail(run);
      CoreStep(c, s, run[0]);
      if run[0].Poll? {
        PassingRecord(c, m, entry, s, run[0].p);
      } else {
        OthersStayOut(c, s, run[0]);
      }
      PassingRun(c, m, entry, Do(c, s, run[0]), run[1..]);
    }
  }

  /** From the step that records the outcome to the end. */
  lemma PassageBegins(c: Settings, s: System, run: seq<Step>) returns (entry: Entry, fault: Fault)
    requires Core(c, s) && s.poller.Recording? && IsRun(c, s, run) && NoCrash(run) && Within(c, s, run)
    requires Exec(c, s, run).poller.Recorded? && run[0].Poll?
    ensures entry.outcome == s.poller.outcome && Exec(c, s, run).hist.entries == s.hist.entries + [entry]
    ensures Exec(c, s, run).mem == RecordEffect(c, s.mem, entry, fault)
  {
    NoCrashTail(run);
    CoreStep(c, s, run[0]);
    entry := Entry(s.poller.outcome, run[0].p.fetchedAt, run[0].p.judgedAt);
    assert Do(c, s, run[0]) == DoBeginRecord(c, s, entry);
    fault := PassageRest(c, s, entry, run[1..]);
  }

  lemma PassageRest(c: Settings, s: System, entry: Entry, run: seq<Step>) returns (fault: Fault)
    requires s.poller.Recording? && entry.outcome == s.poller.outcome
    requires var s1 := DoBeginRecord(c, s, entry);
             Core(c, s1) && IsRun(c, s1, run) && NoCrash(run) && Within(c, s1, run) && Exec(c, s1, run).poller.Recorded?
    ensures var s' := Exec(c, DoBeginRecord(c, s, entry), run);
            s'.hist.entries == s.hist.entries + [entry] && s'.mem == RecordEffect(c, s.mem, entry, fault)
  {
    PassingBegins(c, s, entry);
    PassingRun(c, s.mem, entry, DoBeginRecord(c, s, entry), run);
    fault :| Exec(c, DoBeginRecord(c, s, entry), run).mem == RecordEffect(c, s.mem, entry, fault);
  }

  lemma {:induction false} PassageRun(c: Settings, s: System, run: seq<Step>) returns (entry: Entry, fault: Fault)
    requires Core(c, s) && s.poller.Recording? && IsRun(c, s, run) && NoCrash(run) && Within(c, s, run)
    requires Exec(c, s, run).poller.Recorded?
    ensures entry.outcome == s.poller.outcome && Exec(c, s, run).hist.entries == s.hist.entries + [entry]
    ensures Exec(c, s, run).mem == RecordEffect(c, s.mem, entry, fault)
    decreases |run|
  {
    if run[0].Poll? {
      entry, fault := PassageBegins(c, s, run);
    } else {
      NoCrashTail(run);
      CoreStep(c, s, run[0]);
      OthersStayOut(c, s, run[0]);
      entry, fault := PassageRun(c, Do(c, s, run[0]), run[1..]);
    }
  }

  /** Conversely: however the other threads' steps are interleaved with it, each passage of the poller
      through `record` records one entry and has the method's effect under one fault. What is
      proved of the effect therefore holds of every passage in every run. */
  lemma EveryPassageIsRecord(c: Settings, s: System, run: seq<Step>) returns (entry: Entry, fault: Fault)
    requires Reachable(c, s) && s.poller.Recording? && IsRun(c, s, run) && NoCrash(run) && Within(c, s, run)
    requires Exec(c, s, run).poller.Recorded?
    ensures entry.outcome == s.poller.outcome && Exec(c, s, run).hist.entries == s.hist.entries + [entry]
    ensures Exec(c, s, run).mem == RecordEffect(c, s.mem, entry, fault)
  {
    ReachableCore(c, s);
    entry, fault := PassageRun(c, s, run);
  }
}

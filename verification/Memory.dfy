/** The memory the client's goroutines share with each other and with the next process, and what
    `loadCache` and `record` do to it as whole calls. */
module Memory {
  import opened Wrappers
  import opened Ruleset
  import opened Verifier
  import opened Recording
  import opened FileCache

  /** `networkReady` counts how often that channel has been closed. */
  datatype Memory = Memory(snapshot: Option<Snapshot>, state: ClientState, networkReady: nat, disk: Disk)

  function FreshMemory(c: Settings, disk: Disk): Memory { Memory(None, FreshState(c), 0, disk) }

  function LoadEffect(c: Settings, m: Memory, readFails: bool, now: Instant): Memory {
    var raw := LoadResult(m.disk.file, readFails);
    if !c.hasCache || raw.None? then m
    else
      match VerifyEnvelope(c.lib, raw.value, c.policy, CacheExpectations(c, now))
      case Rejected(_) => m.(state := m.state.(cacheState := CacheLoadFailed))
      case Accepted(_, payload) =>
        m.(state := m.state.(cacheState := CacheLoaded), snapshot := Some(SnapshotOf(c.lib, payload, true)))
  }

  /** The accepted branch of `record`, after the state record's other fields are set. */
  function AcceptEffect(c: Settings, m: Memory, verdict: Verdict, fault: Fault): Memory
    requires verdict.Accepted?
  {
    var (disk, stored) := StoreEffect(m.disk, verdict.raw, fault);
    Memory(
      Some(SnapshotOf(c.lib, verdict.payload, false)),
      if !c.hasCache then m.state else m.state.(cacheState := if stored then CacheStored else CacheStoreFailed),
      if m.networkReady > 0 then m.networkReady else 1,
      if c.hasCache then disk else m.disk)
  }

  function RecordEffect(c: Settings, m: Memory, entry: Entry, fault: Fault): Memory {
    var recorded := m.(state := RecordState(c, m.state, entry));
    if IsAccepted(c, entry) then AcceptEffect(c, recorded, Judge(c, entry), fault) else recorded
  }

  /** Whatever goes wrong, a held ruleset is never lost: only an accepted envelope moves the
      snapshot, the ETag, the ready channel or the cache file, and the file moves only to the
      accepted bytes. */
  lemma OnlyAcceptanceMoves(c: Settings, m: Memory, entry: Entry, fault: Fault)
    requires FreshNames(m.disk)
    ensures var m' := RecordEffect(c, m, entry, fault);
            && (!IsAccepted(c, entry) ==>
                  && m'.snapshot == m.snapshot && m'.networkReady == m.networkReady && m'.disk == m.disk
                  && m'.state.etag == m.state.etag && m'.state.cacheState == m.state.cacheState)
            && (m.snapshot.Some? ==> m'.snapshot.Some?)
            && (m'.disk.file != m.disk.file ==>
                  && c.hasCache && m'.disk.file == Some(entry.outcome.raw) && m'.state.cacheState == CacheStored)
            && (IsAccepted(c, entry) ==>
                  && m'.snapshot.Some? && !m'.snapshot.value.fromCache && m'.networkReady > 0
                  && KnownKinds(m'.snapshot.value.flags)
                  && m'.snapshot.value.flags == Judge(c, entry).payload.flags)
  {
    if IsAccepted(c, entry) {
      VerdictCharacterised(c.lib, entry.outcome.raw, c.policy, LiveExpectations(c, entry.judgedAt));
      StoreIsAtomic(m.disk, entry.outcome.raw, fault);
    }
  }

  /** A body that the load can read and accept at this time. */
  ghost predicate Loads(c: Settings, file: Option<string>, readFails: bool, now: Instant, payload: RulesetPayload) {
    && file.Some? && !readFails && 0 < |file.value| <= 1_048_576
    && exists envelope, bytes ::
         Acceptable(c.lib, file.value, c.policy, Expectations(c.environment, now, false), envelope, bytes, payload)
  }

  /** What a new client's cache state says of its load: nothing to read, a ruleset that passes every check
      but expiry at the clock reading taken, or a body that does not; and which ruleset is then held. */
  lemma LoadTells(c: Settings, disk: Disk, readFails: bool, now: Instant)
    requires c.hasCache
    ensures var m := LoadEffect(c, FreshMemory(c, disk), readFails, now);
            && (m.state.cacheState == CacheEmpty <==>
                  disk.file.None? || readFails || disk.file.value == "" || |disk.file.value| > 1_048_576)
            && (m.state.cacheState == CacheLoaded <==> exists payload :: Loads(c, disk.file, readFails, now, payload))
            && m.state.cacheState in {CacheEmpty, CacheLoaded, CacheLoadFailed}
            && (m.snapshot.Some? <==> m.state.cacheState == CacheLoaded)
            && (forall payload | Loads(c, disk.file, readFails, now, payload) ::
                  && c.lib.parseRfc3339(payload.issuedAt).Some?
                  && m.snapshot == Some(Snapshot(payload.flags, c.lib.parseRfc3339(payload.issuedAt).value, true)))
  {
    if LoadResult(disk.file, readFails).Some? {
      var raw, wanted := disk.file.value, Expectations(c.environment, now, false);
      forall payload
        ensures Loads(c, disk.file, readFails, now, payload)
           <==> VerifyEnvelope(c.lib, raw, c.policy, wanted) == Accepted(raw, payload)
      {
        AcceptanceCharacterised(c.lib, raw, c.policy, wanted, payload);
      }
      VerdictCharacterised(c.lib, raw, c.policy, wanted);
    }
  }

  /** The expiry asymmetry end to end: what one process accepted live and managed to store, the
      next process loads to the same flags and the same issue time, however late, provided its
      clock is no earlier; only the provenance differs. */
  lemma StoreThenReload(c: Settings, m: Memory, entry: Entry, later: Instant)
    requires c.hasCache && FreshNames(m.disk) && IsAccepted(c, entry) && entry.judgedAt <= later
    requires Storable(entry.outcome.raw)
    ensures var before := RecordEffect(c, m, entry, NoFault);
            var after := LoadEffect(c, FreshMemory(c, before.disk), false, later);
            && before.state.cacheState == CacheStored && after.state.cacheState == CacheLoaded
            && after.snapshot == Some(before.snapshot.value.(fromCache := true))
  {
    VerdictCharacterised(c.lib, entry.outcome.raw, c.policy, LiveExpectations(c, entry.judgedAt));
    StoreIsAtomic(m.disk, entry.outcome.raw, NoFault);
    LiveImpliesCached(c.lib, entry.outcome.raw, c.policy, c.environment, entry.judgedAt, later);
  }
}

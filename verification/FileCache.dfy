/** The durable cache (cache.go), as the file-system calls it makes: what each call can do when it
    works, when it fails, and when the process dies after it. */
module FileCache {
  import opened Wrappers
  import opened Recording

  /** The cache file and the temp files beside it. */
  datatype Disk = Disk(file: Option<string>, temps: map<nat, string>, nextTemp: nat)

  /** CreateTemp never reuses a name. */
  ghost predicate FreshNames(d: Disk) {
    forall t | t in d.temps :: t < d.nextTemp
  }

  predicate Storable(raw: string) { 0 < |raw| <= MAX_RESPONSE_BYTES }

  /** What `load` answers for a file's contents. */
  function LoadResult(file: Option<string>, readFails: bool): Option<string> {
    if file.None? || readFails || !Storable(file.value) then None else file
  }

  // ---------------------------------------------------------------- store, call by call

  datatype Store =
    | Opening(raw: string)
    | Writing(raw: string, temp: nat, written: nat)
    | Written(raw: string, temp: nat)
    | Closed(raw: string, temp: nat)
    | Removing(raw: string, temp: nat)
    | Finished(ok: bool)

  /** One system call and its result; `Write` puts some more bytes on disk. */
  datatype Syscall =
    | Create(ok: bool) | Write(n: nat) | WriteFails | Close(ok: bool) | Rename(ok: bool) | Remove(ok: bool)

  predicate StoreCan(p: Store, d: Disk, call: Syscall) {
    match p
    case Opening(_) => call.Create?
    case Writing(raw, temp, written) =>
      written <= |raw| && (call.WriteFails? || (call.Write? && 1 <= call.n && written + call.n <= |raw|))
    case Written(_, _) => call.Close?
    case Closed(_, temp) => call.Rename? && temp in d.temps
    case Removing(_, _) => call.Remove?
    case Finished(_) => false
  }

  function StoreStep(p: Store, d: Disk, call: Syscall): (Store, Disk)
    requires StoreCan(p, d, call)
  {
    match p
    case Opening(raw) =>
      if !Storable(raw) || !call.ok then (Finished(false), d)
      else (Writing(raw, d.nextTemp, 0), Disk(d.file, d.temps[d.nextTemp := ""], d.nextTemp + 1))
    case Writing(raw, temp, written) =>
      if call.WriteFails? then (Removing(raw, temp), d)
      else
        var total := written + call.n;
        (if total == |raw| then Written(raw, temp) else Writing(raw, temp, total),
         d.(temps := d.temps[temp := raw[..total]]))
    case Written(raw, temp) => (if call.ok then Closed(raw, temp) else Removing(raw, temp), d)
    case Closed(raw, temp) =>
      if call.ok then (Finished(true), d.(file := Some(d.temps[temp]), temps := d.temps - {temp}))
      else (Removing(raw, temp), d)
    case Removing(_, temp) => (Finished(false), if call.ok then d.(temps := d.temps - {temp}) else d)
  }

  /** Mid-store, the temp file in use holds what has been written so far. */
  ghost predicate StoreInv(p: Store, d: Disk) {
    FreshNames(d) &&
    match p
    case Writing(raw, temp, written) =>
      Storable(raw) && written < |raw| && temp in d.temps && d.temps[temp] == raw[..written]
    case Written(raw, temp) => Storable(raw) && temp in d.temps && d.temps[temp] == raw
    case Closed(raw, temp) => Storable(raw) && temp in d.temps && d.temps[temp] == raw
    case Removing(raw, temp) => temp in d.temps
    case _ => true
  }

  /** One call keeps the invariant, and leaves the cache file byte for byte alone unless it is the
      rename, which installs exactly the bytes being stored. */
  lemma StoreStepKeeps(p: Store, d: Disk, call: Syscall)
    requires StoreInv(p, d) && StoreCan(p, d, call)
    ensures var (p', d') := StoreStep(p, d, call);
            && StoreInv(p', d')
            && (if p.Closed? && call.ok then p' == Finished(true) && d'.file == Some(p.raw) && Storable(p.raw)
                else d'.file == d.file && p' != Finished(true))
  {
    if p.Writing? && call.Write? && p.written + call.n == |p.raw| {
      assert p.raw[..|p.raw|] == p.raw;
    }
  }

  // ---------------------------------------------------------------- store, as one call

  /** The failure the operating system has in store, if any. A failing write has put `written` bytes
      on disk, fewer than all; `removed` says whether the clean-up then works. */
  datatype Fault =
    | NoFault
    | CreateFault
    | WriteFault(written: nat, removed: bool)
    | CloseFault(removed: bool)
    | RenameFault(removed: bool)

  function StoreEffect(d: Disk, raw: string, fault: Fault): (Disk, bool) {
    if !Storable(raw) || fault.CreateFault? then (d, false)
    else
      var used := d.(nextTemp := d.nextTemp + 1);
      match fault
      case NoFault => (used.(file := Some(raw), temps := d.temps - {d.nextTemp}), true)
      case WriteFault(written, removed) =>
        (used.(temps := if removed then d.temps - {d.nextTemp}
                        else d.temps[d.nextTemp := raw[..if written < |raw| then written else 0]]), false)
      case CloseFault(removed) =>
        (used.(temps := if removed then d.temps - {d.nextTemp} else d.temps[d.nextTemp := raw]), false)
      case RenameFault(removed) =>
        (used.(temps := if removed then d.temps - {d.nextTemp} else d.temps[d.nextTemp := raw]), false)
  }

  /** Fault by fault, what `store` promises: all or nothing at the path, and a litter of at most
      one temp file, only when its removal failed too. */
  lemma StoreIsAtomic(d: Disk, raw: string, fault: Fault)
    requires FreshNames(d)
    ensures var (d', ok) := StoreEffect(d, raw, fault);
            && FreshNames(d')
            && (ok <==> 0 < |raw| <= 1_048_576 && fault.NoFault?)
            && d'.file == (if ok then Some(raw) else d.file)
            && (d'.temps != d.temps ==>
                  !ok && (fault.WriteFault? || fault.CloseFault? || fault.RenameFault?) && !fault.removed
                  && d'.temps.Keys == d.temps.Keys + {d.nextTemp})
            && (ok ==> LoadResult(d'.file, false) == Some(raw))
  {
    assert d.nextTemp !in d.temps;
    assert d.temps - {d.nextTemp} == d.temps;
  }

  class FileCache {
    var file: Option<string>
    var temps: map<nat, string>
    var nextTemp: nat

    ghost function View(): Disk
      reads this
    {
      Disk(file, temps, nextTemp)
    }

    constructor (file: Option<string>)
      ensures View() == Disk(file, map[], 0)
    {
      this.file, temps, nextTemp := file, map[], 0;
    }

    method Load(readFails: bool) returns (raw: string, ok: bool)
      ensures ok == LoadResult(file, readFails).Some?
      ensures raw == if ok then LoadResult(file, readFails).value else ""
      ensures ok <==> file.Some? && !readFails && 0 < |file.value| <= 1_048_576
      ensures ok ==> raw == file.value
    {
      if file.None? {
        return "", false;
      }
      // The reader is limited to one byte more than the cap.
      var read := if |file.value| <= MAX_RESPONSE_BYTES + 1 then file.value else file.value[..MAX_RESPONSE_BYTES + 1];
      if readFails || |read| == 0 || |read| > MAX_RESPONSE_BYTES {
        return "", false;
      }
      return read, true;
    }

    method Store(raw: string, fault: Fault) returns (ok: bool)
      modifies this
      ensures (View(), ok) == StoreEffect(old(View()), raw, fault)
    {
      if |raw| == 0 || |raw| > MAX_RESPONSE_BYTES {
        return false;
      }
      if fault.CreateFault? {
        return false;
      }
      var temp := nextTemp;
      temps, nextTemp := temps[temp := ""], nextTemp + 1;
      if fault.WriteFault? {
        var partial := raw[..if fault.written < |raw| then fault.written else 0];
        temps := temps[temp := partial];
        assert temps == old(temps)[temp := partial] && temps - {temp} == old(temps) - {temp};
        Discard(temp, fault.removed);
        return false;
      }
      temps := temps[temp := raw];
      assert temps == old(temps)[temp := raw] && temps - {temp} == old(temps) - {temp};
      if fault.CloseFault? {
        Discard(temp, fault.removed);
        return false;
      }
      if fault.RenameFault? {
        Discard(temp, fault.removed);
        return false;
      }
      file, temps := Some(temps[temp]), temps - {temp};
      return true;
    }

    method Discard(temp: nat, removed: bool)
      modifies this`temps
      ensures temps == if removed then old(temps) - {temp} else old(temps)
    {
      if removed {
        temps := temps - {temp};
      }
    }
  }
}

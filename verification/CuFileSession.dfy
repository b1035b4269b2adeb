/**
 * CuFileSession and the shared driver count of src/cuphoton/xbeam/cufile_io.py,
 * their fields updated in place, and what every sequence of calls keeps.
 */
module CuFileSessions {
  import opened Options
  import opened HandleCache

  /** The process-wide driver and its users. */
  class Driver {
    var users: nat
    var open: bool

    ghost predicate Balanced()
      reads this
    {
      open <==> users > 0
    }

    constructor ()
      ensures users == 0 && Balanced()
    {
      users := 0;
      open := false;
    }

    /** _acquire_driver; `opens` is whether driver_open succeeds. */
    method Acquire(opens: bool) returns (ok: bool)
      requires Balanced()
      modifies this
      ensures Balanced()
      ensures ok <==> old(users) > 0 || opens
      ensures users == old(users) + if ok then 1 else 0
    {
      if users == 0 {
        if !opens {
          return false;
        }
        open := true;
      }
      users := users + 1;
      ok := true;
    }

    /** _release_driver. */
    method Release() returns (ok: bool)
      requires Balanced()
      modifies this
      ensures Balanced()
      ensures ok <==> old(users) > 0
      ensures users == if ok then old(users) - 1 else old(users)
    {
      if users == 0 {
        return false;
      }
      users := users - 1;
      if users == 0 {
        open := false;
      }
      ok := true;
    }
  }

  class CuFileSession {
    const driver: Driver
    const name: nat
    var entered: bool
    var files: seq<Handle>
    var cached: seq<Entry>
    var closed: seq<nat>
    var clock: nat
    var buffers: seq<nat>
    var freed: seq<nat>

    ghost function State(): Session
      reads this
    {
      Session(files, cached, closed, clock)
    }

    constructor (shared: Driver, id: nat)
      ensures State() == Session([], [], [], 0) && !entered && driver == shared && name == id
      ensures buffers == [] && freed == []
    {
      driver, name := shared, id;
      entered := false;
      files, cached, closed := [], [], [];
      clock := 0;
      buffers, freed := [], [];
    }

    /** `sessions` are the sessions entered before, this one among them or not. */
    method Enter(opens: bool, ghost sessions: set<nat>) returns (ok: bool)
      requires driver.Balanced() && (name in sessions <==> entered)
      modifies this`entered, driver
      ensures driver.Balanced() && State() == old(State())
      ensures ok <==> !old(entered) && (old(driver.users) > 0 || opens)
      ensures entered == (old(entered) || ok)
      ensures driver.users == old(driver.users) + if ok then 1 else 0
      ensures DriverDo(DriverWorld(sessions, old(driver.users), old(driver.open)), EnterStep(name, opens))
              == DriverWorld(if entered then sessions + {name} else sessions, driver.users, driver.open)
    {
      assert entered ==> sessions + {name} == sessions;
      if entered {
        return false;
      }
      ok := driver.Acquire(opens);
      entered := ok;
    }

    method OpenPath(path: nat, o: Opened) returns (r: Outcome)
      modifies this`files, this`clock
      ensures !entered ==> r == Refused(NotEntered) && State() == old(State())
      ensures entered && !o.ok ==> r == Refused(CannotOpen) && State() == old(State())
      ensures entered && o.ok ==> r == Done && State() == OpenFile(old(State()), path, o)
    {
      if !entered {
        return Refused(NotEntered);
      }
      if !o.ok {
        return Refused(CannotOpen);
      }
      files := files + [Handle(clock, path, o.fd, o.handle)];
      clock := clock + 1;
      r := Done;
    }

    method Close(file: Handle) returns (r: Outcome)
      modifies this`files, this`cached, this`closed
      ensures (State(), r) == CloseFile(old(State()), file)
    {
      var index := IndexOf(files, file);
      if index < 0 {
        return Refused(NotOpenHere);
      }
      var popped := files[index];
      files := Without(files, index);
      var holder := HolderOf(cached, file.object_, 0);
      if holder >= 0 {
        if cached[holder].leases > 0 {
          PutBack(old(files), index);
          files := files[..index] + [popped] + files[index..];
          return Refused(Leased);
        }
        cached := Without(cached, holder);
      }
      closed := closed + [popped.object_];
      r := Done;
    }

    method EvictEntry(i: nat, validates: bool) returns (r: Outcome)
      requires i < |cached| && cached[i].leases == 0
      modifies this`files, this`cached, this`closed
      ensures (State(), r) == Evict(old(State()), i, validates)
    {
      var complains := cached[i].validator && !validates;
      r := Close(cached[i].file);
      if complains {
        r := Refused(ValidationFailed);
      }
    }

    method AdmitPath(path: nat, fingerprint: Option<nat>, o: Opened) returns (r: Outcome)
      modifies this`files, this`cached, this`clock
      ensures (State(), r) == Admit(old(State()), path, fingerprint, o)
    {
      if !o.ok {
        return Refused(CannotOpen);
      }
      var id := clock;
      files := files + [Handle(clock, path, o.fd, o.handle)];
      clock := clock + 1;
      cached := cached + [Entry(id, path, files[|files| - 1], fingerprint, false, 0, id)];
      r := Served(id);
    }

    method MissPath(path: nat, fingerprint: Option<nat>, validates: bool, o: Opened) returns (r: Outcome)
      modifies this`files, this`cached, this`closed, this`clock
      ensures (State(), r) == Miss(old(State()), path, fingerprint, validates, o)
    {
      hide Admit, Evict;
      if |cached| >= LIMIT {
        var victim := VictimOf(cached, 0);
        if victim < 0 {
          return Refused(AllLeased);
        }
        r := EvictEntry(victim, validates);
        if r != Done {
          return;
        }
      }
      r := AdmitPath(path, fingerprint, o);
    }

    /** Replace an unleased entry whose source changed. */
    method ReplaceStale(i: nat, path: nat, fingerprint: Option<nat>, validates: bool, o: Opened) returns (r: Outcome)
      requires i < |cached| && cached[i].leases == 0
      modifies this`files, this`cached, this`closed, this`clock
      ensures var evicted := Evict(old(State()), i, validates);
              (State(), r) == if evicted.1 != Done then evicted else Miss(evicted.0, path, fingerprint, validates, o)
    {
      hide Miss, Evict;
      r := EvictEntry(i, validates);
      if r == Done {
        r := MissPath(path, fingerprint, validates, o);
      }
    }

    /** move_to_end. */
    method Touch(i: nat)
      requires i < |cached|
      modifies this`cached, this`clock
      ensures State() == old(State()).(cached := Without(old(cached), i) + [old(cached)[i].(used := old(clock))],
                                       clock := old(clock) + 1)
    {
      var entry := cached[i];
      cached := Without(cached, i) + [entry.(used := clock)];
      clock := clock + 1;
    }

    /** _cached_read. */
    method ReadCached(path: nat, fingerprint: Option<nat>, validates: bool, o: Opened) returns (r: Outcome)
      modifies this`files, this`cached, this`closed, this`clock
      ensures !entered ==> r == Refused(NotEntered) && State() == old(State())
      ensures entered ==> (State(), r) == CachedRead(old(State()), path, fingerprint, validates, o)
    {
      hide Miss, Evict, Without;
      if !entered {
        return Refused(NotEntered);
      }
      var i := EntryOf(cached, path, 0);
      if i < 0 {
        r := MissPath(path, fingerprint, validates, o);
      } else if fingerprint.Some? && cached[i].fingerprint != fingerprint {
        if cached[i].leases > 0 {
          return Refused(SourceChanged);
        }
        r := ReplaceStale(i, path, fingerprint, validates, o);
      } else {
        r := Served(cached[i].id);
        Touch(i);
      }
    }

    /** Entering lease_file. */
    method TakeLease(path: nat, fingerprint: Option<nat>, validates: bool, o: Opened, check: Option<bool>)
      returns (r: Outcome)
      modifies this`files, this`cached, this`closed, this`clock
      ensures !entered ==> r == Refused(NotEntered) && State() == old(State())
      ensures entered ==> (State(), r) == Lease(old(State()), path, fingerprint, validates, o, check)
    {
      hide CachedRead;
      r := ReadCached(path, fingerprint, validates, o);
      if r.Served? {
        var i := FindEntry(cached, r.id, 0);
        if i >= 0 {
          r := HoldEntry(i, check);
        }
      }
    }

    /** Count the lease first, then let the caller's validator speak; a complaint gives the lease back. */
    method HoldEntry(i: nat, check: Option<bool>) returns (r: Outcome)
      requires i < |cached|
      modifies this`cached
      ensures (State(), r) == LeaseEntry(old(State()), i, check)
    {
      var entry := cached[i];
      cached := cached[i := entry.(leases := entry.leases + 1)];
      if check.Some? {
        if !check.value {
          cached := cached[i := entry];
          assert cached == old(cached);
          return Refused(ValidationFailed);
        }
        cached := cached[i := cached[i].(validator := true)];
      }
      r := Served(entry.id);
      assert cached == old(cached)[i := entry.(leases := entry.leases + 1, validator := check.Some? || entry.validator)];
    }

    /** finish_cached_reads; `rejects` are the entries whose validators complain. */
    method FinishCachedReads(rejects: set<nat>) returns (complained: bool)
      modifies this`cached
      ensures State() == FinishReads(old(State()))
      ensures complained == FinishComplains(old(State()), rejects)
    {
      ghost var before, target := cached, Unvalidated(cached);
      complained := false;
      for i := 0 to |cached|
        invariant |cached| == |before|
        invariant forall k :: 0 <= k < |cached| ==> cached[k] == if k < i then target[k] else before[k]
        invariant complained <==> exists k ::
          0 <= k < i && (before[k].leases > 0 || (before[k].validator && before[k].id in rejects))
      {
        if cached[i].leases > 0 {
          complained := true;
        } else if cached[i].validator && cached[i].id in rejects {
          complained := true;
        }
        cached := cached[i := cached[i].(validator := false)];
      }
      assert cached == target;
    }

    /** Leaving lease_file. */
    method DropLease(id: nat)
      modifies this`cached
      ensures State() == HandleCache.Release(old(State()), id)
    {
      var i := FindEntry(cached, id, 0);
      if i >= 0 && cached[i].leases > 0 {
        cached := cached[i := cached[i].(leases := cached[i].leases - 1)];
      }
    }

    /** register_buffer; `registers` is whether the library accepts it. */
    method RegisterBuffer(pointer: int, size: int, registers: bool) returns (r: Outcome)
      modifies this`buffers
      ensures r == if !entered then Refused(NotEntered)
                   else if pointer <= 0 || size <= 0 then Refused(BadBuffer)
                   else if !registers then Refused(CannotOpen)
                   else Done
      ensures buffers == if r == Done then old(buffers) + [pointer] else old(buffers)
    {
      if !entered {
        return Refused(NotEntered);
      }
      if pointer <= 0 || size <= 0 {
        return Refused(BadBuffer);
      }
      if !registers {
        return Refused(CannotOpen);
      }
      buffers := buffers + [pointer];
      r := Done;
    }

    /**
     * close: buffers, then files, in reverse order, then the driver. Those in `failing`
     * raise while they are let go; everything is let go all the same, once, and the first
     * error is raised at the end.
     */
    method CloseAll(failingBuffers: set<nat>, failingFiles: set<nat>, ghost sessions: set<nat>) returns (clean: bool)
      requires driver.Balanced() && (entered ==> driver.users > 0) && (name in sessions <==> entered)
      modifies this`files, this`cached, this`closed, this`buffers, this`freed, this`entered, driver
      ensures driver.Balanced() && !entered
      ensures old(entered) ==> State() == CloseSession(old(State())) && driver.users == old(driver.users) - 1
      ensures old(entered) ==> buffers == [] && freed == old(freed) + Backwards(old(buffers))
      ensures old(entered) ==>
        (clean <==> (forall b :: b in old(buffers) ==> b !in failingBuffers)
                    && forall f :: f in old(files) ==> f.object_ !in failingFiles)
      ensures !old(entered) ==>
        clean && State() == old(State()) && driver.users == old(driver.users)
        && buffers == old(buffers) && freed == old(freed)
      ensures DriverDo(DriverWorld(sessions, old(driver.users), old(driver.open)), CloseStep(name))
              == DriverWorld(sessions - {name}, driver.users, driver.open)
    {
      clean := true;
      if !entered {
        assert sessions - {name} == sessions;
        return;
      }
      clean := FreeBuffers(failingBuffers);
      var closedClean := CloseFiles(failingFiles);
      files, cached := [], [];
      var released := driver.Release();
      entered := false;
      clean := clean && closedClean;
    }

    method FreeBuffers(failing: set<nat>) returns (clean: bool)
      modifies this`buffers, this`freed
      ensures buffers == [] && freed == old(freed) + Backwards(old(buffers))
      ensures clean <==> forall b :: b in old(buffers) ==> b !in failing
    {
      clean := true;
      ghost var before, all := freed, Backwards(buffers);
      var n := |buffers|;
      while n > 0
        invariant 0 <= n <= |buffers| && buffers == old(buffers)
        invariant freed == before + all[..|buffers| - n]
        invariant clean <==> forall k :: n <= k < |buffers| ==> buffers[k] !in failing
        modifies this`freed
      {
        n := n - 1;
        assert all[..|buffers| - n] == all[..|buffers| - n - 1] + [buffers[n]];
        freed := freed + [buffers[n]];
        clean := clean && buffers[n] !in failing;
      }
      assert all[..|buffers|] == all;
      buffers := [];
    }

    method CloseFiles(failing: set<nat>) returns (clean: bool)
      modifies this`closed
      ensures closed == old(closed) + Objects(files)
      ensures clean <==> forall f :: f in files ==> f.object_ !in failing
    {
      clean := true;
      ghost var before, objects := closed, Objects(files);
      var n := |files|;
      while n > 0
        invariant 0 <= n <= |files|
        invariant closed == before + objects[..|files| - n]
        invariant clean <==> forall k :: n <= k < |files| ==> files[k].object_ !in failing
        modifies this`closed
      {
        n := n - 1;
        assert objects[..|files| - n] == objects[..|files| - n - 1] + [files[n].object_];
        closed := closed + [files[n].object_];
        clean := clean && files[n].object_ !in failing;
      }
      assert objects[..|files|] == objects;
    }
  }

  function Backwards(s: seq<nat>): (r: seq<nat>)
    ensures |r| == |s| && forall i :: 0 <= i < |r| ==> r[i] == s[|s| - 1 - i]
  {
    seq(|s|, i requires 0 <= i < |s| => s[|s| - 1 - i])
  }

  /** Taking an element out and inserting it again at its index gives the sequence back. */
  lemma PutBack(files: seq<Handle>, index: nat)
    requires index < |files|
    ensures Without(files, index)[..index] + [files[index]] + Without(files, index)[index..] == files
  {
  }

  // ----- the driver over all sessions -----

  datatype DriverStep = EnterStep(session: nat, opens: bool) | CloseStep(session: nat)

  /** Entered sessions, the driver's users and whether it is open. */
  datatype DriverWorld = DriverWorld(entered: set<nat>, users: nat, open: bool)

  function DriverDo(w: DriverWorld, step: DriverStep): DriverWorld {
    match step
    case EnterStep(id, opens) =>
      if id in w.entered || (w.users == 0 && !opens) then w
      else DriverWorld(w.entered + {id}, w.users + 1, true)
    case CloseStep(id) =>
      if id !in w.entered || w.users == 0 then w
      else DriverWorld(w.entered - {id}, w.users - 1, w.users > 1)
  }

  function DriverAfter(w: DriverWorld, steps: seq<DriverStep>): DriverWorld {
    if steps == [] then w else DriverDo(DriverAfter(w, steps[..|steps| - 1]), steps[|steps| - 1])
  }

  /** Over every sequence of enters and closes the driver is open exactly while some session is entered. */
  lemma {:induction false} DriverOpenWhileEntered(steps: seq<DriverStep>)
    ensures var w := DriverAfter(DriverWorld({}, 0, false), steps);
            w.users == |w.entered| && (w.open <==> w.entered != {})
  {
    if steps != [] {
      DriverOpenWhileEntered(steps[..|steps| - 1]);
      var w := DriverAfter(DriverWorld({}, 0, false), steps[..|steps| - 1]);
      match steps[|steps| - 1]
      case EnterStep(id, _) => assert |w.entered + {id}| == |w.entered| + if id in w.entered then 0 else 1;
      case CloseStep(id) => assert |w.entered - {id}| == |w.entered| - if id in w.entered then 1 else 0;
    }
  }

  // ----- every sequence of calls on one session -----

  datatype Call =
    | OpenCall(path: nat, o: Opened)
    | ReadCall(path: nat, fingerprint: Option<nat>, validates: bool, o: Opened)
    | LeaseCall(path: nat, fingerprint: Option<nat>, validates: bool, o: Opened, check: Option<bool>)
    | FinishCall
    | ReleaseCall(id: nat)
    | CloseCall(file: Handle)
    | CloseSessionCall

  /** Descriptor numbers are fresh when opened, and no stale twin is closed. */
  predicate Proper(s: Session, call: Call) {
    match call
    case OpenCall(_, o) => FreshDescriptor(s, o)
    case ReadCall(path, fingerprint, validates, o) => FreshDescriptor(BeforeOpen(s, path, fingerprint, validates), o)
    case FinishCall => true
    case LeaseCall(path, fingerprint, validates, o, _) => FreshDescriptor(BeforeOpen(s, path, fingerprint, validates), o)
    case ReleaseCall(_) => true
    case CloseCall(file) => Known(s, file) && !StaleTwin(s, file)
    case CloseSessionCall => true
  }

  function Perform(s: Session, call: Call): Session {
    match call
    case OpenCall(path, o) => if o.ok then OpenFile(s, path, o) else s
    case ReadCall(path, fingerprint, validates, o) => CachedRead(s, path, fingerprint, validates, o).0
    case FinishCall => FinishReads(s)
    case LeaseCall(path, fingerprint, validates, o, check) => Lease(s, path, fingerprint, validates, o, check).0
    case ReleaseCall(id) => HandleCache.Release(s, id)
    case CloseCall(file) => CloseFile(s, file).0
    case CloseSessionCall => CloseSession(s)
  }

  lemma OpenGood(s: Session, path: nat, o: Opened)
    requires Good(s) && FreshDescriptor(s, o) && o.ok
    ensures Good(OpenFile(s, path, o))
  {
    AdmitFiles(s, path, o);
    var z := OpenFile(s, path, o);
    assert forall i :: 0 <= i < |s.cached| ==> z.cached[i].file in z.files;
  }

  lemma CallGood(s: Session, call: Call)
    requires Good(s) && Proper(s, call)
    ensures Good(Perform(s, call))
  {
    match call {
      case OpenCall(path, o) => if o.ok { OpenGood(s, path, o); }
      case ReadCall(path, fingerprint, validates, o) => CachedReadGood(s, path, fingerprint, validates, o);
      case FinishCall => FinishReadsGood(s);
      case LeaseCall(path, fingerprint, validates, o, check) => LeaseGood(s, path, fingerprint, validates, o, check);
      case ReleaseCall(id) => ReleaseGood(s, id);
      case CloseCall(file) => CloseKeepsGood(s, file);
      case CloseSessionCall => CloseSessionGood(s);
    }
  }

  lemma LeaseGood(s: Session, path: nat, fingerprint: Option<nat>, validates: bool, o: Opened, check: Option<bool>)
    requires Good(s) && FreshDescriptor(BeforeOpen(s, path, fingerprint, validates), o)
    ensures Good(Lease(s, path, fingerprint, validates, o, check).0)
  {
    CachedReadGood(s, path, fingerprint, validates, o);
    var r := CachedRead(s, path, fingerprint, validates, o);
    hide Good, CachedRead, LeaseEntry, FreshDescriptor, BeforeOpen;
    if r.1.Served? {
      var i := FindEntry(r.0.cached, r.1.id, 0);
      if i >= 0 {
        LeaseEntryGood(r.0, i, check);
      }
    }
  }

  lemma LeaseEntryGood(s: Session, i: nat, check: Option<bool>)
    requires Good(s) && i < |s.cached|
    ensures Good(LeaseEntry(s, i, check).0)
  {
    hide Good;
    WithLeasesGood(s, i, s.cached[i].leases + 1, check.Some? || s.cached[i].validator);
  }

  lemma ReleaseGood(s: Session, id: nat)
    requires Good(s)
    ensures Good(HandleCache.Release(s, id))
  {
    hide Good;
    var i := FindEntry(s.cached, id, 0);
    if i >= 0 && s.cached[i].leases > 0 {
      WithLeasesGood(s, i, s.cached[i].leases - 1, s.cached[i].validator);
    }
  }

  /** A leased entry outlives every call but the one that closes the session. */
  lemma LeasedOutlives(s: Session, call: Call, i: nat)
    requires Good(s) && Proper(s, call) && !call.CloseSessionCall? && i < |s.cached| && s.cached[i].leases > 0
    ensures exists j :: 0 <= j < |Perform(s, call).cached|
              && Perform(s, call).cached[j].id == s.cached[i].id && Perform(s, call).cached[j].file == s.cached[i].file
  {
    match call {
      case OpenCall(path, o) => assert Perform(s, call).cached[i] == s.cached[i];
      case ReadCall(path, fingerprint, validates, o) =>
        CachedReadGood(s, path, fingerprint, validates, o);
        KeptEntry(s, Perform(s, call), i);
      case FinishCall => assert Perform(s, call).cached[i] == s.cached[i].(validator := false);
      case LeaseCall(path, fingerprint, validates, o, check) =>
        CachedReadGood(s, path, fingerprint, validates, o);
        var y := CachedRead(s, path, fingerprint, validates, o).0;
        KeptEntry(s, y, i);
        LeaseKeepsEntries(s, path, fingerprint, validates, o, check);
        var j :| 0 <= j < |y.cached| && y.cached[j].id == s.cached[i].id && y.cached[j].file == s.cached[i].file;
        assert Perform(s, call).cached[j].id == s.cached[i].id;
      case ReleaseCall(id) => assert Perform(s, call).cached[i].id == s.cached[i].id;
      case CloseCall(file) =>
        CloseKeepsLeased(s, file);
        KeptEntry(s, Perform(s, call), i);
    }
  }

  lemma KeptEntry(s: Session, z: Session, i: nat)
    requires LeasedKept(s, z) && i < |s.cached| && s.cached[i].leases > 0
    ensures exists j :: 0 <= j < |z.cached| && z.cached[j].id == s.cached[i].id && z.cached[j].file == s.cached[i].file
  {
    assert StillCached(z, s.cached[i]);
  }

  lemma LeaseKeepsEntries(s: Session, path: nat, fingerprint: Option<nat>, validates: bool, o: Opened, check: Option<bool>)
    ensures var y, z := CachedRead(s, path, fingerprint, validates, o).0, Lease(s, path, fingerprint, validates, o, check).0;
            |z.cached| == |y.cached|
            && forall j :: 0 <= j < |y.cached| ==> z.cached[j].id == y.cached[j].id && z.cached[j].file == y.cached[j].file
  {
    hide CachedRead;
  }

  predicate ProperCalls(s: Session, calls: seq<Call>)
    decreases |calls|
  {
    calls == [] || (Proper(s, calls[0]) && ProperCalls(Perform(s, calls[0]), calls[1..]))
  }

  function AfterCalls(s: Session, calls: seq<Call>): Session
    decreases |calls|
  {
    if calls == [] then s else AfterCalls(Perform(s, calls[0]), calls[1..])
  }

  lemma {:induction false} CallsGood(s: Session, calls: seq<Call>)
    requires Good(s) && ProperCalls(s, calls)
    ensures Good(AfterCalls(s, calls))
    decreases |calls|
  {
    hide Good, Perform, Proper;
    if calls != [] {
      CallGood(s, calls[0]);
      CallsGood(Perform(s, calls[0]), calls[1..]);
    }
  }

  /** The handle of a file opened and closed, when the path is leased again under the same descriptor and registration. */
  const STALE: Handle := Handle(0, 3, 7, 9)

  function TwinCalls(): seq<Call> {
    var o := Opened(true, 7, 9);
    [OpenCall(3, o), CloseCall(STALE), LeaseCall(3, None, true, o, None)]
  }

  lemma TwinReached()
    ensures ProperCalls(Session([], [], [], 0), TwinCalls())
    ensures var file := Handle(1, 3, 7, 9);
            AfterCalls(Session([], [], [], 0), TwinCalls())
            == Session([file], [Entry(1, 3, file, None, false, 1, 1)], [0], 2)
  {
    var s, o, file := Session([], [], [], 0), Opened(true, 7, 9), Handle(1, 3, 7, 9);
    var a, b, c := TwinCalls()[0], TwinCalls()[1], TwinCalls()[2];
    assert TwinCalls()[1..] == [b, c] && [b, c][1..] == [c] && [c][1..] == [];
    var x := Perform(s, a);
    assert x == Session([STALE], [], [], 1) && Proper(s, a);
    assert IndexOf([STALE], STALE) == 0 && HolderOf([], 0, 0) == -1;
    assert Without([STALE], 0) == [];
    var y := Perform(x, b);
    assert y == Session([], [], [0], 1) && Proper(x, b);
    assert CachedRead(y, 3, None, true, o) == Admit(y, 3, None, o);
    var z := Perform(y, c);
    assert z == Session([file], [Entry(1, 3, file, None, false, 1, 1)], [0], 2) && Proper(y, c);
    hide Perform, Proper;
    assert AfterCalls(z, []) == z && AfterCalls(y, [c]) == z && AfterCalls(x, [b, c]) == z;
    assert ProperCalls(z, []) && ProperCalls(y, [c]) && ProperCalls(x, [b, c]);
  }

  /**
   * A stale twin is reached by ordinary calls: closing the old handle again is accepted
   * and closes the file another caller leases, whose entry stays in the cache.
   */
  lemma StaleTwinReached()
    ensures ProperCalls(Session([], [], [], 0), TwinCalls())
    ensures var s := AfterCalls(Session([], [], [], 0), TwinCalls());
            var z := CloseFile(s, STALE).0;
            && Good(s) && Known(s, STALE) && StaleTwin(s, STALE)
            && |s.cached| == 1 && s.cached[0].leases == 1
            && CloseFile(s, STALE).1 == Done && !Good(z)
            && z.cached == s.cached && z.files == [] && s.cached[0].file.object_ in z.closed
  {
    TwinReached();
    Empty();
    CallsGood(Session([], [], [], 0), TwinCalls());
    var s := AfterCalls(Session([], [], [], 0), TwinCalls());
    assert IndexOf(s.files, STALE) == 0;
    assert HolderOf(s.cached, 0, 0) == -1 && HolderOf(s.cached, 1, 0) == 0;
    CloseKeepsGood(s, STALE);
    assert Without(s.files, 0) == [];
  }

  /**
   * After every sequence of calls: at most 64 cached entries, all for distinct open files
   * of the session, and no file object was closed twice.
   */
  lemma SessionInvariants(calls: seq<Call>)
    requires ProperCalls(Session([], [], [], 0), calls)
    ensures var s := AfterCalls(Session([], [], [], 0), calls);
            && |s.cached| <= LIMIT
            && (forall i :: 0 <= i < |s.cached| ==> s.cached[i].file in s.files)
            && (forall i, j :: 0 <= i < j < |s.cached| ==> s.cached[i].file.object_ != s.cached[j].file.object_)
            && (forall i, j :: 0 <= i < j < |s.closed| ==> s.closed[i] != s.closed[j])
  {
    Empty();
    CallsGood(Session([], [], [], 0), calls);
  }
}

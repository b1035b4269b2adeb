/**
 * What the cached reads and leases of a cuFile session
 * (src/cuphoton/xbeam/cufile_io.py) give their callers, case by case: which handle is
 * served, what is closed for it, and who is refused.
 */
module HandleLaws {
  import opened HandleCache
  import opened Options

  /** Entry i answers a request: its path, and the fingerprint if one is asked for. */
  predicate Answers(s: Session, i: nat, path: nat, fingerprint: Option<nat>)
    requires i < |s.cached|
  {
    s.cached[i].path == path && (fingerprint.None? || s.cached[i].fingerprint == fingerprint)
  }

  /** The path was cached from a source that has changed since. */
  predicate Outdated(s: Session, i: nat, path: nat, fingerprint: Option<nat>)
    requires i < |s.cached|
  {
    s.cached[i].path == path && fingerprint.Some? && s.cached[i].fingerprint != fingerprint
  }

  /** The one entry of a path. */
  lemma EntryFound(s: Session, i: nat)
    requires Good(s) && i < |s.cached|
    ensures EntryOf(s.cached, s.cached[i].path, 0) == i
  {
    var k := EntryOf(s.cached, s.cached[i].path, 0);
    assert k >= 0 && s.cached[k].path == s.cached[i].path;
  }

  predicate NotCached(s: Session, path: nat) {
    forall i :: 0 <= i < |s.cached| ==> s.cached[i].path != path
  }

  /** What the session becomes when the path is opened and cached, or the open fails. */
  predicate Opens(s: Session, path: nat, fingerprint: Option<nat>, o: Opened, z: Session, r: Outcome) {
    if o.ok then
      var file := Handle(s.clock, path, o.fd, o.handle);
      && r == Served(s.clock) && z.files == s.files + [file] && z.closed == s.closed && z.clock == s.clock + 1
      && z.cached == s.cached + [Entry(s.clock, path, file, fingerprint, false, 0, s.clock)]
    else z == s && r == Refused(CannotOpen)
  }

  /** Entry i is gone from the cache and its file is closed, nothing else. */
  predicate Evicted(s: Session, i: nat, z: Session)
    requires i < |s.cached|
  {
    && z.closed == s.closed + [s.cached[i].file.object_] && z.clock == s.clock
    && z.cached == s.cached[..i] + s.cached[i + 1..]
    && (forall f :: f in z.files ==> f in s.files) && |z.files| == |s.files| - 1 && s.cached[i].file !in z.files
  }

  lemma EvictsOne(s: Session, i: nat, validates: bool)
    requires Good(s) && i < |s.cached| && s.cached[i].leases == 0
    ensures Evicted(s, i, Evict(s, i, validates).0) && Good(Evict(s, i, validates).0)
    ensures Evict(s, i, validates).1 == if s.cached[i].validator && !validates then Refused(ValidationFailed) else Done
  {
    EvictRemoves(s, i, validates);
    var index := CachedFileIndex(s, i);
    CachedIsKnown(s, i);
    var z := Evict(s, i, validates).0;
    assert z.files == Without(s.files, index);
    WithoutMembers(s.files, index, s.cached[i].file);
    forall f | f in z.files ensures f in s.files {
      WithoutMembers(s.files, index, f);
    }
    hide Good;
  }

  /** A cached source is served as it is and becomes the most recently used. */
  lemma ReadHit(s: Session, i: nat, path: nat, fingerprint: Option<nat>, validates: bool, o: Opened)
    requires Good(s) && i < |s.cached| && Answers(s, i, path, fingerprint)
    ensures var (z, r) := CachedRead(s, path, fingerprint, validates, o);
            && r == Served(s.cached[i].id) && z.files == s.files && z.closed == s.closed
            && z.cached == s.cached[..i] + s.cached[i + 1..] + [s.cached[i].(used := s.clock)]
  {
    EntryFound(s, i);
    hide Miss, Evict, Good;
  }

  /** A changed source is refused while it is leased. */
  lemma ReadLeased(s: Session, i: nat, path: nat, fingerprint: Option<nat>, validates: bool, o: Opened)
    requires Good(s) && i < |s.cached| && Outdated(s, i, path, fingerprint) && s.cached[i].leases > 0
    ensures CachedRead(s, path, fingerprint, validates, o) == (s, Refused(SourceChanged))
  {
    EntryFound(s, i);
    hide Miss, Evict, Good;
  }

  /** Otherwise its old file is closed, and the path opened again unless the old validator complains. */
  lemma ReadChanged(s: Session, i: nat, path: nat, fingerprint: Option<nat>, validates: bool, o: Opened) returns (y: Session)
    requires Good(s) && i < |s.cached| && Outdated(s, i, path, fingerprint) && s.cached[i].leases == 0
    ensures Evicted(s, i, y)
    ensures var (z, r) := CachedRead(s, path, fingerprint, validates, o);
            if s.cached[i].validator && !validates then z == y && r == Refused(ValidationFailed)
            else Opens(y, path, fingerprint, o, z, r)
  {
    EntryFound(s, i);
    EvictsOne(s, i, validates);
    y := Evict(s, i, validates).0;
    assert |y.cached| < LIMIT;
    EvictRemoves(s, i, validates);
    PathGone(s, i, y);
    assert EntryOf(y.cached, path, 0) < 0;
    hide Good, Evict;
  }

  /** A path that is not cached is opened, as long as there is room. */
  lemma ReadRoom(s: Session, path: nat, fingerprint: Option<nat>, validates: bool, o: Opened)
    requires Good(s) && NotCached(s, path) && |s.cached| < 64
    ensures var (z, r) := CachedRead(s, path, fingerprint, validates, o); Opens(s, path, fingerprint, o, z, r)
  {
    assert EntryOf(s.cached, path, 0) < 0;
    hide Good, Evict;
  }

  /** In a full cache every entry of which is leased it is refused. */
  lemma ReadAllLeased(s: Session, path: nat, fingerprint: Option<nat>, validates: bool, o: Opened)
    requires Good(s) && NotCached(s, path) && |s.cached| == 64
    requires forall i :: 0 <= i < |s.cached| ==> s.cached[i].leases > 0
    ensures CachedRead(s, path, fingerprint, validates, o) == (s, Refused(AllLeased))
  {
    assert EntryOf(s.cached, path, 0) < 0 && VictimOf(s.cached, 0) < 0;
    hide Good, Evict;
  }

  /** Otherwise the least recently used unleased entry makes room, unless its validator complains. */
  lemma ReadFull(s: Session, path: nat, fingerprint: Option<nat>, validates: bool, o: Opened, i: nat) returns (y: Session)
    requires Good(s) && NotCached(s, path) && |s.cached| == 64 && i < 64 && s.cached[i].leases == 0
    requires forall k :: 0 <= k < |s.cached| && s.cached[k].leases == 0 ==> s.cached[i].used <= s.cached[k].used
    ensures Evicted(s, i, y)
    ensures var (z, r) := CachedRead(s, path, fingerprint, validates, o);
            if s.cached[i].validator && !validates then z == y && r == Refused(ValidationFailed)
            else Opens(y, path, fingerprint, o, z, r)
  {
    assert EntryOf(s.cached, path, 0) < 0;
    VictimIsOldest(s, i);
    assert VictimOf(s.cached, 0) == i;
    EvictsOne(s, i, validates);
    y := Evict(s, i, validates).0;
    hide Good, Evict;
  }

  /** Whatever the cache held, a served handle is open, of the path, and of the source asked for. */
  lemma ServesCurrent(s: Session, path: nat, fingerprint: Option<nat>, validates: bool, o: Opened)
    requires Good(s)
    ensures var (z, r) := CachedRead(s, path, fingerprint, validates, o);
            r.Served? ==>
              && z.cached != [] && z.cached[|z.cached| - 1].id == r.id && z.cached[|z.cached| - 1].file in z.files
              && z.cached[|z.cached| - 1].path == path
              && (fingerprint.Some? ==> z.cached[|z.cached| - 1].fingerprint == fingerprint)
  {
    if i :| 0 <= i < |s.cached| && s.cached[i].path == path {
      if Answers(s, i, path, fingerprint) {
        ReadHit(s, i, path, fingerprint, validates, o);
      } else if s.cached[i].leases > 0 {
        ReadLeased(s, i, path, fingerprint, validates, o);
      } else {
        var _ := ReadChanged(s, i, path, fingerprint, validates, o);
      }
    } else if |s.cached| < 64 {
      ReadRoom(s, path, fingerprint, validates, o);
    } else if VictimOf(s.cached, 0) < 0 {
      ReadAllLeased(s, path, fingerprint, validates, o);
    } else {
      var i := VictimOf(s.cached, 0);
      forall k | 0 <= k < |s.cached| && s.cached[k].leases == 0 ensures s.cached[i].used <= s.cached[k].used {
        VictimIsOldest(s, k);
      }
      var _ := ReadFull(s, path, fingerprint, validates, o, i);
    }
    hide CachedRead, Answers, Outdated, Evicted;
  }

  /** Closing an open file: refused while it is leased, otherwise it and its entry go, and it is closed. */
  lemma CloseExactly(s: Session, i: nat)
    requires Good(s) && i < |s.files|
    ensures var (z, r) := CloseFile(s, s.files[i]);
            if exists k :: 0 <= k < |s.cached| && s.cached[k].file == s.files[i] && s.cached[k].leases > 0 then
              z == s && r == Refused(Leased)
            else
              && r == Done && z.clock == s.clock && z.closed == s.closed + [s.files[i].object_]
              && z.files == s.files[..i] + s.files[i + 1..]
              && (forall e :: e in z.cached <==> e in s.cached && e.file != s.files[i])
  {
    OwnIndex(s, i);
    SameObject(s, i);
    var holder := HolderOf(s.cached, s.files[i].object_, 0);
    if holder >= 0 {
      HolderGone(s, i, holder);
    }
    hide Good;
  }

  /** A cached file with the identity of an open one is that one. */
  lemma SameObject(s: Session, i: nat)
    requires Good(s) && i < |s.files|
    ensures forall k :: 0 <= k < |s.cached| ==> (s.cached[k].file.object_ == s.files[i].object_ <==> s.cached[k].file == s.files[i])
  {
    forall k | 0 <= k < |s.cached| && s.cached[k].file.object_ == s.files[i].object_ ensures s.cached[k].file == s.files[i] {
      assert s.cached[k].file in s.files;
      var j :| 0 <= j < |s.files| && s.files[j] == s.cached[k].file;
    }
  }

  lemma HolderGone(s: Session, i: nat, holder: nat)
    requires Good(s) && i < |s.files| && holder < |s.cached| && s.cached[holder].file == s.files[i]
    ensures forall k :: 0 <= k < |s.cached| && s.cached[k].file == s.files[i] ==> k == holder
    ensures forall e :: e in Without(s.cached, holder) <==> e in s.cached && e.file != s.files[i]
  {
    var rest := Without(s.cached, holder);
    forall e ensures e in rest <==> e in s.cached && e.file != s.files[i] {
      if e in s.cached && e.file != s.files[i] {
        var k :| 0 <= k < |s.cached| && s.cached[k] == e;
        assert rest[if k < holder then k else k - 1] == e;
      }
      if e in rest {
        var k :| 0 <= k < |rest| && rest[k] == e;
        assert e == s.cached[if k < holder then k else k + 1];
      }
    }
  }

  // ----- leases -----
  /** Entry i of s with one lease more, and a validator if the caller brought one. */
  predicate LeasedOnce(s: Session, i: nat, checked: bool, z: Session)
    requires i < |s.cached|
  {
    var e := s.cached[i];
    z == s.(cached := s.cached[i := e.(leases := e.leases + 1, validator := checked || e.validator)])
  }

  /** A lease is the cached read and, unless the caller's validator complains, one more lease on what it served. */
  lemma LeaseExactly(s: Session, path: nat, fingerprint: Option<nat>, validates: bool, o: Opened, check: Option<bool>)
    requires Good(s) && FreshDescriptor(BeforeOpen(s, path, fingerprint, validates), o)
    ensures var (y, served) := CachedRead(s, path, fingerprint, validates, o);
            var (z, r) := Lease(s, path, fingerprint, validates, o, check);
            if !served.Served? then z == y && r == served
            else if check == Some(false) then z == y && r == Refused(ValidationFailed)
            else r == served && y.cached != [] && LeasedOnce(y, |y.cached| - 1, check.Some?, z)
  {
    ServesCurrent(s, path, fingerprint, validates, o);
    CachedReadGood(s, path, fingerprint, validates, o);
    LeaseEnters(s, path, fingerprint, validates, o, check);
    hide *;
  }

  lemma LeaseEnters(s: Session, path: nat, fingerprint: Option<nat>, validates: bool, o: Opened, check: Option<bool>)
    requires var (y, served) := CachedRead(s, path, fingerprint, validates, o);
             Good(y) && (served.Served? ==> y.cached != [] && y.cached[|y.cached| - 1].id == served.id)
    ensures var (y, served) := CachedRead(s, path, fingerprint, validates, o);
            var (z, r) := Lease(s, path, fingerprint, validates, o, check);
            if !served.Served? then z == y && r == served
            else if check == Some(false) then z == y && r == Refused(ValidationFailed)
            else r == served && y.cached != [] && LeasedOnce(y, |y.cached| - 1, check.Some?, z)
  {
    hide CachedRead, Good, LeaseEntry, LeasedOnce;
    var (y, served) := CachedRead(s, path, fingerprint, validates, o);
    if served.Served? {
      FoundLast(y, served.id);
      EntryLeased(y, |y.cached| - 1, check);
    }
  }

  lemma EntryLeased(y: Session, i: nat, check: Option<bool>)
    requires i < |y.cached|
    ensures var (z, r) := LeaseEntry(y, i, check);
            if check == Some(false) then z == y && r == Refused(ValidationFailed)
            else r == Served(y.cached[i].id) && LeasedOnce(y, i, check.Some?, z)
  {
  }

  lemma FoundLast(y: Session, id: nat)
    requires Good(y) && y.cached != [] && y.cached[|y.cached| - 1].id == id
    ensures FindEntry(y.cached, id, 0) == |y.cached| - 1
  {
    var i := FindEntry(y.cached, id, 0);
    assert i >= 0 && y.cached[i].id == y.cached[|y.cached| - 1].id;
  }

  /** Leaving a lease takes one from its entry, and only from that. */
  lemma ReleaseExactly(s: Session, i: nat)
    requires Good(s) && i < |s.cached|
    ensures Release(s, s.cached[i].id) == s.(cached := s.cached[i := s.cached[i].(
              leases := if s.cached[i].leases > 0 then s.cached[i].leases - 1 else 0)])
  {
    var k := FindEntry(s.cached, s.cached[i].id, 0);
    assert k >= 0 && s.cached[k].id == s.cached[i].id;
    assert k == i;
    if s.cached[i].leases == 0 {
      assert s.cached[i := s.cached[i].(leases := 0)] == s.cached;
    }
  }

  /** Entering and leaving a lease leaves the leases as they were. */
  lemma LeaseIsGivenBack(s: Session, path: nat, fingerprint: Option<nat>, validates: bool, o: Opened, check: Option<bool>)
    requires Good(s) && FreshDescriptor(BeforeOpen(s, path, fingerprint, validates), o)
    requires Lease(s, path, fingerprint, validates, o, check).1.Served?
    ensures var y := CachedRead(s, path, fingerprint, validates, o).0;
            var (z, r) := Lease(s, path, fingerprint, validates, o, check);
            && |Release(z, r.id).cached| == |y.cached|
            && forall k :: 0 <= k < |y.cached| ==>
                 Release(z, r.id).cached[k].(validator := false) == y.cached[k].(validator := false)
  {
    LeaseExactly(s, path, fingerprint, validates, o, check);
    ServesCurrent(s, path, fingerprint, validates, o);
    CachedReadGood(s, path, fingerprint, validates, o);
    hide CachedRead, Lease, Good, Release, LeasedKept, FreshDescriptor, BeforeOpen;
    GivenBack(CachedRead(s, path, fingerprint, validates, o).0, check.Some?, Lease(s, path, fingerprint, validates, o, check).0);
  }

  lemma GivenBack(y: Session, checked: bool, z: Session)
    requires Good(y) && y.cached != [] && LeasedOnce(y, |y.cached| - 1, checked, z)
    ensures var id := y.cached[|y.cached| - 1].id;
            && |Release(z, id).cached| == |y.cached|
            && forall k :: 0 <= k < |y.cached| ==>
                 Release(z, id).cached[k].(validator := false) == y.cached[k].(validator := false)
  {
    var last := |y.cached| - 1;
    WithLeasesGood(y, last, y.cached[last].leases + 1, checked || y.cached[last].validator);
    hide Good, Release;
    ReleaseExactly(z, last);
  }
}

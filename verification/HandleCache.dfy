/**
 * The registered-handle cache of a cuFile session
 * (src/cuphoton/xbeam/cufile_io.py) as values: every method is a function of the
 * session's files and cache. CuFileSessions computes them in place. Opening a
 * file, registering it and validating a source are parameters.
 */
module HandleCache {
  import opened Options

  /** A registered file; `object_` is its identity, the rest what equality compares. Paths are numbers. */
  datatype Handle = Handle(object_: nat, path: nat, fd: nat, handle: nat)

  /**
   * One cache entry. `id` is its identity; `used` is when it was last used, which the
   * program does not store and only statements about recency need.
   */
  datatype Entry = Entry(id: nat, path: nat, file: Handle, fingerprint: Option<nat>, validator: bool,
                         leases: nat, used: nat)

  /** `cached` is the ordered dictionary, least recently used first; `closed` every file object closed so far. */
  datatype Session = Session(files: seq<Handle>, cached: seq<Entry>, closed: seq<nat>, clock: nat)

  const LIMIT: nat := 64

  datatype Refusal =
    | CannotOpen | SourceChanged | AllLeased | NotOpenHere | Leased | ValidationFailed | NotEntered | BadBuffer

  datatype Outcome = Served(id: nat) | Done | Refused(reason: Refusal)

  /** What the file system gives for an open: a descriptor number and a registration, or nothing. */
  datatype Opened = Opened(ok: bool, fd: nat, handle: nat)

  predicate SameValue(a: Handle, b: Handle) {
    a.path == b.path && a.fd == b.fd && a.handle == b.handle
  }

  // ----- lookups -----

  /** self._files.index(file): by value. */
  function IndexOf(files: seq<Handle>, file: Handle): (i: int)
    ensures -1 <= i < |files|
    ensures i >= 0 ==> SameValue(files[i], file) && forall k :: 0 <= k < i ==> !SameValue(files[k], file)
    ensures i < 0 ==> forall k :: 0 <= k < |files| ==> !SameValue(files[k], file)
  {
    IndexFrom(files, file, 0)
  }

  function IndexFrom(files: seq<Handle>, file: Handle, from: nat): (i: int)
    requires from <= |files|
    ensures i == -1 || from <= i < |files|
    ensures i >= 0 ==> SameValue(files[i], file) && forall k :: from <= k < i ==> !SameValue(files[k], file)
    ensures i < 0 ==> forall k :: from <= k < |files| ==> !SameValue(files[k], file)
    decreases |files| - from
  {
    if from == |files| then -1 else if SameValue(files[from], file) then from else IndexFrom(files, file, from + 1)
  }

  /** The entry of a path, or -1. */
  function EntryOf(cached: seq<Entry>, path: nat, from: nat): (i: int)
    requires from <= |cached|
    ensures i == -1 || from <= i < |cached|
    ensures i >= 0 ==> cached[i].path == path
    ensures i < 0 ==> forall k :: from <= k < |cached| ==> cached[k].path != path
    decreases |cached| - from
  {
    if from == |cached| then -1 else if cached[from].path == path then from else EntryOf(cached, path, from + 1)
  }

  /** The entry holding a file object, by identity, or -1. */
  function HolderOf(cached: seq<Entry>, object_: nat, from: nat): (i: int)
    requires from <= |cached|
    ensures i == -1 || from <= i < |cached|
    ensures i >= 0 ==> cached[i].file.object_ == object_
    ensures i < 0 ==> forall k :: from <= k < |cached| ==> cached[k].file.object_ != object_
    decreases |cached| - from
  {
    if from == |cached| then -1
    else if cached[from].file.object_ == object_ then from
    else HolderOf(cached, object_, from + 1)
  }

  /** The first entry without a lease, or -1. */
  function VictimOf(cached: seq<Entry>, from: nat): (i: int)
    requires from <= |cached|
    ensures i == -1 || from <= i < |cached|
    ensures i >= 0 ==> cached[i].leases == 0 && forall k :: from <= k < i ==> cached[k].leases > 0
    ensures i < 0 ==> forall k :: from <= k < |cached| ==> cached[k].leases > 0
    decreases |cached| - from
  {
    if from == |cached| then -1 else if cached[from].leases == 0 then from else VictimOf(cached, from + 1)
  }

  function Without<T>(s: seq<T>, i: nat): (r: seq<T>)
    requires i < |s|
    ensures |r| == |s| - 1
    ensures forall k :: 0 <= k < |r| ==> r[k] == if k < i then s[k] else s[k + 1]
  {
    s[..i] + s[i + 1..]
  }

  // ----- operations -----

  /** close_file. */
  function CloseFile(s: Session, file: Handle): (Session, Outcome) {
    var index := IndexOf(s.files, file);
    if index < 0 then (s, Refused(NotOpenHere))
    else
      var holder := HolderOf(s.cached, file.object_, 0);
      if holder >= 0 && s.cached[holder].leases > 0 then (s, Refused(Leased))
      else
        (s.(files := Without(s.files, index),
            cached := if holder >= 0 then Without(s.cached, holder) else s.cached,
            closed := s.closed + [s.files[index].object_]), Done)
  }

  /** open: a new registration owned by the session. */
  function OpenFile(s: Session, path: nat, o: Opened): Session
    requires o.ok
  {
    s.(files := s.files + [Handle(s.clock, path, o.fd, o.handle)], clock := s.clock + 1)
  }

  /** _evict_cached of an unleased entry; its validator may complain, and the file is closed all the same. */
  function Evict(s: Session, i: nat, validates: bool): (Session, Outcome)
    requires i < |s.cached| && s.cached[i].leases == 0
  {
    var closed := CloseFile(s, s.cached[i].file);
    if s.cached[i].validator && !validates then (closed.0, Refused(ValidationFailed)) else closed
  }

  /** Open the path and cache it as the most recently used. */
  function Admit(s: Session, path: nat, fingerprint: Option<nat>, o: Opened): (Session, Outcome) {
    if !o.ok then (s, Refused(CannotOpen))
    else
      var t := OpenFile(s, path, o);
      var entry := Entry(s.clock, path, t.files[|t.files| - 1], fingerprint, false, 0, s.clock);
      (t.(cached := t.cached + [entry]), Served(s.clock))
  }

  /** The part of _cached_read after the lookup has missed. */
  function Miss(s: Session, path: nat, fingerprint: Option<nat>, validates: bool, o: Opened): (Session, Outcome) {
    if |s.cached| >= LIMIT then
      var victim := VictimOf(s.cached, 0);
      if victim < 0 then (s, Refused(AllLeased))
      else
        var evicted := Evict(s, victim, validates);
        if evicted.1 != Done then evicted else Admit(evicted.0, path, fingerprint, o)
    else Admit(s, path, fingerprint, o)
  }

  /** _cached_read; a missing fingerprint accepts any. */
  function CachedRead(s: Session, path: nat, fingerprint: Option<nat>, validates: bool, o: Opened): (Session, Outcome) {
    var i := EntryOf(s.cached, path, 0);
    if i < 0 then Miss(s, path, fingerprint, validates, o)
    else if fingerprint.Some? && s.cached[i].fingerprint != fingerprint then
      if s.cached[i].leases > 0 then (s, Refused(SourceChanged))
      else
        var evicted := Evict(s, i, validates);
        if evicted.1 != Done then evicted else Miss(evicted.0, path, fingerprint, validates, o)
    else
      (s.(cached := Without(s.cached, i) + [s.cached[i].(used := s.clock)], clock := s.clock + 1),
       Served(s.cached[i].id))
  }

  /** Entry number i with its leases and validator changed. */
  function WithLeases(s: Session, i: nat, leases: nat, validator: bool): Session
    requires i < |s.cached|
  {
    s.(cached := s.cached[i := s.cached[i].(leases := leases, validator := validator)])
  }

  /** The entry with an identity, or -1. */
  function FindEntry(cached: seq<Entry>, id: nat, from: nat): (i: int)
    requires from <= |cached|
    ensures i == -1 || from <= i < |cached|
    ensures i >= 0 ==> cached[i].id == id
    ensures i < 0 ==> forall k :: from <= k < |cached| ==> cached[k].id != id
    decreases |cached| - from
  {
    if from == |cached| then -1 else if cached[from].id == id then from else FindEntry(cached, id, from + 1)
  }

  /** What entering lease_file does to the entry: `check` is the caller's validator and its verdict, if it has one. */
  function LeaseEntry(s: Session, i: nat, check: Option<bool>): (Session, Outcome)
    requires i < |s.cached|
  {
    if check == Some(false) then (s, Refused(ValidationFailed))
    else (WithLeases(s, i, s.cached[i].leases + 1, check.Some? || s.cached[i].validator), Served(s.cached[i].id))
  }

  /** Entering lease_file. */
  function Lease(s: Session, path: nat, fingerprint: Option<nat>, validates: bool, o: Opened, check: Option<bool>)
    : (Session, Outcome)
  {
    var r := CachedRead(s, path, fingerprint, validates, o);
    if !r.1.Served? then r
    else
      var i := FindEntry(r.0.cached, r.1.id, 0);
      if i < 0 then r else LeaseEntry(r.0, i, check)
  }

  /** Leaving it; an entry the session has already dropped only loses its own count. */
  function Release(s: Session, id: nat): Session {
    var i := FindEntry(s.cached, id, 0);
    if i < 0 || s.cached[i].leases == 0 then s else WithLeases(s, i, s.cached[i].leases - 1, s.cached[i].validator)
  }

  /** finish_cached_reads: every validator is forgotten, whatever it says. */
  function FinishReads(s: Session): Session {
    s.(cached := Unvalidated(s.cached))
  }

  function Unvalidated(cached: seq<Entry>): (r: seq<Entry>)
    ensures |r| == |cached| && forall i :: 0 <= i < |r| ==> r[i] == cached[i].(validator := false)
  {
    seq(|cached|, i requires 0 <= i < |cached| => cached[i].(validator := false))
  }

  /** It complains when some entry is leased or some validator does. */
  predicate FinishComplains(s: Session, rejects: set<nat>) {
    exists i :: 0 <= i < |s.cached| && (s.cached[i].leases > 0 || (s.cached[i].validator && s.cached[i].id in rejects))
  }

  function Objects(files: seq<Handle>): (r: seq<nat>)
    ensures |r| == |files| && forall i :: 0 <= i < |r| ==> r[i] == files[|files| - 1 - i].object_
  {
    seq(|files|, i requires 0 <= i < |files| => files[|files| - 1 - i].object_)
  }

  /** close: every file, last opened first; the cache goes with them. */
  function CloseSession(s: Session): Session {
    Session([], [], s.closed + Objects(s.files), s.clock)
  }

  // ----- what is kept -----

  predicate FilesDistinct(s: Session) {
    && (forall i, j :: 0 <= i < j < |s.files| ==> s.files[i].object_ != s.files[j].object_ && s.files[i].fd != s.files[j].fd)
    && (forall i :: 0 <= i < |s.files| ==> s.files[i].object_ < s.clock)
  }

  predicate ClosedOnce(s: Session) {
    && (forall i, j :: 0 <= i < j < |s.closed| ==> s.closed[i] != s.closed[j])
    && (forall i :: 0 <= i < |s.closed| ==> s.closed[i] < s.clock)
    && (forall i, j :: 0 <= i < |s.closed| && 0 <= j < |s.files| ==> s.closed[i] != s.files[j].object_)
  }

  /** Cache entries are distinct, ordered by last use, and not more than the limit. */
  predicate CacheOrdered(s: Session) {
    && |s.cached| <= LIMIT
    && (forall i, j :: 0 <= i < j < |s.cached| ==>
          s.cached[i].used < s.cached[j].used && s.cached[i].path != s.cached[j].path
          && s.cached[i].id != s.cached[j].id && s.cached[i].file.object_ != s.cached[j].file.object_)
    && (forall i :: 0 <= i < |s.cached| ==> s.cached[i].used < s.clock && s.cached[i].id < s.clock)
  }

  /** Every cached file is an open file of the session. */
  predicate CacheOpen(s: Session) {
    forall i :: 0 <= i < |s.cached| ==> s.cached[i].file in s.files
  }

  predicate Good(s: Session) {
    FilesDistinct(s) && ClosedOnce(s) && CacheOrdered(s) && CacheOpen(s)
  }

  /** The operating system hands out a descriptor number that is not in use. */
  predicate FreshDescriptor(s: Session, o: Opened) {
    o.ok ==> forall i :: 0 <= i < |s.files| ==> s.files[i].fd != o.fd
  }

  /** A handle equal in value to an open cached file without being that file. */
  predicate StaleTwin(s: Session, file: Handle) {
    var index := IndexOf(s.files, file);
    index >= 0 && s.files[index].object_ != file.object_ && HolderOf(s.cached, s.files[index].object_, 0) >= 0
  }

  lemma Empty()
    ensures Good(Session([], [], [], 0))
  {
  }

  // ----- removal -----

  lemma WithoutMembers(files: seq<Handle>, i: nat, x: Handle)
    requires i < |files|
    requires forall j, k :: 0 <= j < k < |files| ==> files[j].object_ != files[k].object_
    ensures x in Without(files, i) <==> x in files && x.object_ != files[i].object_
  {
    var r := Without(files, i);
    if x in r {
      var k :| 0 <= k < |r| && r[k] == x;
      assert x == files[if k < i then k else k + 1];
    }
    if x in files && x.object_ != files[i].object_ {
      var k :| 0 <= k < |files| && files[k] == x;
      assert r[if k < i then k else k - 1] == x;
    }
  }

  /** Closing the file at an index, with its cache entry if it has one. */
  function Drop(s: Session, index: nat, holder: int): Session
    requires index < |s.files| && -1 <= holder < |s.cached|
  {
    s.(files := Without(s.files, index), cached := if holder >= 0 then Without(s.cached, holder) else s.cached,
       closed := s.closed + [s.files[index].object_])
  }

  lemma DropFiles(s: Session, index: nat, holder: int)
    requires Good(s) && index < |s.files| && -1 <= holder < |s.cached|
    ensures FilesDistinct(Drop(s, index, holder)) && ClosedOnce(Drop(s, index, holder)) && CacheOrdered(Drop(s, index, holder))
  {
    DropDistinct(s, index, holder);
    DropClosed(s, index, holder);
    DropOrdered(s, index, holder);
  }

  lemma DropDistinct(s: Session, index: nat, holder: int)
    requires FilesDistinct(s) && index < |s.files| && -1 <= holder < |s.cached|
    ensures FilesDistinct(Drop(s, index, holder))
  {
    var r := Without(s.files, index);
    assert forall k :: 0 <= k < |r| ==> r[k] == s.files[if k < index then k else k + 1];
  }

  lemma DropClosed(s: Session, index: nat, holder: int)
    requires FilesDistinct(s) && ClosedOnce(s) && index < |s.files| && -1 <= holder < |s.cached|
    ensures ClosedOnce(Drop(s, index, holder))
  {
    var r := Without(s.files, index);
    forall k | 0 <= k < |r| ensures r[k] in s.files && r[k].object_ != s.files[index].object_ {
      assert r[k] == s.files[if k < index then k else k + 1];
    }
  }

  lemma DropOrdered(s: Session, index: nat, holder: int)
    requires CacheOrdered(s) && index < |s.files| && -1 <= holder < |s.cached|
    ensures CacheOrdered(Drop(s, index, holder))
  {
    if holder >= 0 {
      var r := Without(s.cached, holder);
      assert forall k :: 0 <= k < |r| ==> r[k] == s.cached[if k < holder then k else k + 1];
    }
  }

  lemma DropCacheOpen(s: Session, index: nat, holder: int)
    requires Good(s) && index < |s.files| && -1 <= holder < |s.cached|
    requires holder == HolderOf(s.cached, s.files[index].object_, 0)
    ensures CacheOpen(Drop(s, index, holder))
  {
    var z := Drop(s, index, holder);
    forall i | 0 <= i < |z.cached| ensures z.cached[i].file in z.files {
      var k := if holder >= 0 && i >= holder then i + 1 else i;
      assert z.cached[i] == s.cached[k];
      WithoutMembers(s.files, index, s.cached[k].file);
    }
  }

  /** A handle is the object it claims to be. */
  predicate Known(s: Session, file: Handle) {
    forall i :: 0 <= i < |s.files| && s.files[i].object_ == file.object_ ==> s.files[i] == file
  }

  /** The holder of an object that is not an open file does not exist. */
  lemma NoHolder(s: Session, file: Handle, index: nat)
    requires Good(s) && Known(s, file) && index < |s.files| && SameValue(s.files[index], file)
    requires s.files[index].object_ != file.object_
    ensures HolderOf(s.cached, file.object_, 0) < 0
  {
    forall h | 0 <= h < |s.cached| ensures s.cached[h].file.object_ != file.object_ {
      var k :| 0 <= k < |s.files| && s.files[k] == s.cached[h].file;
    }
  }

  /**
   * Closing keeps the invariants exactly when the handle passed is not a stale twin: a
   * handle left from an earlier open that equals an open cached file in path,
   * descriptor and registration. Then the twin's file is closed under its cache entry.
   */
  lemma CloseKeepsGood(s: Session, file: Handle)
    requires Good(s) && Known(s, file)
    ensures Good(CloseFile(s, file).0) <==> !StaleTwin(s, file)
  {
    var index := IndexOf(s.files, file);
    if index >= 0 {
      if s.files[index].object_ == file.object_ {
        OwnCloseGood(s, file, index);
      } else {
        NoHolder(s, file, index);
        TwinCloses(s, file, index);
      }
    }
  }

  lemma OwnCloseGood(s: Session, file: Handle, index: nat)
    requires Good(s) && index == IndexOf(s.files, file) && s.files[index].object_ == file.object_
    ensures Good(CloseFile(s, file).0) && !StaleTwin(s, file)
  {
    var holder := HolderOf(s.cached, file.object_, 0);
    DropFiles(s, index, holder);
    DropCacheOpen(s, index, holder);
    hide FilesDistinct, ClosedOnce, CacheOrdered, CacheOpen, Without;
  }

  lemma TwinCloses(s: Session, file: Handle, index: nat)
    requires Good(s) && index == IndexOf(s.files, file) && s.files[index].object_ != file.object_
    requires HolderOf(s.cached, file.object_, 0) < 0
    ensures Good(CloseFile(s, file).0) <==> !StaleTwin(s, file)
  {
    DropFiles(s, index, -1);
    TwinCacheOpen(s, index);
    assert CloseFile(s, file).0 == Drop(s, index, -1);
    hide FilesDistinct, ClosedOnce, CacheOrdered, CacheOpen, Without, Drop;
  }

  lemma TwinCacheOpen(s: Session, index: nat)
    requires Good(s) && index < |s.files|
    ensures CacheOpen(Drop(s, index, -1)) <==> HolderOf(s.cached, s.files[index].object_, 0) < 0
  {
    var holder := HolderOf(s.cached, s.files[index].object_, 0);
    if holder < 0 {
      DropCacheOpen(s, index, holder);
    } else {
      WithoutMembers(s.files, index, s.cached[holder].file);
    }
  }

  /** A refused close changes nothing. */
  lemma RefusedCloseKeepsState(s: Session, file: Handle)
    ensures CloseFile(s, file).1.Refused? ==> CloseFile(s, file).0 == s
  {
  }

  // ----- eviction and admission -----

  lemma CachedIsKnown(s: Session, i: nat)
    requires Good(s) && i < |s.cached|
    ensures Known(s, s.cached[i].file) && !StaleTwin(s, s.cached[i].file)
    ensures HolderOf(s.cached, s.cached[i].file.object_, 0) == i
  {
    var f := s.cached[i].file;
    var k :| 0 <= k < |s.files| && s.files[k] == f;
    OwnIndex(s, k);
    assert HolderOf(s.cached, f.object_, 0) >= 0;
  }

  /** An open file is found at its own index. */
  lemma OwnIndex(s: Session, k: nat)
    requires FilesDistinct(s) && k < |s.files|
    ensures IndexOf(s.files, s.files[k]) == k
  {
    var index := IndexOf(s.files, s.files[k]);
    assert index >= 0 && s.files[index].fd == s.files[k].fd;
  }

  /** Eviction removes exactly the entry and closes exactly its file. */
  lemma EvictRemoves(s: Session, i: nat, validates: bool)
    requires Good(s) && i < |s.cached| && s.cached[i].leases == 0
    ensures var z := Evict(s, i, validates).0;
            && Good(z) && z.cached == Without(s.cached, i) && z.clock == s.clock
            && z.closed == s.closed + [s.cached[i].file.object_]
            && (forall k :: 0 <= k < |z.files| ==> z.files[k] in s.files)
  {
    var index := CachedFileIndex(s, i);
    CachedIsKnown(s, i);
    assert CloseFile(s, s.cached[i].file) == (Drop(s, index, i), Done);
    DropFiles(s, index, i);
    DropCacheOpen(s, index, i);
    FilesLeft(s, index);
    hide FilesDistinct, ClosedOnce, CacheOrdered, CacheOpen, Without;
  }

  lemma CachedFileIndex(s: Session, i: nat) returns (index: nat)
    requires Good(s) && i < |s.cached|
    ensures index < |s.files| && s.files[index] == s.cached[i].file && IndexOf(s.files, s.cached[i].file) == index
  {
    index :| 0 <= index < |s.files| && s.files[index] == s.cached[i].file;
    OwnIndex(s, index);
  }

  lemma FilesLeft(s: Session, index: nat)
    requires index < |s.files|
    ensures forall k :: 0 <= k < |s.files| - 1 ==> Without(s.files, index)[k] in s.files
  {
    forall k | 0 <= k < |s.files| - 1 ensures Without(s.files, index)[k] in s.files {
      assert Without(s.files, index)[k] == s.files[if k < index then k else k + 1];
    }
  }

  lemma AdmitGood(s: Session, path: nat, fingerprint: Option<nat>, o: Opened)
    requires Good(s) && |s.cached| < LIMIT && FreshDescriptor(s, o)
    requires forall k :: 0 <= k < |s.cached| ==> s.cached[k].path != path
    ensures Good(Admit(s, path, fingerprint, o).0)
  {
    if o.ok {
      var z := Admit(s, path, fingerprint, o).0;
      AdmitFiles(s, path, o);
      forall i | 0 <= i < |z.cached| ensures z.cached[i].file in z.files {
        if i < |s.cached| {
          assert z.cached[i] == s.cached[i] && s.cached[i].file in s.files;
        } else {
          assert z.files[|s.files|] == z.cached[i].file;
        }
      }
      AdmitOrdered(s, path, fingerprint, o);
    }
  }

  lemma AdmitFiles(s: Session, path: nat, o: Opened)
    requires Good(s) && FreshDescriptor(s, o) && o.ok
    ensures FilesDistinct(OpenFile(s, path, o)) && ClosedOnce(OpenFile(s, path, o))
  {
  }

  lemma AdmitOrdered(s: Session, path: nat, fingerprint: Option<nat>, o: Opened)
    requires Good(s) && |s.cached| < LIMIT && o.ok
    requires forall k :: 0 <= k < |s.cached| ==> s.cached[k].path != path
    ensures CacheOrdered(Admit(s, path, fingerprint, o).0)
  {
    forall i | 0 <= i < |s.cached| ensures s.cached[i].file.object_ < s.clock {
      var k :| 0 <= k < |s.files| && s.files[k] == s.cached[i].file;
    }
  }

  /** The session at the moment a missing path is opened. */
  function Room(s: Session, validates: bool): Session {
    var victim := VictimOf(s.cached, 0);
    if |s.cached| >= LIMIT && victim >= 0 then Evict(s, victim, validates).0 else s
  }

  /** The session at the moment _cached_read opens the path, if it does. */
  function BeforeOpen(s: Session, path: nat, fingerprint: Option<nat>, validates: bool): Session {
    var i := EntryOf(s.cached, path, 0);
    if i >= 0 && fingerprint.Some? && s.cached[i].fingerprint != fingerprint && s.cached[i].leases == 0 then
      Room(Evict(s, i, validates).0, validates)
    else Room(s, validates)
  }

  /** Leased entries of s are still in z, with the same file and leases. */
  predicate LeasedKept(s: Session, z: Session) {
    forall i :: 0 <= i < |s.cached| && s.cached[i].leases > 0 ==> StillCached(z, s.cached[i])
  }

  predicate StillCached(z: Session, e: Entry) {
    exists j :: 0 <= j < |z.cached| && z.cached[j].id == e.id && z.cached[j].file == e.file && z.cached[j].leases == e.leases
  }

  lemma WithoutKeeps(cached: seq<Entry>, i: nat, z: Session)
    requires i < |cached| && cached[i].leases == 0 && z.cached == Without(cached, i)
    ensures forall k :: 0 <= k < |cached| && cached[k].leases > 0 ==> StillCached(z, cached[k])
  {
    forall k | 0 <= k < |cached| && cached[k].leases > 0 ensures StillCached(z, cached[k]) {
      assert z.cached[if k < i then k else k - 1] == cached[k];
    }
  }

  lemma SameCacheKept(s: Session, z: Session)
    requires forall i :: 0 <= i < |s.cached| ==> i < |z.cached| && z.cached[i] == s.cached[i]
    ensures LeasedKept(s, z)
  {
  }

  lemma KeptChain(s: Session, y: Session, z: Session)
    requires LeasedKept(s, y) && LeasedKept(y, z)
    ensures LeasedKept(s, z)
  {
    forall i | 0 <= i < |s.cached| && s.cached[i].leases > 0 ensures StillCached(z, s.cached[i]) {
      assert StillCached(y, s.cached[i]);
      var j :| 0 <= j < |y.cached| && y.cached[j].id == s.cached[i].id && y.cached[j].file == s.cached[i].file
               && y.cached[j].leases == s.cached[i].leases;
      assert StillCached(z, y.cached[j]);
    }
  }

  lemma EvictKeepsLeased(s: Session, i: nat, validates: bool)
    requires Good(s) && i < |s.cached| && s.cached[i].leases == 0
    ensures LeasedKept(s, Evict(s, i, validates).0)
  {
    EvictRemoves(s, i, validates);
    WithoutKeeps(s.cached, i, Evict(s, i, validates).0);
  }

  lemma AdmitKeeps(s: Session, path: nat, fingerprint: Option<nat>, o: Opened)
    requires Good(s) && |s.cached| < LIMIT && FreshDescriptor(s, o)
    requires forall k :: 0 <= k < |s.cached| ==> s.cached[k].path != path
    ensures Good(Admit(s, path, fingerprint, o).0) && LeasedKept(s, Admit(s, path, fingerprint, o).0)
  {
    AdmitGood(s, path, fingerprint, o);
    SameCacheKept(s, Admit(s, path, fingerprint, o).0);
  }

  /** Evicting leaves room, keeps leases and forgets no other path. */
  lemma EvictKeeps(s: Session, i: nat, validates: bool, path: nat)
    requires Good(s) && i < |s.cached| && s.cached[i].leases == 0
    requires forall k :: 0 <= k < |s.cached| ==> s.cached[k].path != path
    ensures var z := Evict(s, i, validates).0;
            && Good(z) && LeasedKept(s, z) && |z.cached| == |s.cached| - 1
            && forall k :: 0 <= k < |z.cached| ==> z.cached[k].path != path
  {
    EvictRemoves(s, i, validates);
    EvictKeepsLeased(s, i, validates);
    hide Good, LeasedKept, Evict;
  }

  lemma MissGood(s: Session, path: nat, fingerprint: Option<nat>, validates: bool, o: Opened)
    requires Good(s) && FreshDescriptor(Room(s, validates), o)
    requires forall k :: 0 <= k < |s.cached| ==> s.cached[k].path != path
    ensures Good(Miss(s, path, fingerprint, validates, o).0) && LeasedKept(s, Miss(s, path, fingerprint, validates, o).0)
  {
    var victim := VictimOf(s.cached, 0);
    FullCache(s);
    SameCacheKept(s, s);
    hide Good, LeasedKept, FreshDescriptor, Admit, Evict;
    if |s.cached| < LIMIT {
      AdmitKeeps(s, path, fingerprint, o);
    } else if victim >= 0 {
      ReplaceKeeps(s, victim, path, fingerprint, validates, o);
    }
  }

  /** Evicting the victim and, unless its validator complains, admitting the path. */
  lemma ReplaceKeeps(s: Session, victim: nat, path: nat, fingerprint: Option<nat>, validates: bool, o: Opened)
    requires Good(s) && victim < |s.cached| <= LIMIT && s.cached[victim].leases == 0
    requires FreshDescriptor(Evict(s, victim, validates).0, o)
    requires forall k :: 0 <= k < |s.cached| ==> s.cached[k].path != path
    ensures var y := Evict(s, victim, validates).0;
            && Good(y) && LeasedKept(s, y)
            && Good(Admit(y, path, fingerprint, o).0) && LeasedKept(s, Admit(y, path, fingerprint, o).0)
  {
    hide Good, LeasedKept, FreshDescriptor, Admit, Evict;
    var y := Evict(s, victim, validates).0;
    EvictKeeps(s, victim, validates, path);
    AdmitKeeps(y, path, fingerprint, o);
    KeptChain(s, y, Admit(y, path, fingerprint, o).0);
  }

  lemma FullCache(s: Session)
    requires Good(s)
    ensures |s.cached| <= LIMIT
  {
  }

  lemma TouchGood(s: Session, i: nat)
    requires Good(s) && i < |s.cached|
    ensures var z := s.(cached := Without(s.cached, i) + [s.cached[i].(used := s.clock)], clock := s.clock + 1);
            Good(z) && LeasedKept(s, z)
  {
    var r := Without(s.cached, i);
    var z := s.(cached := r + [s.cached[i].(used := s.clock)], clock := s.clock + 1);
    assert forall k :: 0 <= k < |r| ==> z.cached[k] == s.cached[if k < i then k else k + 1];
    assert z.cached[|r|] == s.cached[i].(used := s.clock);
    forall k | 0 <= k < |s.cached| && s.cached[k].leases > 0 ensures StillCached(z, s.cached[k]) {
      assert z.cached[if k < i then k else if k == i then |r| else k - 1].id == s.cached[k].id;
    }
    TouchOrdered(s, i, z);
  }

  lemma TouchOrdered(s: Session, i: nat, z: Session)
    requires CacheOrdered(s) && i < |s.cached| && z.clock == s.clock + 1
    requires z.cached == Without(s.cached, i) + [s.cached[i].(used := s.clock)]
    ensures CacheOrdered(z)
  {
    var r := Without(s.cached, i);
    forall k | 0 <= k < |r|
      ensures r[k].id != s.cached[i].id && r[k].path != s.cached[i].path && r[k].file.object_ != s.cached[i].file.object_
      ensures r[k].used < s.clock
    {
      assert r[k] == s.cached[if k < i then k else k + 1];
    }
    DropOrderedEntries(s, i);
    hide Without;
  }

  lemma DropOrderedEntries(s: Session, i: nat)
    requires CacheOrdered(s) && i < |s.cached|
    ensures CacheOrdered(s.(cached := Without(s.cached, i)))
  {
    var r := Without(s.cached, i);
    assert forall k :: 0 <= k < |r| ==> r[k] == s.cached[if k < i then k else k + 1];
  }

  /** Reading through the cache keeps the invariants and never removes a leased entry. */
  lemma CachedReadGood(s: Session, path: nat, fingerprint: Option<nat>, validates: bool, o: Opened)
    requires Good(s) && FreshDescriptor(BeforeOpen(s, path, fingerprint, validates), o)
    ensures var z := CachedRead(s, path, fingerprint, validates, o).0; Good(z) && LeasedKept(s, z)
  {
    var i := EntryOf(s.cached, path, 0);
    SameCacheKept(s, s);
    if i < 0 {
      MissGood(s, path, fingerprint, validates, o);
    } else if fingerprint.Some? && s.cached[i].fingerprint != fingerprint {
      if s.cached[i].leases == 0 {
        StaleSourceGood(s, i, fingerprint, validates, o);
      }
    } else {
      TouchGood(s, i);
    }
    hide Good, LeasedKept, FreshDescriptor, Miss, Evict, BeforeOpen, Without;
  }

  /** A changed source: the old entry is evicted and the path opened again. */
  lemma StaleSourceGood(s: Session, i: nat, fingerprint: Option<nat>, validates: bool, o: Opened)
    requires Good(s) && i < |s.cached| && s.cached[i].leases == 0
    requires FreshDescriptor(Room(Evict(s, i, validates).0, validates), o)
    ensures var z := Miss(Evict(s, i, validates).0, s.cached[i].path, fingerprint, validates, o).0;
            Good(z) && LeasedKept(s, z)
    ensures Good(Evict(s, i, validates).0) && LeasedKept(s, Evict(s, i, validates).0)
  {
    EvictRemoves(s, i, validates);
    EvictKeepsLeased(s, i, validates);
    var y := Evict(s, i, validates).0;
    PathGone(s, i, y);
    hide Good, LeasedKept, FreshDescriptor, Miss, Evict, Without;
    MissGood(y, s.cached[i].path, fingerprint, validates, o);
    KeptChain(s, y, Miss(y, s.cached[i].path, fingerprint, validates, o).0);
  }

  lemma PathGone(s: Session, i: nat, y: Session)
    requires CacheOrdered(s) && i < |s.cached| && y.cached == Without(s.cached, i)
    ensures forall k :: 0 <= k < |y.cached| ==> y.cached[k].path != s.cached[i].path
  {
    assert forall k :: 0 <= k < |y.cached| ==> y.cached[k] == s.cached[if k < i then k else k + 1];
  }

  /** The entry chosen for eviction is the least recently used of those without a lease. */
  lemma VictimIsOldest(s: Session, k: nat)
    requires Good(s) && k < |s.cached| && s.cached[k].leases == 0
    ensures 0 <= VictimOf(s.cached, 0) < |s.cached| && s.cached[VictimOf(s.cached, 0)].used <= s.cached[k].used
  {
  }

  lemma WithLeasesGood(s: Session, i: nat, leases: nat, validator: bool)
    requires Good(s) && i < |s.cached|
    ensures Good(WithLeases(s, i, leases, validator))
  {
    var z := WithLeases(s, i, leases, validator);
    assert forall k :: 0 <= k < |s.cached| ==>
      z.cached[k].file == s.cached[k].file && z.cached[k].id == s.cached[k].id && z.cached[k].path == s.cached[k].path
      && z.cached[k].used == s.cached[k].used;
  }

  lemma FinishReadsGood(s: Session)
    requires Good(s)
    ensures Good(FinishReads(s))
  {
    var z := FinishReads(s);
    assert forall k :: 0 <= k < |s.cached| ==> z.cached[k] == s.cached[k].(validator := false);
  }

  lemma CloseSessionGood(s: Session)
    requires Good(s)
    ensures Good(CloseSession(s))
    ensures forall i :: 0 <= i < |s.files| ==> s.files[i].object_ in CloseSession(s).closed
  {
    var objects := Objects(s.files);
    forall i | 0 <= i < |s.files| ensures s.files[i].object_ in CloseSession(s).closed {
      assert objects[|s.files| - 1 - i] == s.files[i].object_;
      assert CloseSession(s).closed[|s.closed| + (|s.files| - 1 - i)] == s.files[i].object_;
    }
  }

  /** Closing a file never removes a leased entry. */
  lemma CloseKeepsLeased(s: Session, file: Handle)
    requires Good(s) && Known(s, file)
    ensures LeasedKept(s, CloseFile(s, file).0)
  {
    var holder := HolderOf(s.cached, file.object_, 0);
    var z := CloseFile(s, file).0;
    if IndexOf(s.files, file) < 0 || holder < 0 || s.cached[holder].leases > 0 {
      assert z.cached == s.cached;
      SameCacheKept(s, z);
    } else {
      assert z.cached == Without(s.cached, holder);
      WithoutKeeps(s.cached, holder, z);
    }
    hide CloseFile, Good, StillCached, Without;
  }
}

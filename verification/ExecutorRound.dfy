/**
 * The evidence a worker writes (execute_worker_round of
 * src/cuphoton/core/execution.py) and the audit that reads it: a round is a success
 * exactly for one success record an item and one success receipt a worker, as the
 * executor writes them, in any order.
 */
module ExecutorRound {
  import opened Audit
  import opened GreedySharding
  import opened RoundAudit
  import opened Sharding
  import opened Sums

  // ----- what the executor writes -----

  /** The parts of a path, as str(path) shows it. */
  function PathText(parts: seq<string>): string {
    if parts == [] then "" else if |parts| == 1 then parts[0] else parts[0] + "/" + PathText(parts[1..])
  }

  /**
   * The record of an item whose run was validated: its output is items/<id> below the
   * round, its summary in there, and the identity written last. `errorValid` is what a
   * failed record needs.
   */
  function SuccessRecord(itemId: string, weightBytes: nat, worker: nat, identity: RoundIdentity): Record {
    Record(
      Text(itemId), Text("cuphoton.core.execution-item/v1"), Text(identity.runId), Text(identity.manifest),
      Text(identity.backend), Number(worker), Number(weightBytes), Text("success"), Text(identity.backend),
      Text(PathText(["items", itemId])), Text(PathText(["items", itemId, "summary.json"])),
      true, true, true, true, true, true, true, false)
  }

  /** The receipt of a worker all of whose records were written as successes. */
  function SuccessReceipt(shard: seq<WorkItem>, worker: nat, identity: RoundIdentity): Receipt {
    Receipt(
      Number(worker), Text("cuphoton.core.execution-worker/v1"), Text(identity.runId), Text(identity.manifest),
      seq(|shard|, j requires 0 <= j < |shard| => shard[j].itemId), true, Number(Bytes(shard)),
      Number(|shard|), Number(0), Text("success"), true, 0, false, false, true, Number(worker), true)
  }

  function ShardRecords(shard: seq<WorkItem>, worker: nat, identity: RoundIdentity): (r: seq<Record>)
    ensures |r| == |shard|
  {
    seq(|shard|, j requires 0 <= j < |shard| => SuccessRecord(shard[j].itemId, shard[j].weightBytes, worker, identity))
  }

  /** The records of the first n workers. */
  function WrittenRecords(shards: seq<seq<WorkItem>>, identity: RoundIdentity, n: nat): seq<Record>
    requires n <= |shards|
  {
    if n == 0 then [] else WrittenRecords(shards, identity, n - 1) + ShardRecords(shards[n - 1], n - 1, identity)
  }

  function WrittenReceipts(shards: seq<seq<WorkItem>>, identity: RoundIdentity): (r: seq<Receipt>)
    ensures |r| == |shards| && forall k :: 0 <= k < |r| ==> r[k] == SuccessReceipt(shards[k], k, identity)
  {
    seq(|shards|, k requires 0 <= k < |shards| => SuccessReceipt(shards[k], k, identity))
  }

  /** Records as far as the audit of a success looks at them. */
  function Audited(records: seq<Record>): (r: seq<Record>)
    ensures |r| == |records| && forall i :: 0 <= i < |r| ==> r[i] == records[i].(errorValid := false)
  {
    seq(|records|, i requires 0 <= i < |records| => records[i].(errorValid := false))
  }

  /** The evidence of a round in which everything went well. */
  predicate AllWritten(e: Evidence, identity: RoundIdentity, shards: seq<seq<WorkItem>>) {
    && multiset(Audited(e.records)) == multiset(WrittenRecords(shards, identity, |shards|))
    && multiset(e.receipts) == multiset(WrittenReceipts(shards, identity))
  }

  // ----- sequences up to order -----

  function Mapped<T, U>(f: T -> U, s: seq<T>): (r: seq<U>)
    ensures |r| == |s| && forall i :: 0 <= i < |r| ==> r[i] == f(s[i])
  {
    seq(|s|, i requires 0 <= i < |s| => f(s[i]))
  }

  lemma {:induction false} MappedCount<T, U>(f: T -> U, s: seq<T>, u: U)
    ensures multiset(Mapped(f, s))[u] == Sum((x: T) => if f(x) == u then 1 else 0, s)
  {
    if s != [] {
      var last := |s| - 1;
      MappedCount(f, s[..last], u);
      assert Mapped(f, s) == Mapped(f, s[..last]) + [f(s[last])];
    }
  }

  lemma MappedPermutes<T, U(!new)>(f: T -> U, s: seq<T>, t: seq<T>)
    requires multiset(s) == multiset(t)
    ensures multiset(Mapped(f, s)) == multiset(Mapped(f, t))
  {
    forall u ensures multiset(Mapped(f, s))[u] == multiset(Mapped(f, t))[u] {
      MappedCount(f, s, u);
      MappedCount(f, t, u);
      SumPermutation((x: T) => if f(x) == u then 1 else 0, s, t);
    }
  }

  lemma SameMembers<T>(s: seq<T>, t: seq<T>, x: T)
    requires multiset(s) == multiset(t)
    ensures x in s <==> x in t
  {
    assert x in s <==> x in multiset(s);
    assert x in t <==> x in multiset(t);
  }

  function UpTo(n: nat): (r: seq<nat>)
    ensures |r| == n && forall i :: 0 <= i < n ==> r[i] == i
  {
    seq(n, i => i)
  }

  /** n numbers among which are all below n are just those. */
  lemma {:induction false} AllNumbers(s: seq<nat>, n: nat)
    requires |s| == n && forall k :: 0 <= k < n ==> k in s
    ensures multiset(s) == multiset(UpTo(n))
  {
    if n > 0 {
      assert n - 1 in s;
      var i :| 0 <= i < n && s[i] == n - 1;
      var rest := s[..i] + s[i + 1..];
      forall k | 0 <= k < n - 1 ensures k in rest {
        StillThere(s, i, k);
      }
      AllNumbers(rest, n - 1);
      SumRemove((k: nat) => k, s, i);
      assert UpTo(n) == UpTo(n - 1) + [n - 1];
    }
  }

  lemma StillThere(s: seq<nat>, i: nat, k: nat)
    requires i < |s| && k in s && k != s[i]
    ensures k in s[..i] + s[i + 1..]
  {
    var j :| 0 <= j < |s| && s[j] == k;
    assert (s[..i] + s[i + 1..])[if j < i then j else j - 1] == k;
  }

  // ----- what was written -----

  lemma {:induction false} WrittenMember(shards: seq<seq<WorkItem>>, identity: RoundIdentity, n: nat, r: Record)
    returns (k: nat, j: nat)
    requires n <= |shards| && r in WrittenRecords(shards, identity, n)
    ensures k < n && j < |shards[k]| && r == SuccessRecord(shards[k][j].itemId, shards[k][j].weightBytes, k, identity)
  {
    hide SuccessRecord;
    var last := ShardRecords(shards[n - 1], n - 1, identity);
    if i :| 0 <= i < |last| && last[i] == r {
      k, j := n - 1, i;
    } else {
      k, j := WrittenMember(shards, identity, n - 1, r);
    }
  }

  /** The identifiers of the written records are those of the items, in order. */
  lemma {:induction false} WrittenIds(shards: seq<seq<WorkItem>>, identity: RoundIdentity, n: nat)
    requires n <= |shards|
    ensures Mapped(IdOf, WrittenRecords(shards, identity, n)) == Ids(Flatten(shards[..n]))
  {
    if n > 0 {
      WrittenIds(shards, identity, n - 1);
      FlattenIds(shards, n);
      ShardIds(shards[n - 1], n - 1, identity);
      hide ShardRecords, Flatten, Ids, IdOf;
      MappedConcat(IdOf, WrittenRecords(shards, identity, n - 1), ShardRecords(shards[n - 1], n - 1, identity));
    }
  }

  lemma ShardIds(shard: seq<WorkItem>, worker: nat, identity: RoundIdentity)
    ensures Mapped(IdOf, ShardRecords(shard, worker, identity)) == Ids(shard)
  {
  }

  lemma FlattenIds(shards: seq<seq<WorkItem>>, n: nat)
    requires 0 < n <= |shards|
    ensures Ids(Flatten(shards[..n])) == Ids(Flatten(shards[..n - 1])) + Ids(shards[n - 1])
  {
    assert shards[..n][..n - 1] == shards[..n - 1];
  }

  lemma MappedConcat<T, U>(f: T -> U, s: seq<T>, t: seq<T>)
    ensures Mapped(f, s + t) == Mapped(f, s) + Mapped(f, t)
  {
  }

  function IdOf(r: Record): string {
    ObservedId(TerminalOf(r))
  }

  lemma ObservedIsMapped(records: seq<Record>)
    ensures Observed(Terminals(records)) == Mapped(IdOf, records) == Mapped(IdOf, Audited(records))
  {
  }

  /** A written record passes the checks of its own item. */
  lemma WrittenIsClean(itemId: string, weightBytes: nat, worker: nat, identity: RoundIdentity,
                       assignments: map<string, (nat, nat)>, errorValid: bool)
    requires itemId in assignments && assignments[itemId] == (worker, weightBytes)
    ensures RecordProblems(SuccessRecord(itemId, weightBytes, worker, identity).(errorValid := errorValid), identity, assignments) == {}
  {
    ItemPath(itemId);
  }

  lemma ItemPath(itemId: string)
    ensures PathText(["items", itemId]) == "items/" + itemId
    ensures PathText(["items", itemId, "summary.json"]) == "items/" + itemId + "/summary.json"
  {
    assert ["items", itemId][1..] == [itemId];
    assert ["items", itemId, "summary.json"][1..] == [itemId, "summary.json"] && [itemId, "summary.json"][1..] == ["summary.json"];
    assert "items/" == "items" + "/" && "/summary.json" == "/" + "summary.json";
    assert PathText([itemId, "summary.json"]) == itemId + "/" + PathText(["summary.json"]) == itemId + "/summary.json";
    assert "items" + "/" + (itemId + "/summary.json") == "items/" + itemId + "/summary.json";
  }

  /** A record differs from the written one in what a field name stands for. */
  predicate Differs(r: Record, w: Record, field: Field) {
    match field
    case SchemaField => r.schema != w.schema
    case RunIdField => r.runId != w.runId
    case ManifestField => r.manifest != w.manifest
    case RequestedBackendField => r.requestedBackend != w.requestedBackend
    case ItemIdField => r.itemId != w.itemId
    case WorkerIdField => r.workerId != w.workerId
    case WeightField => r.weightBytes != w.weightBytes
    case SecondsField => r.secondsOk != w.secondsOk
    case TimestampsField => r.timestampsOk != w.timestampsOk
    case BackendField => r.backend != w.backend
    case RunDirField => r.runDir != w.runDir
    case SummaryPathField => r.summaryPath != w.summaryPath
    case DeviceField => r.deviceOk != w.deviceOk
    case RuntimeField => r.runtimeOk != w.runtimeOk
    case TimingsField => r.timingsOk != w.timingsOk
    case WallField => r.wallOk != w.wallOk
    case ErrorField => r.errorAbsent != w.errorAbsent
    case StatusField => r.status != w.status
  }

  /** The complaints about a success record, group by group. */
  lemma IdentityNamed(r: Record, w: Record, identity: RoundIdentity, field: Field)
    requires w.schema == Text(ITEM_SCHEMA) && w.runId == Text(identity.runId) && w.manifest == Text(identity.manifest)
    requires w.requestedBackend == Text(identity.backend)
    ensures field in IdentityProblems(r, identity) <==>
      (field.SchemaField? || field.RunIdField? || field.ManifestField? || field.RequestedBackendField?) && Differs(r, w, field)
  {
  }

  lemma AssignmentNamed(r: Record, w: Record, assignments: map<string, (nat, nat)>, field: Field)
    requires r.itemId.Text? && r.itemId.s in assignments
    requires w.workerId == Number(assignments[r.itemId.s].0) && w.weightBytes == Number(assignments[r.itemId.s].1)
    ensures field in AssignmentProblems(r, assignments) <==> (field.WorkerIdField? || field.WeightField?) && Differs(r, w, field)
    ensures field in ClockProblems(r) <==>
      (field.SecondsField? && !r.secondsOk) || (field.TimestampsField? && !r.timestampsOk)
  {
  }

  predicate AboutSuccess(field: Field) {
    field.BackendField? || field.RunDirField? || field.SummaryPathField? || field.DeviceField? || field.RuntimeField?
    || field.TimingsField? || field.WallField? || field.ErrorField?
  }

  lemma OutputNamed(r: Record, w: Record, backend: string, runDir: string, summaryPath: string, field: Field)
    requires w.backend == Text(backend) && w.runDir == Text(runDir) && w.summaryPath == Text(summaryPath)
    ensures field in OutputProblems(r, backend, runDir, summaryPath) <==>
      (field.BackendField? || field.RunDirField? || field.SummaryPathField?) && Differs(r, w, field)
  {
  }

  lemma ResultNamed(r: Record, w: Record, field: Field)
    requires w.deviceOk && w.runtimeOk && w.timingsOk && w.wallOk && w.errorAbsent
    ensures field in ResultProblems(r) <==>
      && (field.DeviceField? || field.RuntimeField? || field.TimingsField? || field.WallField? || field.ErrorField?)
      && Differs(r, w, field)
  {
  }

  lemma SuccessNamed(r: Record, w: Record, backend: string, runDir: string, summaryPath: string, field: Field)
    requires w.backend == Text(backend) && w.runDir == Text(runDir) && w.summaryPath == Text(summaryPath)
    requires w.deviceOk && w.runtimeOk && w.timingsOk && w.wallOk && w.errorAbsent
    ensures field in SuccessProblems(r, backend, runDir, summaryPath) <==> AboutSuccess(field) && Differs(r, w, field)
  {
    OutputNamed(r, w, backend, runDir, summaryPath, field);
    ResultNamed(r, w, field);
    hide OutputProblems, ResultProblems, Differs;
  }

  /** What the audit names in a success record of a known item: exactly where it differs from what is written. */
  lemma FieldsNamed(r: Record, identity: RoundIdentity, assignments: map<string, (nat, nat)>, field: Field)
    requires r.itemId.Text? && r.itemId.s in assignments && r.status == Text("success")
    ensures field in RecordProblems(r, identity, assignments) <==>
      Differs(r, SuccessRecord(r.itemId.s, assignments[r.itemId.s].1, assignments[r.itemId.s].0, identity), field)
  {
    var w := SuccessRecord(r.itemId.s, assignments[r.itemId.s].1, assignments[r.itemId.s].0, identity);
    ItemPath(r.itemId.s);
    assert StatusProblems(r, identity)
           == SuccessProblems(r, identity.backend, "items/" + r.itemId.s, "items/" + r.itemId.s + "/summary.json");
    hide IdentityProblems, AssignmentProblems, ClockProblems, StatusProblems, SuccessProblems, PathText;
    IdentityNamed(r, w, identity, field);
    AssignmentNamed(r, w, assignments, field);
    SuccessNamed(r, w, identity.backend, "items/" + r.itemId.s, "items/" + r.itemId.s + "/summary.json", field);
    assert w.itemId == r.itemId && w.status == r.status && w.secondsOk && w.timestampsOk;
    hide SuccessRecord;
  }

  /** So a success record without problems was written for its item, field for field. */
  lemma CleanIsWritten(r: Record, identity: RoundIdentity, assignments: map<string, (nat, nat)>)
    requires RecordProblems(r, identity, assignments) == {} && r.status == Text("success")
    ensures r.itemId.Text? && r.itemId.s in assignments
    ensures r.(errorValid := false) == SuccessRecord(r.itemId.s, assignments[r.itemId.s].1, assignments[r.itemId.s].0, identity)
  {
    CleanRecord(r, identity, assignments);
    var w := SuccessRecord(r.itemId.s, assignments[r.itemId.s].1, assignments[r.itemId.s].0, identity);
    assert !w.errorValid;
    hide RecordProblems, SuccessRecord, Differs;
    forall field ensures !Differs(r, w, field) {
      FieldsNamed(r, identity, assignments, field);
    }
    NoDifference(r, w);
  }

  lemma SameHead(r: Record, w: Record)
    requires forall field :: !Differs(r, w, field)
    ensures r.schema == w.schema && r.runId == w.runId && r.manifest == w.manifest && r.requestedBackend == w.requestedBackend
    ensures r.itemId == w.itemId && r.workerId == w.workerId && r.weightBytes == w.weightBytes && r.status == w.status
    ensures r.secondsOk == w.secondsOk && r.timestampsOk == w.timestampsOk
  {
    assert !Differs(r, w, SchemaField) && !Differs(r, w, RunIdField) && !Differs(r, w, ManifestField);
    assert !Differs(r, w, RequestedBackendField) && !Differs(r, w, ItemIdField) && !Differs(r, w, WorkerIdField);
    assert !Differs(r, w, WeightField) && !Differs(r, w, SecondsField) && !Differs(r, w, TimestampsField);
    assert !Differs(r, w, StatusField);
  }

  lemma SameRest(r: Record, w: Record)
    requires forall field :: !Differs(r, w, field)
    ensures r.backend == w.backend && r.runDir == w.runDir && r.summaryPath == w.summaryPath && r.deviceOk == w.deviceOk
    ensures r.runtimeOk == w.runtimeOk && r.timingsOk == w.timingsOk && r.wallOk == w.wallOk && r.errorAbsent == w.errorAbsent
  {
    assert !Differs(r, w, BackendField) && !Differs(r, w, RunDirField) && !Differs(r, w, SummaryPathField);
    assert !Differs(r, w, DeviceField) && !Differs(r, w, RuntimeField) && !Differs(r, w, TimingsField);
    assert !Differs(r, w, WallField) && !Differs(r, w, ErrorField);
  }

  lemma NoDifference(r: Record, w: Record)
    requires !w.errorValid && forall field :: !Differs(r, w, field)
    ensures r.(errorValid := false) == w
  {
    hide Differs;
    SameHead(r, w);
    SameRest(r, w);
  }

  /** A failed record is only asked for its error, and any other status is one. */
  lemma FailureNamed(r: Record, identity: RoundIdentity, assignments: map<string, (nat, nat)>)
    requires r.status != Text("success")
    ensures var named := RecordProblems(r, identity, assignments);
            && (StatusField in named <==> r.status != Text("failed"))
            && (ErrorField in named <==> r.status == Text("failed") && !r.errorValid)
            && (ItemIdField in named <==> !(r.itemId.Text? && r.itemId.s in assignments))
  {
    hide SuccessProblems, Shown;
  }

  // ----- counting the records of a worker -----

  /** One for a record of worker k with a status. */
  function IsCounted(k: nat, status: string): Record -> int {
    (r: Record) => if r.workerId == Number(k) && r.status == Text(status) then 1 else 0
  }

  lemma {:induction false} CountIsSum(records: seq<Record>, k: nat, status: string)
    ensures CountStatus(records, k, status) == Sum(IsCounted(k, status), Audited(records))
  {
    if records != [] {
      var last := |records| - 1;
      CountIsSum(records[..last], k, status);
      assert Audited(records)[..last] == Audited(records[..last]);
    }
  }

  lemma {:induction false} ShardCounts(shard: seq<WorkItem>, worker: nat, identity: RoundIdentity, k: nat, status: string)
    ensures Sum(IsCounted(k, status), ShardRecords(shard, worker, identity))
            == if worker == k && status == "success" then |shard| else 0
  {
    if shard != [] {
      var last := |shard| - 1;
      ShardCounts(shard[..last], worker, identity, k, status);
      assert ShardRecords(shard, worker, identity)[..last] == ShardRecords(shard[..last], worker, identity);
    }
  }

  lemma {:induction false} WrittenCounts(shards: seq<seq<WorkItem>>, identity: RoundIdentity, n: nat, k: nat, status: string)
    requires n <= |shards|
    ensures Sum(IsCounted(k, status), WrittenRecords(shards, identity, n))
            == if k < n && status == "success" then |shards[k]| else 0
  {
    if n > 0 {
      hide ShardRecords;
      WrittenCounts(shards, identity, n - 1, k, status);
      ShardCounts(shards[n - 1], n - 1, identity, k, status);
      SumConcat(IsCounted(k, status), WrittenRecords(shards, identity, n - 1), ShardRecords(shards[n - 1], n - 1, identity));
    }
  }

  // ----- evidence as written is clean -----

  lemma WrittenItemsClean(e: Evidence, identity: RoundIdentity, shards: seq<seq<WorkItem>>)
    requires AllWritten(e, identity, shards) && Distinct(Ids(Flatten(shards)))
    ensures ItemsClean(e, shards)
  {
    var expected, terminals := Ids(Flatten(shards)), Terminals(e.records);
    var all := WrittenRecords(shards, identity, |shards|);
    assert shards[..|shards|] == shards;
    WrittenIds(shards, identity, |shards|);
    ObservedIsMapped(e.records);
    MappedPermutes(IdOf, Audited(e.records), all);
    AuditRaises(expected, terminals);
    AuditExact(expected, terminals);
    forall i | 0 <= i < |terminals| ensures terminals[i].status == Text("success") {
      var _, _ := RecordWritten(e, identity, shards, i);
    }
    FailedIdsEmpty(terminals, expected, |terminals|);
    hide AuditOk, BadStatuses, Observed, WrittenRecords;
  }

  lemma RecordWritten(e: Evidence, identity: RoundIdentity, shards: seq<seq<WorkItem>>, i: nat) returns (k: nat, j: nat)
    requires AllWritten(e, identity, shards) && i < |e.records|
    ensures k < |shards| && j < |shards[k]|
    ensures e.records[i].(errorValid := false) == SuccessRecord(shards[k][j].itemId, shards[k][j].weightBytes, k, identity)
    ensures e.records[i].status == Text("success")
  {
    var r := e.records[i].(errorValid := false);
    assert Audited(e.records)[i] == r;
    hide WrittenRecords;
    SameMembers(Audited(e.records), WrittenRecords(shards, identity, |shards|), r);
    k, j := WrittenMember(shards, identity, |shards|, r);
  }

  lemma WrittenRecordsClean(e: Evidence, identity: RoundIdentity, shards: seq<seq<WorkItem>>)
    requires |e.records| == |e.componentProblems| && (forall i :: 0 <= i < |e.records| ==> e.componentProblems[i] == 0)
    requires AllWritten(e, identity, shards) && Distinct(Ids(Flatten(shards)))
    ensures RecordsClean(e, identity, shards, |e.records|)
  {
    DistinctItems(shards);
    hide RecordProblems, SuccessRecord, Assignments, DistinctShards, AllWritten;
    forall i | 0 <= i < |e.records| ensures RecordProblems(e.records[i], identity, Assignments(shards, |shards|)) == {} {
      var k, j := RecordWritten(e, identity, shards, i);
      AssignmentAt(shards, |shards|, k, j);
      WrittenIsClean(shards[k][j].itemId, shards[k][j].weightBytes, k, identity, Assignments(shards, |shards|), e.records[i].errorValid);
      assert e.records[i] == e.records[i].(errorValid := false).(errorValid := e.records[i].errorValid);
    }
  }

  lemma ReceiptWritten(e: Evidence, identity: RoundIdentity, shards: seq<seq<WorkItem>>, i: nat) returns (k: nat)
    requires AllWritten(e, identity, shards) && i < |e.receipts|
    ensures k < |shards| && e.receipts[i] == SuccessReceipt(shards[k], k, identity)
  {
    hide SuccessReceipt;
    assert e.receipts[i] in e.receipts;
    SameMembers(e.receipts, WrittenReceipts(shards, identity), e.receipts[i]);
    k :| 0 <= k < |shards| && WrittenReceipts(shards, identity)[k] == e.receipts[i];
  }

  lemma WrittenReceiptsClean(e: Evidence, identity: RoundIdentity, shards: seq<seq<WorkItem>>)
    requires AllWritten(e, identity, shards)
    ensures ReceiptsClean(e, identity, shards, |e.receipts|)
  {
    forall i | 0 <= i < |e.receipts| ensures ReceiptAccepted(e.receipts[i], identity, shards, e.records) {
      var k := ReceiptWritten(e, identity, shards, i);
      SuccessIsAccepted(e, identity, shards, k);
    }
  }

  lemma SuccessIsAccepted(e: Evidence, identity: RoundIdentity, shards: seq<seq<WorkItem>>, k: nat)
    requires AllWritten(e, identity, shards) && k < |shards|
    ensures ReceiptAccepted(SuccessReceipt(shards[k], k, identity), identity, shards, e.records)
  {
    WorkerCounts(e, identity, shards, k, "success");
    WorkerCounts(e, identity, shards, k, "failed");
    BytesIsLoad(shards[k]);
    hide CountStatus, Load, Bytes, AllWritten;
  }

  lemma WorkerCounts(e: Evidence, identity: RoundIdentity, shards: seq<seq<WorkItem>>, k: nat, status: string)
    requires AllWritten(e, identity, shards) && k < |shards|
    ensures CountStatus(e.records, k, status) == if status == "success" then |shards[k]| else 0
  {
    CountIsSum(e.records, k, status);
    SumPermutation(IsCounted(k, status), Audited(e.records), WrittenRecords(shards, identity, |shards|));
    WrittenCounts(shards, identity, |shards|, k, status);
    hide WrittenRecords, CountStatus, Sum;
  }

  lemma WrittenIdentities(e: Evidence, identity: RoundIdentity, shards: seq<seq<WorkItem>>)
    requires AllWritten(e, identity, shards)
    ensures ReceiptIdentities(e.receipts, |shards|)
  {
    assert |e.receipts| == |multiset(e.receipts)| == |multiset(WrittenReceipts(shards, identity))| == |shards|;
    forall i | 0 <= i < |e.receipts|
      ensures e.receipts[i].Receipt? && e.receipts[i].workerId.Number? && 0 <= e.receipts[i].workerId.n < |shards|
    {
      var k := ReceiptWritten(e, identity, shards, i);
    }
    forall k | 0 <= k < |shards| ensures k in NamedWorkers(e.receipts) {
      var x := SuccessReceipt(shards[k], k, identity);
      assert WrittenReceipts(shards, identity)[k] == x;
      SameMembers(e.receipts, WrittenReceipts(shards, identity), x);
      var i :| 0 <= i < |e.receipts| && e.receipts[i] == x;
    }
    hide NamedWorkers;
  }

  // ----- clean evidence is as written -----

  lemma CleanRecordsWritten(e: Evidence, identity: RoundIdentity, shards: seq<seq<WorkItem>>)
    requires |e.records| == |e.componentProblems| && RoundClean(e, identity, shards)
    ensures multiset(Audited(e.records)) == multiset(WrittenRecords(shards, identity, |shards|))
  {
    var expected, observed := Ids(Flatten(shards)), Observed(Terminals(e.records));
    var written := WrittenOf(shards, identity);
    assert shards[..|shards|] == shards;
    AuditExact(expected, Terminals(e.records));
    ObservedIsMapped(e.records);
    RecordsAreMapped(e, identity, shards);
    WrittenIsMapped(shards, identity);
    MappedPermutes(written, observed, expected);
    hide RoundClean, WrittenRecords, AuditOk, Observed;
  }

  /** The record written for an identifier. */
  function WrittenOf(shards: seq<seq<WorkItem>>, identity: RoundIdentity): string -> Record {
    var assignments := Assignments(shards, |shards|);
    (id: string) =>
      if id in assignments then SuccessRecord(id, assignments[id].1, assignments[id].0, identity)
      else SuccessRecord(id, 0, 0, identity)
  }

  lemma RecordsAreMapped(e: Evidence, identity: RoundIdentity, shards: seq<seq<WorkItem>>)
    requires |e.records| == |e.componentProblems| && RoundClean(e, identity, shards)
    ensures Audited(e.records) == Mapped(WrittenOf(shards, identity), Observed(Terminals(e.records)))
  {
    var observed := Observed(Terminals(e.records));
    forall i | 0 <= i < |e.records| ensures Audited(e.records)[i] == WrittenOf(shards, identity)(observed[i]) {
      CleanRecordIsWritten(e, identity, shards, i);
    }
    hide RoundClean;
  }

  lemma CleanRecordIsWritten(e: Evidence, identity: RoundIdentity, shards: seq<seq<WorkItem>>, i: nat)
    requires |e.records| == |e.componentProblems| && RoundClean(e, identity, shards) && i < |e.records|
    ensures e.records[i].(errorValid := false) == WrittenOf(shards, identity)(Observed(Terminals(e.records))[i])
  {
    var expected, observed := Ids(Flatten(shards)), Observed(Terminals(e.records));
    AuditExact(expected, Terminals(e.records));
    SameMembers(observed, expected, observed[i]);
    assert observed[i] in observed;
    CleanStatus(e, shards, i);
    hide ItemsClean, ReceiptsClean, ReceiptIdentities, RecordProblems, SuccessRecord, Assignments;
    assert RecordProblems(e.records[i], identity, Assignments(shards, |shards|)) == {};
    CleanIsWritten(e.records[i], identity, Assignments(shards, |shards|));
  }

  lemma {:induction false} WrittenPrefix(shards: seq<seq<WorkItem>>, identity: RoundIdentity, n: nat)
    requires n <= |shards| && DistinctShards(shards)
    ensures Mapped(WrittenOf(shards, identity), Ids(Flatten(shards[..n]))) == WrittenRecords(shards, identity, n)
  {
    if n > 0 {
      WrittenPrefix(shards, identity, n - 1);
      var written := WrittenOf(shards, identity);
      ShardIsMapped(shards, identity, n - 1);
      FlattenIds(shards, n);
      hide WrittenOf, Flatten, Ids, ShardRecords, DistinctShards;
      MappedConcat(written, Ids(Flatten(shards[..n - 1])), Ids(shards[n - 1]));
    }
  }

  lemma ShardIsMapped(shards: seq<seq<WorkItem>>, identity: RoundIdentity, k: nat)
    requires k < |shards| && DistinctShards(shards)
    ensures Mapped(WrittenOf(shards, identity), Ids(shards[k])) == ShardRecords(shards[k], k, identity)
  {
    hide SuccessRecord, Assignments, DistinctShards;
    forall j | 0 <= j < |shards[k]|
      ensures WrittenOf(shards, identity)(shards[k][j].itemId)
              == SuccessRecord(shards[k][j].itemId, shards[k][j].weightBytes, k, identity)
    {
      AssignmentAt(shards, |shards|, k, j);
    }
  }

  lemma WrittenIsMapped(shards: seq<seq<WorkItem>>, identity: RoundIdentity)
    requires Distinct(Ids(Flatten(shards)))
    ensures Mapped(WrittenOf(shards, identity), Ids(Flatten(shards))) == WrittenRecords(shards, identity, |shards|)
  {
    DistinctItems(shards);
    assert shards[..|shards|] == shards;
    WrittenPrefix(shards, identity, |shards|);
  }

  lemma CleanReceiptIsWritten(e: Evidence, identity: RoundIdentity, shards: seq<seq<WorkItem>>, i: nat)
    requires |e.records| == |e.componentProblems| && RoundClean(e, identity, shards) && i < |e.receipts|
    ensures e.receipts[i].Receipt? && e.receipts[i].workerId.Number? && 0 <= e.receipts[i].workerId.n < |shards|
    ensures var k := e.receipts[i].workerId.n; e.receipts[i] == SuccessReceipt(shards[k], k, identity)
  {
    hide ItemsClean, RecordsClean, NamedWorkers, ReceiptClean;
    var x := e.receipts[i];
    assert x.Receipt? && x.workerId.Number? && x.workerId.n in NamedWorkers(e.receipts);
    assert ReceiptAccepted(x, identity, shards, e.records);
    CleanFieldsOfReceipt(x, identity, shards[x.workerId.n], x.workerId.n, e.records);
  }

  lemma CleanFieldsOfReceipt(x: Receipt, identity: RoundIdentity, shard: seq<WorkItem>, k: nat, records: seq<Record>)
    requires x.Receipt? && x.workerId == Number(k) && ReceiptClean(x, identity, shard, k, records)
    ensures x == SuccessReceipt(shard, k, identity)
  {
    BytesIsLoad(shard);
    hide CountStatus, Load, Bytes;
    assert x.assignedIds == SuccessReceipt(shard, k, identity).assignedIds;
  }

  /** The worker a receipt names. */
  function WorkerOf(x: Receipt): nat {
    if x.Receipt? && x.workerId.Number? && x.workerId.n >= 0 then x.workerId.n else 0
  }

  /** The receipt of a worker. */
  function ReceiptFor(shards: seq<seq<WorkItem>>, identity: RoundIdentity): nat -> Receipt {
    (k: nat) => if k < |shards| then SuccessReceipt(shards[k], k, identity) else NotAMapping
  }

  lemma CleanReceiptsWritten(e: Evidence, identity: RoundIdentity, shards: seq<seq<WorkItem>>)
    requires |e.records| == |e.componentProblems| && RoundClean(e, identity, shards)
    ensures multiset(e.receipts) == multiset(WrittenReceipts(shards, identity))
  {
    var n, workers := |shards|, Mapped(WorkerOf, e.receipts);
    assert |e.receipts| == n;
    forall k | 0 <= k < n ensures k in workers {
      var i := ReceiptOf(e, shards, k);
      assert workers[i] == k;
    }
    ReceiptsAreMapped(e, identity, shards);
    hide RoundClean, SuccessReceipt;
    AllNumbers(workers, n);
    MappedPermutes(ReceiptFor(shards, identity), workers, UpTo(n));
    assert WrittenReceipts(shards, identity) == Mapped(ReceiptFor(shards, identity), UpTo(n));
  }

  lemma ReceiptsAreMapped(e: Evidence, identity: RoundIdentity, shards: seq<seq<WorkItem>>)
    requires |e.records| == |e.componentProblems| && RoundClean(e, identity, shards)
    ensures e.receipts == Mapped(ReceiptFor(shards, identity), Mapped(WorkerOf, e.receipts))
  {
    hide RoundClean, SuccessReceipt;
    forall i | 0 <= i < |e.receipts|
      ensures e.receipts[i] == ReceiptFor(shards, identity)(WorkerOf(e.receipts[i]))
    {
      CleanReceiptIsWritten(e, identity, shards, i);
    }
  }

  /**
   * The audit accepts a round exactly when nothing outside the evidence failed, every
   * item is listed once, and records and receipts are, in whatever order, the success
   * records and receipts of its workers. So a single field of a single record or receipt
   * that differs makes the round fail.
   */
  lemma CleanExactly(e: Evidence, identity: RoundIdentity, shards: seq<seq<WorkItem>>)
    requires |e.records| == |e.componentProblems|
    ensures RoundClean(e, identity, shards) <==>
      && e.readErrors == 0 && e.provenanceErrors == 0 && e.finalizes
      && (forall i :: 0 <= i < |e.records| ==> e.componentProblems[i] == 0)
      && Distinct(Ids(Flatten(shards))) && AllWritten(e, identity, shards)
  {
    if RoundClean(e, identity, shards) {
      AuditRaises(Ids(Flatten(shards)), Terminals(e.records));
      CleanRecordsWritten(e, identity, shards);
      CleanReceiptsWritten(e, identity, shards);
      hide ReceiptsClean, ReceiptIdentities, RecordProblems, AuditOk;
    } else if Distinct(Ids(Flatten(shards))) && AllWritten(e, identity, shards)
              && forall i :: 0 <= i < |e.records| ==> e.componentProblems[i] == 0 {
      WrittenItemsClean(e, identity, shards);
      WrittenRecordsClean(e, identity, shards);
      WrittenIdentities(e, identity, shards);
      WrittenReceiptsClean(e, identity, shards);
      hide ItemsClean, RecordsClean, ReceiptsClean, ReceiptIdentities, AllWritten;
    }
  }
}

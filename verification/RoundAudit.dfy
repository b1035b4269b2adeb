/**
 * finalize_round of src/cuphoton/core/execution.py: a round counts as a success
 * only when its records and worker receipts say that every item of every shard
 * succeeded once, on the worker the shard belongs to.
 */
module RoundAudit {
  import opened Audit
  import opened Decimals
  import opened Options
  import opened Sharding
  import opened Sums

  /** The identity every artifact of a round repeats. */
  datatype RoundIdentity = RoundIdentity(runId: string, manifest: string, backend: string)

  /** A terminal record; the flags say whether the named fields are well formed. */
  datatype Record = Record(
    itemId: Json, schema: Json, runId: Json, manifest: Json, requestedBackend: Json, workerId: Json, weightBytes: Json,
    status: Json, backend: Json, runDir: Json, summaryPath: Json, secondsOk: bool, timestampsOk: bool, deviceOk: bool,
    runtimeOk: bool, timingsOk: bool, wallOk: bool, errorAbsent: bool, errorValid: bool)

  /** A worker's receipt of the round. */
  datatype Receipt = NotAMapping | Receipt(
    workerId: Json, schema: Json, runId: Json, manifest: Json, assignedIds: seq<string>, idsMatch: bool, weightBytes: Json,
    successCount: Json, failedCount: Json, status: Json, writesValid: bool, writes: nat, artifactError: bool,
    error: bool, wallOk: bool, provenanceWorker: Json, timestampsOk: bool)

  const ITEM_SCHEMA: string := "cuphoton.core.execution-item/v1"
  const WORKER_SCHEMA: string := "cuphoton.core.execution-worker/v1"

  function TerminalOf(r: Record): Terminal {
    Terminal(r.itemId, if r.status.Text? then r.status else Absent)
  }

  function Terminals(records: seq<Record>): (r: seq<Terminal>)
    ensures |r| == |records| && forall i :: 0 <= i < |r| ==> r[i] == TerminalOf(records[i])
  {
    seq(|records|, i requires 0 <= i < |records| => TerminalOf(records[i]))
  }

  // ----- assignments -----

  function Ids(items: seq<WorkItem>): (ids: seq<string>)
    ensures |ids| == |items| && forall i :: 0 <= i < |ids| ==> ids[i] == items[i].itemId
  {
    seq(|items|, i requires 0 <= i < |items| => items[i].itemId)
  }

  function AddShard(known: map<string, (nat, nat)>, k: nat, shard: seq<WorkItem>): map<string, (nat, nat)> {
    if shard == [] then known
    else
      var last := |shard| - 1;
      AddShard(known, k, shard[..last])[shard[last].itemId := (k, shard[last].weightBytes)]
  }

  /** The worker and weight expected of each item. */
  function Assignments(shards: seq<seq<WorkItem>>, n: nat): map<string, (nat, nat)>
    requires n <= |shards|
  {
    if n == 0 then map[] else AddShard(Assignments(shards, n - 1), n - 1, shards[n - 1])
  }

  lemma {:induction false} AddShardAt(known: map<string, (nat, nat)>, k: nat, shard: seq<WorkItem>, id: string)
    ensures id in AddShard(known, k, shard) <==> id in known || exists j :: 0 <= j < |shard| && shard[j].itemId == id
    ensures (forall j :: 0 <= j < |shard| ==> shard[j].itemId != id) && id in known ==>
      AddShard(known, k, shard)[id] == known[id]
  {
    if shard != [] {
      AddShardAt(known, k, shard[..|shard| - 1], id);
    }
  }

  lemma {:induction false} AddedShardAt(known: map<string, (nat, nat)>, k: nat, shard: seq<WorkItem>, j: nat)
    requires j < |shard| && Distinct(Ids(shard))
    ensures shard[j].itemId in AddShard(known, k, shard)
    ensures AddShard(known, k, shard)[shard[j].itemId] == (k, shard[j].weightBytes)
  {
    var last := |shard| - 1;
    assert forall i, l :: 0 <= i < l < last ==> Ids(shard)[i] != Ids(shard)[l];
    if j < last {
      assert Ids(shard)[j] != Ids(shard)[last];
      AddedShardAt(known, k, shard[..last], j);
    }
  }

  /** No item is listed twice, within a shard or across shards. */
  predicate DistinctShards(shards: seq<seq<WorkItem>>) {
    forall k, j, l, i :: 0 <= k < |shards| && 0 <= j < |shards[k]| && 0 <= l < |shards| && 0 <= i < |shards[l]| ==>
      (shards[k][j].itemId == shards[l][i].itemId ==> k == l && j == i)
  }

  lemma {:induction false} AssignmentAt(shards: seq<seq<WorkItem>>, n: nat, k: nat, j: nat)
    requires k < n <= |shards| && j < |shards[k]| && DistinctShards(shards)
    ensures shards[k][j].itemId in Assignments(shards, n)
    ensures Assignments(shards, n)[shards[k][j].itemId] == (k, shards[k][j].weightBytes)
  {
    var id := shards[k][j].itemId;
    hide AddShard;
    if k == n - 1 {
      assert Distinct(Ids(shards[k]));
      AddedShardAt(Assignments(shards, n - 1), k, shards[k], j);
    } else {
      AssignmentAt(shards, n - 1, k, j);
      AddShardAt(Assignments(shards, n - 1), n - 1, shards[n - 1], id);
    }
  }

  lemma {:induction false} AssignedItem(shards: seq<seq<WorkItem>>, n: nat, id: string) returns (k: nat, j: nat)
    requires n <= |shards| && id in Assignments(shards, n)
    ensures k < n && j < |shards[k]| && shards[k][j].itemId == id
  {
    hide AddShard;
    AddShardAt(Assignments(shards, n - 1), n - 1, shards[n - 1], id);
    var last := shards[n - 1];
    if i :| 0 <= i < |last| && last[i].itemId == id {
      k, j := n - 1, i;
    } else {
      k, j := AssignedItem(shards, n - 1, id);
    }
  }

  /** The assignment map says exactly which worker's shard holds each item, with its weight, and holds nothing else. */
  lemma AssignmentsExactly(shards: seq<seq<WorkItem>>, id: string, k: nat, weight: nat)
    requires DistinctShards(shards)
    ensures var assignments := Assignments(shards, |shards|);
            id in assignments && assignments[id] == (k, weight) <==>
            k < |shards| && exists j :: 0 <= j < |shards[k]| && shards[k][j].itemId == id && shards[k][j].weightBytes == weight
  {
    hide AddShard, DistinctShards;
    if id in Assignments(shards, |shards|) {
      var l, i := AssignedItem(shards, |shards|, id);
      AssignmentAt(shards, |shards|, l, i);
    }
    if k < |shards| {
      forall j | 0 <= j < |shards[k]|
        ensures shards[k][j].itemId in Assignments(shards, |shards|)
        ensures Assignments(shards, |shards|)[shards[k][j].itemId] == (k, shards[k][j].weightBytes)
      {
        AssignmentAt(shards, |shards|, k, j);
      }
    }
  }

  // ----- one record -----

  /** What is named when a field of a record is wrong. */
  datatype Field =
    | SchemaField | RunIdField | ManifestField | RequestedBackendField | ItemIdField | WorkerIdField | WeightField
    | SecondsField | TimestampsField | BackendField | RunDirField | SummaryPathField | DeviceField | RuntimeField
    | TimingsField | WallField | ErrorField | StatusField

  function Complaint(ok: bool, field: Field): set<Field> {
    if ok then {} else {field}
  }

  /** The problems of one record; the message sorts them. */
  function RecordProblems(r: Record, identity: RoundIdentity, assignments: map<string, (nat, nat)>): set<Field> {
    IdentityProblems(r, identity) + AssignmentProblems(r, assignments) + ClockProblems(r) + StatusProblems(r, identity)
  }

  function IdentityProblems(r: Record, identity: RoundIdentity): set<Field> {
    Complaint(r.schema == Text(ITEM_SCHEMA), SchemaField) + Complaint(r.runId == Text(identity.runId), RunIdField)
    + Complaint(r.manifest == Text(identity.manifest), ManifestField)
    + Complaint(r.requestedBackend == Text(identity.backend), RequestedBackendField)
  }

  function AssignmentProblems(r: Record, assignments: map<string, (nat, nat)>): set<Field> {
    if r.itemId.Text? && r.itemId.s in assignments then
      Complaint(r.workerId == Number(assignments[r.itemId.s].0), WorkerIdField)
      + Complaint(r.weightBytes == Number(assignments[r.itemId.s].1), WeightField)
    else {ItemIdField}
  }

  function ClockProblems(r: Record): set<Field> {
    Complaint(r.secondsOk, SecondsField) + Complaint(r.timestampsOk, TimestampsField)
  }

  /** How an identifier reads in a message or a path. */
  function Shown(id: Json): string {
    match id
    case Absent => "None"
    case Text(s) => s
    case Number(n) => if n < 0 then "-" + Digits(-n) else Digits(n)
    case Else => "<other>"
  }

  function StatusProblems(r: Record, identity: RoundIdentity): set<Field> {
    if r.status == Text("success") then
      SuccessProblems(r, identity.backend, "items/" + Shown(r.itemId), "items/" + Shown(r.itemId) + "/summary.json")
    else if r.status == Text("failed") then Complaint(r.errorValid, ErrorField)
    else {StatusField}
  }

  function SuccessProblems(r: Record, backend: string, runDir: string, summaryPath: string): set<Field> {
    OutputProblems(r, backend, runDir, summaryPath) + ResultProblems(r)
  }

  function OutputProblems(r: Record, backend: string, runDir: string, summaryPath: string): set<Field> {
    Complaint(r.backend == Text(backend), BackendField) + Complaint(r.runDir == Text(runDir), RunDirField)
    + Complaint(r.summaryPath == Text(summaryPath), SummaryPathField)
  }

  function ResultProblems(r: Record): set<Field> {
    Complaint(r.deviceOk, DeviceField) + Complaint(r.runtimeOk, RuntimeField) + Complaint(r.timingsOk, TimingsField)
    + Complaint(r.wallOk, WallField) + Complaint(r.errorAbsent, ErrorField)
  }

  /** A record without problems is assigned to the worker it names. */
  lemma CleanRecord(r: Record, identity: RoundIdentity, assignments: map<string, (nat, nat)>)
    requires RecordProblems(r, identity, assignments) == {}
    ensures r.itemId.Text? && r.itemId.s in assignments
    ensures r.workerId == Number(assignments[r.itemId.s].0) && r.weightBytes == Number(assignments[r.itemId.s].1)
  {
    hide StatusProblems;
    assert ItemIdField !in RecordProblems(r, identity, assignments) && WorkerIdField !in RecordProblems(r, identity, assignments)
           && WeightField !in RecordProblems(r, identity, assignments);
  }

  // ----- one receipt -----

  /** Records that name worker k with a given status. */
  function CountStatus(records: seq<Record>, k: nat, status: string): nat {
    if records == [] then 0
    else
      var last := |records| - 1;
      CountStatus(records[..last], k, status)
      + if records[last].workerId == Number(k) && records[last].status == Text(status) then 1 else 0
  }

  /** The checks on a receipt of worker k. */
  predicate ReceiptClean(x: Receipt, identity: RoundIdentity, shard: seq<WorkItem>, k: nat, records: seq<Record>)
    requires x.Receipt?
  {
    var success := CountStatus(records, k, "success");
    var failed := CountStatus(records, k, "failed") + if x.writesValid then x.writes else 0;
    && x.schema == Text(WORKER_SCHEMA) && x.runId == Text(identity.runId) && x.manifest == Text(identity.manifest)
    && x.assignedIds == Ids(shard) && x.idsMatch && x.weightBytes == Number(Load(shard))
    && x.successCount == Number(success) && x.failedCount == Number(failed) && success + failed == |shard|
    && x.writesValid && x.writes == 0 && !x.artifactError && !x.error
    && x.status == Text("success") && failed == 0
    && x.wallOk && x.provenanceWorker == Number(k) && x.timestampsOk
  }

  /** Receipt number i is a mapping that, if it names a worker, passes that worker's checks. */
  predicate ReceiptAccepted(x: Receipt, identity: RoundIdentity, shards: seq<seq<WorkItem>>, records: seq<Record>) {
    x.Receipt?
    && (x.workerId.Number? && 0 <= x.workerId.n < |shards| ==>
          ReceiptClean(x, identity, shards[x.workerId.n], x.workerId.n, records))
  }

  function NamedWorkers(receipts: seq<Receipt>): (r: set<int>)
    ensures forall k :: k in r <==>
      exists i :: 0 <= i < |receipts| && receipts[i].Receipt? && receipts[i].workerId == Number(k)
  {
    if receipts == [] then {}
    else
      var last := receipts[|receipts| - 1];
      NamedWorkers(receipts[..|receipts| - 1])
      + if last.Receipt? && last.workerId.Number? then {last.workerId.n} else {}
  }

  /** Every worker of the shards sent a receipt, and nobody else did. */
  predicate ReceiptIdentities(receipts: seq<Receipt>, workers: nat) {
    && |receipts| == workers
    && (forall i :: 0 <= i < |receipts| ==> receipts[i].Receipt? && receipts[i].workerId.Number?)
    && (forall k :: k in NamedWorkers(receipts) ==> 0 <= k < workers)
    && (forall k :: 0 <= k < workers ==> k in NamedWorkers(receipts))
  }

  // ----- the round -----

  /** Everything finalize_round reads; counts stand for the errors of parts not modelled. */
  datatype Evidence = Evidence(records: seq<Record>, receipts: seq<Receipt>, readErrors: nat,
                               componentProblems: seq<nat>, provenanceErrors: nat, finalizes: bool)

  datatype Problem =
    | ArtifactProblem | ItemProblem | RecordProblem(fields: set<Field>, component: nat)
    | IdentityProblem | ReceiptProblem(index: nat) | ProvenanceProblem | FinalizationProblem

  datatype Finalized = Summary(errors: seq<Problem>) | AuditRaised

  predicate RecordsClean(e: Evidence, identity: RoundIdentity, shards: seq<seq<WorkItem>>, n: nat)
    requires n <= |e.records| == |e.componentProblems|
  {
    forall i :: 0 <= i < n ==>
      RecordProblems(e.records[i], identity, Assignments(shards, |shards|)) == {} && e.componentProblems[i] == 0
  }

  predicate ReceiptsClean(e: Evidence, identity: RoundIdentity, shards: seq<seq<WorkItem>>, n: nat)
    requires n <= |e.receipts|
  {
    forall i :: 0 <= i < n ==> ReceiptAccepted(e.receipts[i], identity, shards, e.records)
  }

  predicate ItemsClean(e: Evidence, shards: seq<seq<WorkItem>>) {
    var expected := Ids(Flatten(shards));
    var audit := AuditTerminalRecords(expected, Terminals(e.records));
    audit.Some? && AuditOk(audit.value) && audit.value.failed == []
  }

  /** Nothing at all is wrong with the round. */
  predicate RoundClean(e: Evidence, identity: RoundIdentity, shards: seq<seq<WorkItem>>)
    requires |e.records| == |e.componentProblems|
  {
    && e.readErrors == 0 && ItemsClean(e, shards) && RecordsClean(e, identity, shards, |e.records|)
    && ReceiptIdentities(e.receipts, |shards|) && ReceiptsClean(e, identity, shards, |e.receipts|)
    && e.provenanceErrors == 0 && e.finalizes
  }

  /** Record i has a problem, of its own or of the component's validator. */
  predicate RecordComplains(e: Evidence, identity: RoundIdentity, shards: seq<seq<WorkItem>>, i: nat)
    requires i < |e.records| == |e.componentProblems|
  {
    RecordProblems(e.records[i], identity, Assignments(shards, |shards|)) != {} || e.componentProblems[i] != 0
  }

  function ComplaintOf(e: Evidence, identity: RoundIdentity, shards: seq<seq<WorkItem>>, i: nat): Problem
    requires i < |e.records| == |e.componentProblems|
  {
    RecordProblem(RecordProblems(e.records[i], identity, Assignments(shards, |shards|)), e.componentProblems[i])
  }

  /** The complaints about the first n records are there, and no others. */
  ghost predicate RecordsExplained(e: Evidence, identity: RoundIdentity, shards: seq<seq<WorkItem>>, n: nat, errors: seq<Problem>)
    requires n <= |e.records| == |e.componentProblems|
  {
    && (forall i :: 0 <= i < n && RecordComplains(e, identity, shards, i) ==> ComplaintOf(e, identity, shards, i) in errors)
    && forall x :: x in errors && x.RecordProblem? ==> IsComplaint(e, identity, shards, n, x)
  }

  ghost predicate IsComplaint(e: Evidence, identity: RoundIdentity, shards: seq<seq<WorkItem>>, n: nat, x: Problem)
    requires n <= |e.records| == |e.componentProblems|
  {
    exists i :: 0 <= i < n && RecordComplains(e, identity, shards, i) && x == ComplaintOf(e, identity, shards, i)
  }

  /** So are those about the first n receipts and about who sent them. */
  ghost predicate ReceiptsExplained(e: Evidence, identity: RoundIdentity, shards: seq<seq<WorkItem>>, n: nat, errors: seq<Problem>)
    requires n <= |e.receipts|
  {
    && (IdentityProblem in errors <==> !ReceiptIdentities(e.receipts, |shards|))
    && (forall i :: 0 <= i < n ==>
          (ReceiptProblem(i) in errors <==> !ReceiptAccepted(e.receipts[i], identity, shards, e.records)))
    && forall x :: x in errors && x.ReceiptProblem? ==> x.index < n
  }

  /** The summary lists exactly what is wrong; the component finalizes only a round without other problems. */
  ghost predicate Explained(e: Evidence, identity: RoundIdentity, shards: seq<seq<WorkItem>>, errors: seq<Problem>)
    requires |e.records| == |e.componentProblems|
  {
    && (ArtifactProblem in errors <==> e.readErrors > 0) && (ItemProblem in errors <==> !ItemsClean(e, shards))
    && RecordsExplained(e, identity, shards, |e.records|, errors)
    && ReceiptsExplained(e, identity, shards, |e.receipts|, errors)
    && (ProvenanceProblem in errors <==> e.provenanceErrors > 0)
    && (FinalizationProblem in errors <==> !e.finalizes && errors == [FinalizationProblem])
  }

  /** Collect the problems; the status is success exactly when there are none. */
  method FinalizeRound(e: Evidence, identity: RoundIdentity, shards: seq<seq<WorkItem>>) returns (r: Finalized)
    requires |e.records| == |e.componentProblems|
    ensures r.AuditRaised? <==> !Distinct(Ids(Flatten(shards)))
    ensures RoundClean(e, identity, shards) <==> r == Summary([])
    ensures r.Summary? ==> Explained(e, identity, shards, r.errors)
  {
    hide RecordProblems, ReceiptAccepted, ReceiptIdentities, AuditTerminalRecords, AuditOk, ComplaintOf, RecordComplains;
    var artifactErrors: seq<Problem> := if e.readErrors > 0 then [ArtifactProblem] else [];
    var audit := AuditTerminalRecords(Ids(Flatten(shards)), Terminals(e.records));
    AuditRaises(Ids(Flatten(shards)), Terminals(e.records));
    if audit.None? {
      return AuditRaised;
    }
    var itemErrors := if !AuditOk(audit.value) || audit.value.failed != [] then [ItemProblem] else [];
    var recordErrors := AuditRecords(e, identity, shards);
    var receiptErrors := AuditReceipts(e, identity, shards);
    var provenanceErrors := if e.provenanceErrors > 0 then [ProvenanceProblem] else [];
    var errors := artifactErrors + itemErrors + recordErrors + receiptErrors + provenanceErrors;
    ExplainAll(e, identity, shards, artifactErrors, itemErrors, recordErrors, receiptErrors, provenanceErrors);
    if errors == [] && !e.finalizes {
      errors := [FinalizationProblem];
    }
    r := Summary(errors);
  }

  lemma ExplainAll(e: Evidence, identity: RoundIdentity, shards: seq<seq<WorkItem>>, artifactErrors: seq<Problem>,
                   itemErrors: seq<Problem>, recordErrors: seq<Problem>, receiptErrors: seq<Problem>,
                   provenanceErrors: seq<Problem>)
    requires |e.records| == |e.componentProblems|
    requires artifactErrors == if e.readErrors > 0 then [ArtifactProblem] else []
    requires itemErrors == if ItemsClean(e, shards) then [] else [ItemProblem]
    requires RecordsExplained(e, identity, shards, |e.records|, recordErrors) && forall x :: x in recordErrors ==> x.RecordProblem?
    requires ReceiptsExplained(e, identity, shards, |e.receipts|, receiptErrors)
    requires forall x :: x in receiptErrors ==> x.IdentityProblem? || x.ReceiptProblem?
    requires provenanceErrors == if e.provenanceErrors > 0 then [ProvenanceProblem] else []
    ensures var errors := artifactErrors + itemErrors + recordErrors + receiptErrors + provenanceErrors;
            Explained(e, identity, shards, if errors == [] && !e.finalizes then [FinalizationProblem] else errors)
  {
    hide RecordComplains, ComplaintOf, IsComplaint, ItemsClean, ReceiptIdentities, ReceiptAccepted;
    var errors := artifactErrors + itemErrors + recordErrors + receiptErrors + provenanceErrors;
    forall x ensures x in errors <==>
      x in artifactErrors || x in itemErrors || x in recordErrors || x in receiptErrors || x in provenanceErrors {
    }
    if errors == [] && !e.finalizes {
      assert artifactErrors == [] && itemErrors == [] && recordErrors == [] && receiptErrors == [] && provenanceErrors == [];
    }
  }

  lemma AuditRaises(expected: seq<string>, records: seq<Terminal>)
    ensures AuditTerminalRecords(expected, records).None? <==> !Distinct(expected)
  {
  }

  method AuditRecords(e: Evidence, identity: RoundIdentity, shards: seq<seq<WorkItem>>) returns (errors: seq<Problem>)
    requires |e.records| == |e.componentProblems|
    ensures errors == [] <==> RecordsClean(e, identity, shards, |e.records|)
    ensures RecordsExplained(e, identity, shards, |e.records|, errors) && forall x :: x in errors ==> x.RecordProblem?
  {
    hide RecordProblems, Assignments;
    errors := [];
    var assignments := Assignments(shards, |shards|);
    for n := 0 to |e.records|
      invariant errors == [] <==> RecordsClean(e, identity, shards, n)
      invariant RecordsExplained(e, identity, shards, n, errors) && forall x :: x in errors ==> x.RecordProblem?
    {
      var fields := RecordProblems(e.records[n], identity, assignments);
      var more := if fields != {} || e.componentProblems[n] > 0 then [RecordProblem(fields, e.componentProblems[n])] else [];
      ExplainRecord(e, identity, shards, n, errors, more);
      errors := errors + more;
    }
  }

  lemma ExplainRecord(e: Evidence, identity: RoundIdentity, shards: seq<seq<WorkItem>>, n: nat, errors: seq<Problem>,
                      more: seq<Problem>)
    requires n < |e.records| == |e.componentProblems| && RecordsExplained(e, identity, shards, n, errors)
    requires more == if RecordComplains(e, identity, shards, n) then [ComplaintOf(e, identity, shards, n)] else []
    requires forall x :: x in errors ==> x.RecordProblem?
    ensures RecordsExplained(e, identity, shards, n + 1, errors + more) && forall x :: x in errors + more ==> x.RecordProblem?
  {
    assert ComplaintOf(e, identity, shards, n).RecordProblem?;
    hide RecordComplains, ComplaintOf, IsComplaint;
    forall x | x in errors + more ensures IsComplaint(e, identity, shards, n + 1, x) {
      if x in errors {
        StillComplaint(e, identity, shards, n, x);
      } else {
        LastComplaint(e, identity, shards, n);
      }
    }
  }

  lemma StillComplaint(e: Evidence, identity: RoundIdentity, shards: seq<seq<WorkItem>>, n: nat, x: Problem)
    requires n < |e.records| == |e.componentProblems| && IsComplaint(e, identity, shards, n, x)
    ensures IsComplaint(e, identity, shards, n + 1, x)
  {
    hide RecordComplains, ComplaintOf;
  }

  lemma LastComplaint(e: Evidence, identity: RoundIdentity, shards: seq<seq<WorkItem>>, n: nat)
    requires n < |e.records| == |e.componentProblems| && RecordComplains(e, identity, shards, n)
    ensures IsComplaint(e, identity, shards, n + 1, ComplaintOf(e, identity, shards, n))
  {
    hide RecordComplains, ComplaintOf;
  }

  method AuditReceipts(e: Evidence, identity: RoundIdentity, shards: seq<seq<WorkItem>>) returns (errors: seq<Problem>)
    ensures errors == [] <==>
      ReceiptIdentities(e.receipts, |shards|) && ReceiptsClean(e, identity, shards, |e.receipts|)
    ensures ReceiptsExplained(e, identity, shards, |e.receipts|, errors)
    ensures forall x :: x in errors ==> x.IdentityProblem? || x.ReceiptProblem?
  {
    hide ReceiptAccepted, ReceiptIdentities;
    errors := if ReceiptIdentities(e.receipts, |shards|) then [] else [IdentityProblem];
    assert IdentityProblem in errors <==> !ReceiptIdentities(e.receipts, |shards|);
    for n := 0 to |e.receipts|
      invariant errors == [] <==> ReceiptIdentities(e.receipts, |shards|) && ReceiptsClean(e, identity, shards, n)
      invariant ReceiptsExplained(e, identity, shards, n, errors)
      invariant forall x :: x in errors ==> x.IdentityProblem? || x.ReceiptProblem?
    {
      if !ReceiptAccepted(e.receipts[n], identity, shards, e.records) {
        errors := errors + [ReceiptProblem(n)];
      }
    }
  }

  // ----- what success means -----

  /** Where an item of a shard stands among all items. */
  lemma {:induction false} FlattenAt(shards: seq<seq<WorkItem>>, n: nat, k: nat, j: nat) returns (at: nat)
    requires k < n <= |shards| && j < |shards[k]|
    ensures at == |Flatten(shards[..k])| + j < |Flatten(shards[..n])| && Flatten(shards[..n])[at] == shards[k][j]
  {
    assert shards[..n][..n - 1] == shards[..n - 1];
    if k == n - 1 {
      at := |Flatten(shards[..k])| + j;
    } else {
      at := FlattenAt(shards, n - 1, k, j);
    }
  }

  lemma {:induction false} FlattenGrows(shards: seq<seq<WorkItem>>, k: nat, n: nat)
    requires k < n <= |shards|
    ensures |Flatten(shards[..k])| + |shards[k]| <= |Flatten(shards[..n])|
  {
    assert shards[..n][..n - 1] == shards[..n - 1];
    if k < n - 1 {
      FlattenGrows(shards, k, n - 1);
    }
  }

  /** Items listed once overall are listed once among the shards. */
  lemma DistinctItems(shards: seq<seq<WorkItem>>)
    requires Distinct(Ids(Flatten(shards)))
    ensures DistinctShards(shards)
  {
    forall k, j, l, i | 0 <= k < |shards| && 0 <= j < |shards[k]| && 0 <= l < |shards| && 0 <= i < |shards[l]|
      ensures shards[k][j].itemId == shards[l][i].itemId ==> k == l && j == i
    {
      if shards[k][j].itemId == shards[l][i].itemId {
        SamePlace(shards, k, j, l, i);
      }
    }
  }

  lemma SamePlace(shards: seq<seq<WorkItem>>, k: nat, j: nat, l: nat, i: nat)
    requires Distinct(Ids(Flatten(shards)))
    requires k < |shards| && j < |shards[k]| && l < |shards| && i < |shards[l]|
    requires shards[k][j].itemId == shards[l][i].itemId
    ensures k == l && j == i
  {
    var n := |shards|;
    assert shards[..n] == shards;
    var a := FlattenAt(shards, n, k, j);
    var b := FlattenAt(shards, n, l, i);
    assert Ids(Flatten(shards))[a] == Ids(Flatten(shards))[b];
    assert a == b;
    if k < l {
      FlattenGrows(shards, k, l);
    } else if l < k {
      FlattenGrows(shards, l, k);
    }
  }

  /** Every item of the shards is among the expected IDs. */
  lemma ExpectedItem(shards: seq<seq<WorkItem>>, k: nat, j: nat)
    requires k < |shards| && j < |shards[k]|
    ensures shards[k][j].itemId in Ids(Flatten(shards))
  {
    assert shards[..|shards|] == shards;
    var at := FlattenAt(shards, |shards|, k, j);
    assert Ids(Flatten(shards))[at] == shards[k][j].itemId;
  }


  /** Record i is the one success record of item shards[k][j]. */
  predicate IsSuccessOf(records: seq<Record>, i: nat, shards: seq<seq<WorkItem>>, k: nat, j: nat)
    requires i < |records| && k < |shards| && j < |shards[k]|
  {
    && records[i].itemId == Text(shards[k][j].itemId) && records[i].status == Text("success")
    && records[i].workerId == Number(k) && records[i].weightBytes == Number(shards[k][j].weightBytes)
  }

  lemma CleanStatus(e: Evidence, shards: seq<seq<WorkItem>>, i: nat)
    requires ItemsClean(e, shards) && i < |e.records|
    requires ObservedId(Terminals(e.records)[i]) in Ids(Flatten(shards))
    ensures e.records[i].status == Text("success")
  {
    var expected, terminals := Ids(Flatten(shards)), Terminals(e.records);
    AuditExact(expected, terminals);
    FailedIdsEmpty(terminals, expected, |terminals|);
    hide AuditOk;
    assert LegalStatus(terminals[i]) && !FailedStatus(terminals[i]);
  }

  /** Some record of a clean round carries a given expected ID. */
  lemma ObservedSomewhere(e: Evidence, shards: seq<seq<WorkItem>>, id: string) returns (i: nat)
    requires ItemsClean(e, shards) && id in Ids(Flatten(shards))
    ensures i < |e.records| && ObservedId(TerminalOf(e.records[i])) == id
  {
    var expected, observed := Ids(Flatten(shards)), Observed(Terminals(e.records));
    AuditExact(expected, Terminals(e.records));
    hide AuditOk, AuditTerminalRecords;
    assert id in multiset(expected) && id in multiset(observed);
    i :| 0 <= i < |observed| && observed[i] == id;
  }

  lemma RecordIsClean(e: Evidence, identity: RoundIdentity, shards: seq<seq<WorkItem>>, i: nat)
    requires |e.records| == |e.componentProblems| && RecordsClean(e, identity, shards, |e.records|) && i < |e.records|
    ensures var r, assignments := e.records[i], Assignments(shards, |shards|);
            && r.itemId.Text? && r.itemId.s in assignments && ObservedId(TerminalOf(r)) == r.itemId.s
            && r.workerId == Number(assignments[r.itemId.s].0) && r.weightBytes == Number(assignments[r.itemId.s].1)
  {
    hide Assignments, RecordProblems;
    CleanRecord(e.records[i], identity, Assignments(shards, |shards|));
  }

  /** The record of an item in a clean round. */
  lemma RecordOfItem(e: Evidence, identity: RoundIdentity, shards: seq<seq<WorkItem>>, k: nat, j: nat) returns (i: nat)
    requires |e.records| == |e.componentProblems| && RoundClean(e, identity, shards)
    requires k < |shards| && j < |shards[k]|
    ensures i < |e.records| && IsSuccessOf(e.records, i, shards, k, j)
  {
    hide RecordsClean, ReceiptsClean, ReceiptIdentities, Assignments, ItemsClean, ObservedId, Ids, DistinctShards;
    ExpectedItem(shards, k, j);
    i := ObservedSomewhere(e, shards, shards[k][j].itemId);
    CleanStatus(e, shards, i);
    CleanShards(e, shards);
    AssignmentAt(shards, |shards|, k, j);
    RecordIsClean(e, identity, shards, i);
  }

  lemma CleanShards(e: Evidence, shards: seq<seq<WorkItem>>)
    requires ItemsClean(e, shards)
    ensures DistinctShards(shards)
  {
    AuditRaises(Ids(Flatten(shards)), Terminals(e.records));
    DistinctItems(shards);
  }

  /** And there is no other. */
  lemma OnlyRecordOfItem(e: Evidence, identity: RoundIdentity, shards: seq<seq<WorkItem>>, a: nat, b: nat)
    requires |e.records| == |e.componentProblems| && RoundClean(e, identity, shards)
    requires a < |e.records| && b < |e.records|
    requires ObservedId(TerminalOf(e.records[a])) == ObservedId(TerminalOf(e.records[b]))
    ensures a == b
  {
    var expected, observed := Ids(Flatten(shards)), Observed(Terminals(e.records));
    assert ItemsClean(e, shards);
    AuditExact(expected, Terminals(e.records));
    hide RecordsClean, ReceiptsClean;
    if a != b {
      SeenTwice(observed, if a < b then a else b, if a < b then b else a);
      DistinctCounts(expected, observed[a]);
    }
  }

  /**
   * A successful round is sound: every item of the manifest has exactly one terminal
   * record, it is a success, and it names the worker whose shard the partition gave
   * the item to; and there are no other records.
   */
  lemma SuccessIsSound(items: seq<WorkItem>, workers: nat, e: Evidence, identity: RoundIdentity, item: WorkItem)
    returns (k: nat, j: nat, i: nat)
    requires Partition(items, workers).Shards? && item in items
    requires |e.records| == |e.componentProblems| && RoundClean(e, identity, Partition(items, workers).shards)
    ensures var shards := Partition(items, workers).shards;
            && k < workers == |shards| && j < |shards[k]| && shards[k][j] == item
            && i < |e.records| == |items| && IsSuccessOf(e.records, i, shards, k, j)
            && forall other :: 0 <= other < |e.records| && e.records[other].itemId == Text(item.itemId) ==> other == i
  {
    var shards := Partition(items, workers).shards;
    ShardsPartitionItems(items, workers);
    hide Partition, RecordsClean, ReceiptsClean, ReceiptIdentities, ItemsClean;
    k, j := ItemPlace(shards, items, item);
    i := RecordOfItem(e, identity, shards, k, j);
    RecordCount(items, e, shards);
    NoOtherRecord(e, identity, shards, i, item.itemId);
  }

  lemma NoOtherRecord(e: Evidence, identity: RoundIdentity, shards: seq<seq<WorkItem>>, i: nat, id: string)
    requires |e.records| == |e.componentProblems| && RoundClean(e, identity, shards)
    requires i < |e.records| && e.records[i].itemId == Text(id)
    ensures forall other :: 0 <= other < |e.records| && e.records[other].itemId == Text(id) ==> other == i
  {
    hide RoundClean;
    forall other | 0 <= other < |e.records| && e.records[other].itemId == Text(id) ensures other == i {
      OnlyRecordOfItem(e, identity, shards, other, i);
    }
  }

  lemma RecordCount(items: seq<WorkItem>, e: Evidence, shards: seq<seq<WorkItem>>)
    requires ItemsClean(e, shards) && multiset(Flatten(shards)) == multiset(items)
    ensures |e.records| == |items|
  {
    AuditExact(Ids(Flatten(shards)), Terminals(e.records));
    assert |multiset(Observed(Terminals(e.records)))| == |multiset(Ids(Flatten(shards)))|;
    assert |multiset(Flatten(shards))| == |multiset(items)|;
  }

  lemma {:induction false} FlattenPlace(shards: seq<seq<WorkItem>>, item: WorkItem) returns (k: nat, j: nat)
    requires item in Flatten(shards)
    ensures k < |shards| && j < |shards[k]| && shards[k][j] == item
  {
    var last := |shards| - 1;
    if item in shards[last] {
      k := last;
      j :| 0 <= j < |shards[last]| && shards[last][j] == item;
    } else {
      k, j := FlattenPlace(shards[..last], item);
    }
  }

  lemma ItemPlace(shards: seq<seq<WorkItem>>, items: seq<WorkItem>, item: WorkItem) returns (k: nat, j: nat)
    requires multiset(Flatten(shards)) == multiset(items) && item in items
    ensures k < |shards| && j < |shards[k]| && shards[k][j] == item
  {
    assert item in multiset(items);
    k, j := FlattenPlace(shards, item);
  }

  /** Every worker's receipt is there, successful, and counts its whole shard as successes. */
  lemma EveryWorkerReported(e: Evidence, identity: RoundIdentity, shards: seq<seq<WorkItem>>, k: nat) returns (i: nat)
    requires |e.records| == |e.componentProblems| && RoundClean(e, identity, shards) && k < |shards|
    ensures i < |e.receipts| && e.receipts[i].Receipt? && e.receipts[i].workerId == Number(k)
    ensures e.receipts[i].status == Text("success") && e.receipts[i].assignedIds == Ids(shards[k])
    ensures CountStatus(e.records, k, "success") == |shards[k]|
  {
    hide RecordsClean, ItemsClean, CountStatus, Ids, ReceiptAccepted;
    i := ReceiptOf(e, shards, k);
    CleanReceipt(e.receipts[i], identity, shards, k, e.records);
  }

  lemma ReceiptOf(e: Evidence, shards: seq<seq<WorkItem>>, k: nat) returns (i: nat)
    requires ReceiptIdentities(e.receipts, |shards|) && k < |shards|
    ensures i < |e.receipts| && e.receipts[i].Receipt? && e.receipts[i].workerId == Number(k)
  {
    assert k in NamedWorkers(e.receipts);
    hide NamedWorkers;
    i :| 0 <= i < |e.receipts| && e.receipts[i].Receipt? && e.receipts[i].workerId == Number(k);
  }

  lemma CleanReceipt(x: Receipt, identity: RoundIdentity, shards: seq<seq<WorkItem>>, k: nat, records: seq<Record>)
    requires ReceiptAccepted(x, identity, shards, records) && k < |shards| && x.workerId == Number(k)
    ensures x.status == Text("success") && x.assignedIds == Ids(shards[k])
    ensures CountStatus(records, k, "success") == |shards[k]|
  {
    hide CountStatus, Ids, Load;
  }
}

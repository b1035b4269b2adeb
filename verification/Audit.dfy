/**
 * Terminal audits: audit_terminal_records of src/cuphoton/core/bulk.py, the
 * record and receipt checks and finalize_round of
 * src/cuphoton/core/execution.py. Reading artifacts, the device provenance audit
 * and the component's own validators are parameters.
 */
module Audit {
  import opened Decimals
  import opened Options

  /** A field of a parsed JSON mapping. */
  datatype Json = Absent | Text(s: string) | Number(n: int) | Else

  // ----- audit_terminal_records -----

  /** A terminal record as the audit reads it. */
  datatype Terminal = Terminal(itemId: Json, status: Json)

  datatype ItemAudit = ItemAudit(missing: set<string>, duplicates: set<string>, unexpected: set<string>,
                                 invalidStatus: seq<string>, failed: seq<string>)

  /** str(record.get("item_id", "")): numbers print as digits. */
  function ObservedId(r: Terminal): string {
    match r.itemId
    case Absent => ""
    case Text(s) => s
    case Number(n) => if n < 0 then "-" + Digits(-n) else Digits(n)
    case Else => "<other>"
  }

  function Observed(records: seq<Terminal>): (ids: seq<string>)
    ensures |ids| == |records|
    ensures forall i :: 0 <= i < |ids| ==> ids[i] == ObservedId(records[i])
  {
    seq(|records|, i requires 0 <= i < |records| => ObservedId(records[i]))
  }

  predicate Distinct(ids: seq<string>) {
    forall i, j :: 0 <= i < j < |ids| ==> ids[i] != ids[j]
  }

  predicate LegalStatus(r: Terminal) {
    r.status.Text? && (r.status.s == "success" || r.status.s == "failed")
  }

  predicate FailedStatus(r: Terminal) {
    r.status.Text? && r.status.s == "failed"
  }

  /** The IDs among the first n records whose status is not legal. */
  function BadStatuses(records: seq<Terminal>, n: nat): seq<string>
    requires n <= |records|
  {
    if n == 0 then []
    else
      BadStatuses(records, n - 1) + if LegalStatus(records[n - 1]) then [] else [ObservedId(records[n - 1])]
  }

  /** The expected IDs among the first n records that failed. */
  function FailedIds(records: seq<Terminal>, expected: seq<string>, n: nat): seq<string>
    requires n <= |records|
  {
    if n == 0 then []
    else
      FailedIds(records, expected, n - 1)
      + if FailedStatus(records[n - 1]) && ObservedId(records[n - 1]) in expected then [ObservedId(records[n - 1])] else []
  }

  /** The audit, or None for its ValueError on repeated expected IDs. */
  function AuditTerminalRecords(expected: seq<string>, records: seq<Terminal>): Option<ItemAudit> {
    if !Distinct(expected) then None
    else
      var observed := Observed(records);
      Some(ItemAudit(
        (set id | id in expected && id !in observed),
        (set id | id in observed && multiset(observed)[id] > 1),
        (set id | id in observed && id !in expected),
        BadStatuses(records, |records|), FailedIds(records, expected, |records|)))
  }

  predicate AuditOk(a: ItemAudit) {
    a.missing == {} && a.duplicates == {} && a.unexpected == {} && a.invalidStatus == []
  }

  lemma {:induction false} BadStatusesEmpty(records: seq<Terminal>, n: nat)
    requires n <= |records|
    ensures BadStatuses(records, n) == [] <==> forall i :: 0 <= i < n ==> LegalStatus(records[i])
  {
    hide ObservedId, LegalStatus;
    if n > 0 {
      BadStatusesEmpty(records, n - 1);
    }
  }

  lemma {:induction false} DistinctCounts(ids: seq<string>, id: string)
    requires Distinct(ids)
    ensures multiset(ids)[id] == if id in ids then 1 else 0
  {
    if ids != [] {
      var last := |ids| - 1;
      assert ids == ids[..last] + [ids[last]];
      DistinctCounts(ids[..last], id);
    }
  }

  /** The three empty lists say that the observed IDs are the expected ones, each once. */
  lemma IdsMatch(expected: seq<string>, observed: seq<string>)
    requires Distinct(expected)
    ensures (set id | id in expected && id !in observed) == {}
            && (set id | id in observed && multiset(observed)[id] > 1) == {}
            && (set id | id in observed && id !in expected) == {}
            <==> multiset(observed) == multiset(expected)
  {
    var missing := set id | id in expected && id !in observed;
    var duplicates := set id | id in observed && multiset(observed)[id] > 1;
    var unexpected := set id | id in observed && id !in expected;
    if missing == {} && duplicates == {} && unexpected == {} {
      forall id ensures multiset(observed)[id] == multiset(expected)[id] {
        DistinctCounts(expected, id);
        assert id !in missing && id !in duplicates && id !in unexpected;
        assert id in observed <==> id in multiset(observed);
      }
    }
    if multiset(observed) == multiset(expected) {
      forall id ensures id !in missing && id !in duplicates && id !in unexpected {
        DistinctCounts(expected, id);
        assert id in observed <==> id in multiset(observed);
        assert id in expected <==> id in multiset(expected);
      }
    }
  }

  /** The audit is ok exactly when observed IDs equal the expected as multisets and every status is legal. */
  lemma AuditExact(expected: seq<string>, records: seq<Terminal>)
    requires AuditTerminalRecords(expected, records).Some?
    ensures AuditOk(AuditTerminalRecords(expected, records).value) <==>
      && multiset(Observed(records)) == multiset(expected)
      && forall i :: 0 <= i < |records| ==> LegalStatus(records[i])
  {
    IdsMatch(expected, Observed(records));
    BadStatusesEmpty(records, |records|);
  }

  lemma {:induction false} FailedIdsEmpty(records: seq<Terminal>, expected: seq<string>, n: nat)
    requires n <= |records|
    ensures FailedIds(records, expected, n) == [] <==>
      forall i :: 0 <= i < n && FailedStatus(records[i]) ==> ObservedId(records[i]) !in expected
  {
    hide ObservedId, FailedStatus;
    if n > 0 {
      FailedIdsEmpty(records, expected, n - 1);
    }
  }

  // ----- execute_worker_round -----

  /** What running one item did: its record's status, and whether the record was written. */
  datatype ItemRun = ItemRun(succeeded: bool, written: bool)

  function Successes(runs: seq<ItemRun>): nat {
    if runs == [] then 0
    else Successes(runs[..|runs| - 1]) + if runs[|runs| - 1].written && runs[|runs| - 1].succeeded then 1 else 0
  }

  /** The counters of a worker round; every item counts as exactly one success or failure. */
  method CountRound(runs: seq<ItemRun>, receiptWritten: bool) returns (successes: nat, failures: nat, success: bool)
    ensures successes == Successes(runs)
    ensures successes + failures == |runs|
    ensures success <==> receiptWritten && forall i :: 0 <= i < |runs| ==> runs[i].succeeded && runs[i].written
  {
    successes, failures := 0, 0;
    for n := 0 to |runs|
      invariant successes == Successes(runs[..n]) && successes + failures == n
      invariant failures == 0 <==> forall i :: 0 <= i < n ==> runs[i].succeeded && runs[i].written
    {
      assert runs[..n + 1][..n] == runs[..n];
      if !runs[n].written {
        failures := failures + 1;
      } else if runs[n].succeeded {
        successes := successes + 1;
      } else {
        failures := failures + 1;
      }
    }
    assert runs[..|runs|] == runs;
    success := failures == 0 && receiptWritten;
  }
}

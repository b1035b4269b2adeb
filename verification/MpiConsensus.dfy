/**
 * The failure consensus of src/cuphoton/core/_mpi_runtime.py: what rank zero
 * decides from the gathered items and what every rank does with the decision.
 */
module MpiConsensus {
  import opened Decimals
  import opened Options

  /** error_payload of an exception: its class name and its possibly empty message. */
  datatype Fault = Fault(kind: string, message: string)

  /** A field of a gathered mapping: absent or not a string, or a string. */
  datatype Field = NotText | Text(value: string)

  datatype ErrorField = NoError | ErrorValue(kind: Field, message: Field)

  /** One gathered item; a rank's own item is always a mapping with its rank. */
  datatype Item = NotAMapping | Item(rank: Option<int>, error: ErrorField)

  predicate Filled(f: Field) {
    f.Text? && f.value != ""
  }

  /** _valid_error. */
  predicate ValidError(e: ErrorField) {
    e.ErrorValue? && Filled(e.kind) && Filled(e.message)
  }

  function Prefix(rank: nat): string { "rank " + Digits(rank) + ": " }

  /** The complaints about the item of one rank. */
  function ItemFailures(rank: nat, item: Item): seq<string> {
    if item.NotAMapping? then [Prefix(rank) + "invalid consensus result"]
    else
      (if item.rank != Some(rank) then [Prefix(rank) + "invalid rank identity"] else [])
      + if item.error.NoError? then []
        else if !ValidError(item.error) then [Prefix(rank) + "invalid error payload"]
        else [Prefix(rank) + item.error.kind.value + ": " + item.error.message.value]
  }

  function FailuresUpTo(items: seq<Item>, n: nat): seq<string>
    requires n <= |items|
  {
    if n == 0 then [] else FailuresUpTo(items, n - 1) + ItemFailures(n - 1, items[n - 1])
  }

  function Join(parts: seq<string>): string {
    if parts == [] then "" else if |parts| == 1 then parts[0] else Join(parts[..|parts| - 1]) + "; " + parts[|parts| - 1]
  }

  /** The decision rank zero broadcasts: a message, or none. */
  function Decision(phase: string, items: seq<Item>, size: nat): Option<string> {
    var failures := if |items| != size then ["invalid consensus result"] else FailuresUpTo(items, size);
    if failures == [] then None else Some(phase + " failed: " + Join(failures))
  }

  method Decide(phase: string, items: seq<Item>, size: nat) returns (decision: Option<string>)
    ensures decision == Decision(phase, items, size)
  {
    var failures: seq<string> := [];
    if |items| != size {
      failures := ["invalid consensus result"];
    } else {
      for rank := 0 to size
        invariant failures == FailuresUpTo(items, rank)
      {
        failures := failures + ItemFailures(rank, items[rank]);
      }
    }
    decision := if failures == [] then None else Some(phase + " failed: " + Join(failures));
  }

  /** What rank r sends: its error, or none; error_payload always has a kind. */
  function RankItem(r: nat, error: Option<Fault>): Item {
    Item(Some(r), if error.None? then NoError else ErrorValue(Text(error.value.kind), Text(error.value.message)))
  }

  function RankItems(errors: seq<Option<Fault>>): (items: seq<Item>)
    ensures |items| == |errors|
  {
    seq(|errors|, r requires 0 <= r < |errors| => RankItem(r, errors[r]))
  }

  lemma {:induction false} NoFailures(items: seq<Item>, n: nat)
    requires n <= |items|
    ensures FailuresUpTo(items, n) == [] <==> forall r :: 0 <= r < n ==> ItemFailures(r, items[r]) == []
  {
    hide ItemFailures;
    if n > 0 {
      NoFailures(items, n - 1);
    }
  }

  /** A rank's own item is complained about exactly when it carries an error. */
  lemma OwnItem(r: nat, error: Option<Fault>)
    ensures ItemFailures(r, RankItem(r, error)) == [] <==> error.None?
    ensures error.Some? && error.value.kind != "" && error.value.message != "" ==>
      ItemFailures(r, RankItem(r, error)) == [Prefix(r) + error.value.kind + ": " + error.value.message]
  {
    hide Prefix;
  }

  /**
   * The consensus raises exactly when some rank failed, an error with an empty
   * message included, and the broadcast decision alone says so.
   */
  lemma RaisesExactly(phase: string, errors: seq<Option<Fault>>)
    ensures Decision(phase, RankItems(errors), |errors|).Some? <==> exists r :: 0 <= r < |errors| && errors[r].Some?
    ensures Decision(phase, RankItems(errors), |errors|).Some? ==> Decision(phase, RankItems(errors), |errors|).value != ""
  {
    var items := RankItems(errors);
    NoFailures(items, |errors|);
    forall r | 0 <= r < |errors| ensures ItemFailures(r, items[r]) == [] <==> errors[r].None? {
      OwnItem(r, errors[r]);
    }
    hide ItemFailures, FailuresUpTo, RankItem, Join;
  }

  /** The first complaint names the lowest failing rank. */
  lemma {:induction false} LowestRankFirst(errors: seq<Option<Fault>>, n: nat, r: nat)
    requires r < n <= |errors| && errors[r].Some? && forall k :: 0 <= k < r ==> errors[k].None?
    requires errors[r].value.kind != "" && errors[r].value.message != ""
    ensures FailuresUpTo(RankItems(errors), n) != []
    ensures FailuresUpTo(RankItems(errors), n)[0] == Prefix(r) + errors[r].value.kind + ": " + errors[r].value.message
  {
    hide ItemFailures, RankItem, Prefix;
    var items := RankItems(errors);
    assert FailuresUpTo(items, n) == FailuresUpTo(items, n - 1) + ItemFailures(n - 1, items[n - 1]);
    if n - 1 > r {
      LowestRankFirst(errors, n - 1, r);
    } else {
      forall k | 0 <= k < r ensures ItemFailures(k, items[k]) == [] {
        OwnItem(k, errors[k]);
      }
      NoFailures(items, r);
      OwnItem(r, errors[r]);
    }
  }
}

/**
 * What the failure consensus of src/cuphoton/core/_mpi_runtime.py says: it passes only
 * well-formed items without errors, and its message lists every failing rank with its
 * error, lowest rank first.
 */
module ConsensusMessage {
  import opened Decimals
  import opened MpiConsensus
  import opened Options

  /** Item i is a mapping that names its rank and carries no error. */
  predicate Quiet(items: seq<Item>, i: nat)
    requires i < |items|
  {
    items[i] == Item(Some(i), NoError)
  }

  lemma QuietExactly(items: seq<Item>, i: nat)
    requires i < |items|
    ensures ItemFailures(i, items[i]) == [] <==> Quiet(items, i)
  {
    hide Prefix;
  }

  /** Nothing is raised exactly when there is one quiet item for each rank. */
  lemma PassesExactly(phase: string, items: seq<Item>, size: nat)
    ensures Decision(phase, items, size).None? <==> |items| == size && forall i :: 0 <= i < size ==> Quiet(items, i)
  {
    if |items| == size {
      NoFailures(items, size);
      forall i | 0 <= i < size ensures ItemFailures(i, items[i]) == [] <==> Quiet(items, i) {
        QuietExactly(items, i);
      }
      hide ItemFailures, Quiet, Join, FailuresUpTo;
    }
  }

  /** Items that are not what a rank sends are named for what they are. */
  lemma MalformedNamed(phase: string, items: seq<Item>, size: nat, rank: nat, item: Item)
    ensures |items| != size ==> Decision(phase, items, size) == Some(phase + " failed: " + "invalid consensus result")
    ensures item.NotAMapping? ==> ItemFailures(rank, item) == ["rank " + Digits(rank) + ": " + "invalid consensus result"]
    ensures item.Item? && item.rank != Some(rank) && item.error.NoError? ==>
      ItemFailures(rank, item) == ["rank " + Digits(rank) + ": " + "invalid rank identity"]
    ensures item.Item? && item.rank != Some(rank) && item.error.ErrorValue? ==>
      |ItemFailures(rank, item)| == 2
      && ItemFailures(rank, item)[0] == "rank " + Digits(rank) + ": " + "invalid rank identity"
      && ItemFailures(rank, item)[1..] == ItemFailures(rank, item.(rank := Some(rank)))
  {
    hide Digits, Join;
    if |items| != size {
      JoinOne("invalid consensus result");
    }
  }

  /** One failing rank; an error without a kind or a message is only called invalid. */
  function Line(rank: nat, f: Fault): string {
    "rank " + Digits(rank) + ": "
    + if f.kind == "" || f.message == "" then "invalid error payload" else f.kind + ": " + f.message
  }

  /** The failing ranks from r on, in order. */
  function Listing(errors: seq<Option<Fault>>, r: nat): string
    requires r <= |errors|
    decreases |errors| - r
  {
    if r == |errors| then ""
    else
      var rest := Listing(errors, r + 1);
      if errors[r].None? then rest
      else if rest == "" then Line(r, errors[r].value)
      else Line(r, errors[r].value) + "; " + rest
  }

  /** The lines themselves. */
  function Lines(errors: seq<Option<Fault>>, r: nat): seq<string>
    requires r <= |errors|
    decreases |errors| - r
  {
    if r == |errors| then []
    else if errors[r].None? then Lines(errors, r + 1)
    else [Line(r, errors[r].value)] + Lines(errors, r + 1)
  }

  lemma {:induction false} JoinFront(first: string, rest: seq<string>)
    requires rest != []
    ensures Join([first] + rest) == first + "; " + Join(rest)
  {
    var all := [first] + rest;
    if |rest| > 1 {
      JoinFront(first, rest[..|rest| - 1]);
      assert all[..|all| - 1] == [first] + rest[..|rest| - 1];
    } else {
      assert all[..|all| - 1] == [first] && Join([first]) == first && Join(rest) == rest[0];
    }
  }

  lemma {:induction false} ListingJoins(errors: seq<Option<Fault>>, r: nat)
    requires r <= |errors|
    ensures Listing(errors, r) == Join(Lines(errors, r))
    ensures Lines(errors, r) == [] <==> Listing(errors, r) == ""
    decreases |errors| - r
  {
    hide Line, Join;
    if r == |errors| {
      JoinNothing();
    } else {
      ListingJoins(errors, r + 1);
      if errors[r].Some? {
        LineSpeaks(r, errors[r].value);
        var rest := Lines(errors, r + 1);
        if rest == [] {
          JoinOne(Line(r, errors[r].value));
          assert [Line(r, errors[r].value)] + rest == [Line(r, errors[r].value)];
        } else {
          JoinFront(Line(r, errors[r].value), rest);
        }
      }
    }
  }

  lemma JoinNothing()
    ensures Join([]) == ""
  {
  }

  lemma JoinOne(x: string)
    ensures Join([x]) == x
  {
  }

  lemma LineSpeaks(r: nat, f: Fault)
    ensures Line(r, f) != ""
  {
    assert |"rank "| == 5;
  }

  lemma FailureIsLine(r: nat, error: Option<Fault>)
    ensures ItemFailures(r, RankItem(r, error)) == if error.None? then [] else [Line(r, error.value)]
  {
    if error.Some? {
      var f := error.value;
      if f.kind != "" && f.message != "" {
        assert Prefix(r) + f.kind + ": " + f.message == Prefix(r) + (f.kind + ": " + f.message);
      }
    }
    hide Digits;
  }

  /** Lines from the front are failures up to the end. */
  lemma {:induction false} LinesSplit(errors: seq<Option<Fault>>, r: nat)
    requires r <= |errors|
    ensures FailuresUpTo(RankItems(errors), |errors|) == FailuresUpTo(RankItems(errors), r) + Lines(errors, r)
    decreases |errors| - r
  {
    hide ItemFailures, Line, RankItem;
    if r < |errors| {
      LinesSplit(errors, r + 1);
      FailureIsLine(r, errors[r]);
      var items, line := RankItems(errors), ItemFailures(r, RankItem(r, errors[r]));
      assert FailuresUpTo(items, r + 1) == FailuresUpTo(items, r) + line;
      assert Lines(errors, r) == line + Lines(errors, r + 1);
      assert FailuresUpTo(items, r) + line + Lines(errors, r + 1) == FailuresUpTo(items, r) + (line + Lines(errors, r + 1));
    }
  }

  /** The message is the listing of all failing ranks, whatever their errors. */
  lemma MessageListsFailures(phase: string, errors: seq<Option<Fault>>)
    ensures Decision(phase, RankItems(errors), |errors|)
            == if Listing(errors, 0) == "" then None else Some(phase + " failed: " + Listing(errors, 0))
  {
    hide Listing, Lines, Join, RankItem, ItemFailures;
    LinesSplit(errors, 0);
    ListingJoins(errors, 0);
    assert FailuresUpTo(RankItems(errors), 0) + Lines(errors, 0) == Lines(errors, 0);
  }
}

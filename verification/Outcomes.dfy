/** From the results of a message's subscribers to one outcome. */
module Outcomes {
  import opened Wrappers

  /** What `gather` collects for a subscriber; an exception is known by its identity. */
  datatype SubscriberResult = Handled | Retryable(error: int) | Raised(error: int)

  datatype Outcome = Success | Retry(errors: seq<int>) | Failure(errors: seq<int>)

  datatype Disposition = Ack | RetryLater | DeadLetter

  /** The retryable errors among the results, in order. */
  function RetryErrors(results: seq<SubscriberResult>): seq<int> {
    if results == [] then []
    else
      var last := results[|results| - 1];
      RetryErrors(results[..|results| - 1]) + if last.Retryable? then [last.error] else []
  }

  /** The other exceptions among the results, in order. */
  function OtherErrors(results: seq<SubscriberResult>): seq<int> {
    if results == [] then []
    else
      var last := results[|results| - 1];
      OtherErrors(results[..|results| - 1]) + if last.Raised? then [last.error] else []
  }

  function Resolve(results: seq<SubscriberResult>): Outcome {
    if RetryErrors(results) != [] then Retry(RetryErrors(results))
    else if OtherErrors(results) != [] then Failure(OtherErrors(results))
    else Success
  }

  /** base.py, `_determine_outcome`. */
  method DetermineOutcome(results: seq<SubscriberResult>) returns (outcome: Outcome)
    ensures outcome == Resolve(results)
  {
    var retryable: seq<int>, exceptions: seq<int> := [], [];
    for i := 0 to |results|
      invariant retryable == RetryErrors(results[..i]) && exceptions == OtherErrors(results[..i])
    {
      assert results[..i + 1][..i] == results[..i];
      if results[i].Retryable? {
        retryable := retryable + [results[i].error];
      } else if results[i].Raised? {
        exceptions := exceptions + [results[i].error];
      }
    }
    assert results[..|results|] == results;
    if retryable != [] {
      return Retry(retryable);
    }
    if exceptions != [] {
      return Failure(exceptions);
    }
    outcome := Success;
  }

  lemma {:induction false} RetryErrorsComplete(results: seq<SubscriberResult>, e: int)
    ensures multiset(RetryErrors(results))[e] == multiset(results)[Retryable(e)]
  {
    if results != [] {
      var init, last := results[..|results| - 1], results[|results| - 1];
      RetryErrorsComplete(init, e);
      assert results == init + [last];
    }
  }

  lemma {:induction false} OtherErrorsComplete(results: seq<SubscriberResult>, e: int)
    ensures multiset(OtherErrors(results))[e] == multiset(results)[Raised(e)]
  {
    if results != [] {
      var init, last := results[..|results| - 1], results[|results| - 1];
      OtherErrorsComplete(init, e);
      assert results == init + [last];
    }
  }

  /** The error lists are complete and hold nothing else, however often an error occurs. */
  lemma ErrorsAreComplete(results: seq<SubscriberResult>, e: int)
    ensures multiset(RetryErrors(results))[e] == multiset(results)[Retryable(e)]
    ensures multiset(OtherErrors(results))[e] == multiset(results)[Raised(e)]
    ensures e in RetryErrors(results) <==> Retryable(e) in results
    ensures e in OtherErrors(results) <==> Raised(e) in results
  {
    RetryErrorsComplete(results, e);
    OtherErrorsComplete(results, e);
    assert e in RetryErrors(results) <==> e in multiset(RetryErrors(results));
    assert e in OtherErrors(results) <==> e in multiset(OtherErrors(results));
    assert Retryable(e) in results <==> Retryable(e) in multiset(results);
    assert Raised(e) in results <==> Raised(e) in multiset(results);
  }

  predicate Reported(r: SubscriberResult, retryable: bool) {
    if retryable then r.Retryable? else r.Raised?
  }

  /** The positions of the retryable results, or of the other failures. */
  function Positions(results: seq<SubscriberResult>, retryable: bool): seq<nat> {
    if results == [] then []
    else
      var n := |results| - 1;
      Positions(results[..n], retryable) + (if Reported(results[n], retryable) then [n] else [])
  }

  lemma {:induction false} PositionsInOrder(results: seq<SubscriberResult>, retryable: bool)
    ensures forall m | 0 <= m < |Positions(results, retryable)| :: Positions(results, retryable)[m] < |results|
    ensures forall m, n | 0 <= m < n < |Positions(results, retryable)| ::
              Positions(results, retryable)[m] < Positions(results, retryable)[n]
  {
    if results != [] {
      PositionsInOrder(results[..|results| - 1], retryable);
    }
  }

  lemma {:induction false} PositionsComplete(results: seq<SubscriberResult>, retryable: bool, k: nat)
    requires k < |results|
    ensures k in Positions(results, retryable) <==> Reported(results[k], retryable)
  {
    var n := |results| - 1;
    PositionsInOrder(results[..n], retryable);
    if k < n {
      PositionsComplete(results[..n], retryable, k);
    }
  }

  /** The m-th error is that of the m-th reported result. */
  lemma {:induction false} ErrorsAtPositions(results: seq<SubscriberResult>, retryable: bool)
    ensures var errors := if retryable then RetryErrors(results) else OtherErrors(results);
            var at := Positions(results, retryable);
            && |errors| == |at|
            && forall m | 0 <= m < |at| ::
                 at[m] < |results| && Reported(results[at[m]], retryable) && results[at[m]].error == errors[m]
  {
    if results != [] {
      ErrorsAtPositions(results[..|results| - 1], retryable);
    }
  }

  /** The outcome carries the errors of the reported kind, all of them, in the order of the results. */
  lemma OutcomeKeepsOrder(results: seq<SubscriberResult>, k: nat)
    requires !Resolve(results).Success?
    ensures var (o, at) := (Resolve(results), Positions(results, Resolve(results).Retry?));
            && |o.errors| == |at|
            && (forall m | 0 <= m < |at| :: at[m] < |results| && results[at[m]] ==
                  if o.Retry? then Retryable(o.errors[m]) else Raised(o.errors[m]))
            && (forall m, n | 0 <= m < n < |at| :: at[m] < at[n])
            && (k < |results| ==> (k in at <==> if o.Retry? then results[k].Retryable? else results[k].Raised?))
  {
    var retryable := Resolve(results).Retry?;
    ErrorsAtPositions(results, retryable);
    PositionsInOrder(results, retryable);
    if k < |results| { PositionsComplete(results, retryable, k); }
  }

  function DispositionOf(o: Outcome): Disposition {
    match o
    case Success => Ack
    case Retry(_) => RetryLater
    case Failure(_) => DeadLetter
  }

  /** For any number of results in any order: retry if some result is retryable, else dead-letter if
      some result is another exception, else acknowledge. */
  lemma OutcomeBySeverity(results: seq<SubscriberResult>)
    ensures DispositionOf(Resolve(results)) ==
            if exists i | 0 <= i < |results| :: results[i].Retryable? then RetryLater
            else if exists i | 0 <= i < |results| :: results[i].Raised? then DeadLetter
            else Ack
  {
    if i :| 0 <= i < |results| && results[i].Retryable? {
      ErrorsAreComplete(results, results[i].error);
    }
    if i :| 0 <= i < |results| && results[i].Raised? {
      ErrorsAreComplete(results, results[i].error);
    }
    if RetryErrors(results) != [] {
      var e := RetryErrors(results)[0];
      ErrorsAreComplete(results, e);
      var i :| 0 <= i < |results| && results[i] == Retryable(e);
    }
    if OtherErrors(results) != [] {
      var e := OtherErrors(results)[0];
      ErrorsAreComplete(results, e);
      var i :| 0 <= i < |results| && results[i] == Raised(e);
    }
  }

  // ----- Results are keyed by subscriber name -----

  /** The result dictionary, in insertion order. */
  type Entries = seq<(string, SubscriberResult)>

  /** The values of `{name: result for ...}`: a repeated name keeps its first place and its last value. */
  function Keyed(names: seq<string>, results: seq<SubscriberResult>): (r: Entries)
    requires |names| == |results|
  {
    if names == [] then []
    else
      var n := |names| - 1;
      Store(Keyed(names[..n], results[..n]), names[n], results[n])
  }

  function Store(entries: Entries, name: string, result: SubscriberResult): Entries {
    if entries == [] then [(name, result)]
    else if entries[0].0 == name then [(name, result)] + entries[1..]
    else [entries[0]] + Store(entries[1..], name, result)
  }

  function ResultsOf(entries: Entries): seq<SubscriberResult> {
    seq(|entries|, i requires 0 <= i < |entries| => entries[i].1)
  }

  ghost predicate Distinct(names: seq<string>) {
    forall i, j | 0 <= i < j < |names| :: names[i] != names[j]
  }

  lemma {:induction false} StoreNewAppends(entries: Entries, name: string, result: SubscriberResult)
    requires forall i | 0 <= i < |entries| :: entries[i].0 != name
    ensures Store(entries, name, result) == entries + [(name, result)]
  {
    if entries != [] {
      StoreNewAppends(entries[1..], name, result);
      assert entries == [entries[0]] + entries[1..];
    }
  }

  lemma {:induction false} KeyedWhenDistinct(names: seq<string>, results: seq<SubscriberResult>)
    requires |names| == |results| && Distinct(names)
    ensures Keyed(names, results) == seq(|names|, i requires 0 <= i < |names| => (names[i], results[i]))
  {
    if names != [] {
      var n := |names| - 1;
      KeyedWhenDistinct(names[..n], results[..n]);
      StoreNewAppends(Keyed(names[..n], results[..n]), names[n], results[n]);
    }
  }

  /** The value an entry holds is the last result given under its name. */
  ghost predicate LastUnderName(entry: (string, SubscriberResult), names: seq<string>, results: seq<SubscriberResult>) {
    && |names| == |results|
    && exists j | 0 <= j < |names| :: names[j] == entry.0 && results[j] == entry.1 && entry.0 !in names[j + 1..]
  }

  /** Storing leaves the other entries and replaces every value of the name. */
  lemma {:induction false} StoreEntries(
    entries: Entries, name: string, result: SubscriberResult, e: (string, SubscriberResult))
    requires NamesApart(entries)
    requires e in Store(entries, name, result)
    ensures e == (name, result) || (e in entries && e.0 != name)
  {
    if entries != [] && entries[0].0 != name {
      if e != entries[0] { StoreEntries(entries[1..], name, result, e); }
    } else if entries != [] && e != (name, result) {
      var i :| 0 <= i < |entries[1..]| && entries[1..][i] == e;
      assert entries[i + 1] == e;
    }
  }

  lemma {:induction false} StoreKeepsNamesApart(entries: Entries, name: string, result: SubscriberResult)
    requires NamesApart(entries)
    ensures NamesApart(Store(entries, name, result))
  {
    if entries != [] && entries[0].0 != name {
      var rest := Store(entries[1..], name, result);
      StoreKeepsNamesApart(entries[1..], name, result);
      forall j | 0 <= j < |rest| ensures rest[j].0 != entries[0].0 {
        assert rest[j] in rest;
        StoreEntries(entries[1..], name, result, rest[j]);
        if rest[j].0 != name {
          var i :| 0 <= i < |entries[1..]| && entries[1..][i] == rest[j];
          assert entries[i + 1] == rest[j];
        }
      }
      var r := Store(entries, name, result);
      forall i, j | 0 <= i < j < |r| ensures r[i].0 != r[j].0 {
        if i > 0 { assert r[i] == rest[i - 1] && r[j] == rest[j - 1]; } else { assert r[j] == rest[j - 1]; }
      }
    }
  }

  lemma {:induction false} KeyedHoldsLast(names: seq<string>, results: seq<SubscriberResult>)
    requires |names| == |results|
    ensures NamesApart(Keyed(names, results))
    ensures forall e | e in Keyed(names, results) :: LastUnderName(e, names, results)
    decreases |names|
  {
    if names != [] {
      var n := |names| - 1;
      var before := Keyed(names[..n], results[..n]);
      KeyedHoldsLast(names[..n], results[..n]);
      StoreKeepsNamesApart(before, names[n], results[n]);
      forall e | e in Keyed(names, results) ensures LastUnderName(e, names, results) {
        StoreEntries(before, names[n], results[n], e);
        if e == (names[n], results[n]) {
          assert names[n + 1..] == [];
        } else {
          assert LastUnderName(e, names[..n], results[..n]);
          var j :| 0 <= j < n && names[..n][j] == e.0 && results[..n][j] == e.1 && e.0 !in names[..n][j + 1..];
          assert names[j + 1..] == names[..n][j + 1..] + [names[n]];
        }
      }
    }
  }

  /** Every name given has an entry. */
  lemma {:induction false} KeyedHoldsEvery(names: seq<string>, results: seq<SubscriberResult>, k: nat)
    requires |names| == |results| && k < |names|
    ensures exists i | 0 <= i < |Keyed(names, results)| :: Keyed(names, results)[i].0 == names[k]
  {
    var n := |names| - 1;
    var before := Keyed(names[..n], results[..n]);
    if k < n {
      KeyedHoldsEvery(names[..n], results[..n], k);
      var i :| 0 <= i < |before| && before[i].0 == names[k];
      StoreHolds(before, names[n], results[n], i);
      assert Keyed(names, results)[i].0 == names[k];
    } else {
      StoreHoldsNew(before, names[n], results[n]);
      assert Keyed(names, results) == Store(before, names[n], results[n]);
    }
  }

  lemma {:induction false} StoreHolds(entries: Entries, name: string, result: SubscriberResult, i: nat)
    requires i < |entries|
    ensures |Store(entries, name, result)| >= |entries| && Store(entries, name, result)[i].0 == entries[i].0
  {
    if entries[0].0 != name && i > 0 {
      StoreHolds(entries[1..], name, result, i - 1);
    } else if entries[0].0 != name && |entries| > 1 {
      StoreHolds(entries[1..], name, result, 0);
    }
  }

  lemma {:induction false} StoreHoldsNew(entries: Entries, name: string, result: SubscriberResult)
    ensures exists i | 0 <= i < |Store(entries, name, result)| :: Store(entries, name, result)[i].0 == name
  {
    if entries == [] || entries[0].0 == name {
      assert Store(entries, name, result)[0].0 == name;
    } else {
      StoreHoldsNew(entries[1..], name, result);
      var rest := Store(entries[1..], name, result);
      var i :| 0 <= i < |rest| && rest[i].0 == name;
      assert Store(entries, name, result)[i + 1] == rest[i];
    }
  }

  ghost predicate KeyingKeepsOutcome(names: seq<string>) {
    forall results: seq<SubscriberResult> | |results| == |names| ::
      Resolve(ResultsOf(Keyed(names, results))) == Resolve(results)
  }

  /** Keying the results by name never changes the outcome exactly when the names are distinct:
      with a repeated name, a later success hides an earlier failure and the message is acknowledged. */
  lemma DistinctNamesKeepOutcome(names: seq<string>)
    ensures KeyingKeepsOutcome(names) <==> Distinct(names)
  {
    if Distinct(names) {
      forall results: seq<SubscriberResult> | |results| == |names|
        ensures Resolve(ResultsOf(Keyed(names, results))) == Resolve(results)
      {
        KeyedWhenDistinct(names, results);
        assert ResultsOf(Keyed(names, results)) == results;
      }
    } else {
      var bad, j :| 0 <= bad < j < |names| && names[bad] == names[j];
      LaterSuccessHides(names, bad, j);
    }
  }

  lemma LaterSuccessHides(names: seq<string>, bad: nat, j: nat)
    requires bad < j < |names| && names[bad] == names[j]
    ensures exists results: seq<SubscriberResult> | |results| == |names| ::
              Resolve(ResultsOf(Keyed(names, results))) != Resolve(results)
  {
    var results := seq(|names|, i => if i == bad then Raised(0) else Handled);
    var kept := ResultsOf(Keyed(names, results));
    NoFailureKept(names, results, bad, j);
    OutcomeBySeverity(kept);
    OutcomeBySeverity(results);
    assert results[bad].Raised?;
    assert DispositionOf(Resolve(kept)) != DispositionOf(Resolve(results));
  }

  lemma NoFailureKept(names: seq<string>, results: seq<SubscriberResult>, bad: nat, j: nat)
    requires |results| == |names| && bad < j < |names| && names[bad] == names[j]
    requires forall i | 0 <= i < |results| && i != bad :: results[i] == Handled
    ensures forall i | 0 <= i < |ResultsOf(Keyed(names, results))| :: ResultsOf(Keyed(names, results))[i] == Handled
  {
    KeyedHoldsLast(names, results);
    var entries := Keyed(names, results);
    forall i | 0 <= i < |entries| ensures entries[i].1 == Handled {
      var e := entries[i];
      assert e in entries;
      var k :| 0 <= k < |names| && names[k] == e.0 && results[k] == e.1 && e.0 !in names[k + 1..];
      assert j > k ==> names[k + 1..][j - k - 1] == names[j];
    }
  }
}

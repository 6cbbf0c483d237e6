/** Delivery of a log at least once: each delivery is the next new entry or a repeat. */
module AtLeastOnce {
  import opened Outcomes

  /** Applying a list of entries in order, stopping at the first failure. */
  ghost function Run<S, X, E>(apply: (S, X) -> Result<S, E>, s: S, entries: seq<X>): Result<S, E> {
    if entries == [] then Ok(s) else
      match Run(apply, s, entries[..|entries| - 1])
      case Ok(t) => apply(t, entries[|entries| - 1])
      case Err(e) => Err(e)
  }

  /** The entries of a log in the order in which they are delivered. */
  ghost function Delivered<X>(log: seq<X>, indices: seq<nat>): seq<X>
    requires forall k :: 0 <= k < |indices| ==> indices[k] < |log|
  {
    seq(|indices|, k requires 0 <= k < |indices| => log[indices[k]])
  }

  /** How many entries have been delivered at all. */
  function Reached(indices: seq<nat>): nat {
    if indices == [] then 0 else
      var before, i := Reached(indices[..|indices| - 1]), indices[|indices| - 1];
      if i + 1 > before then i + 1 else before
  }

  /** A delivery may rewind to any earlier entry but never skips one. */
  ghost predicate IsDelivery(indices: seq<nat>, entries: nat) {
    forall k :: 0 <= k < |indices| ==> indices[k] < entries && indices[k] <= Reached(indices[..k])
  }

  /** After each prefix of the log, delivering any of its entries again changes nothing. */
  ghost predicate Settles<S(!new), X(!new), E(!new)>(apply: (S, X) -> Result<S, E>, s: S, log: seq<X>) {
    forall k :: 0 <= k <= |log| ==> SettledAt(apply, s, log[..k])
  }

  ghost predicate SettledAt<S(!new), X(!new), E(!new)>(apply: (S, X) -> Result<S, E>, s: S, log: seq<X>) {
    var r := Run(apply, s, log);
    r.Ok? && forall j :: 0 <= j < |log| ==> apply(r.value, log[j]) == r
  }

  lemma RunNext<S, X, E>(apply: (S, X) -> Result<S, E>, s: S, entries: seq<X>, x: X)
    requires Run(apply, s, entries).Ok?
    ensures Run(apply, s, entries + [x]) == apply(Run(apply, s, entries).value, x)
  {
    assert (entries + [x])[..|entries|] == entries;
  }

  lemma DeliveredNext<X>(log: seq<X>, indices: seq<nat>)
    requires indices != [] && forall k :: 0 <= k < |indices| ==> indices[k] < |log|
    ensures Delivered(log, indices) == Delivered(log, indices[..|indices| - 1]) + [log[indices[|indices| - 1]]]
  {
  }

  lemma DeliveryInit(indices: seq<nat>, entries: nat)
    requires indices != [] && IsDelivery(indices, entries)
    ensures IsDelivery(indices[..|indices| - 1], entries)
    ensures indices[|indices| - 1] < entries && indices[|indices| - 1] <= Reached(indices[..|indices| - 1])
  {
    var init := indices[..|indices| - 1];
    assert forall k :: 0 <= k < |init| ==> init[k] == indices[k] && init[..k] == indices[..k];
  }

  lemma {:induction false} RepeatsChangeNothing<S(!new), X(!new), E(!new)>(apply: (S, X) -> Result<S, E>, s: S, log: seq<X>, indices: seq<nat>)
    requires Settles(apply, s, log) && IsDelivery(indices, |log|)
    ensures Reached(indices) <= |log|
    ensures Run(apply, s, Delivered(log, indices)) == Run(apply, s, log[..Reached(indices)])
  {
    hide Run, IsDelivery, Delivered;
    if indices == [] {
      assert Delivered(log, indices) == log[..0] by { NothingDelivered(log, indices); }
    } else {
      var init, i := indices[..|indices| - 1], indices[|indices| - 1];
      DeliveryInit(indices, |log|);
      RepeatsChangeNothing(apply, s, log, init);
      var done := log[..Reached(init)];
      assert SettledAt(apply, s, done);
      DeliveryBounds(indices, |log|);
      DeliveredNext(log, indices);
      RunNext(apply, s, Delivered(log, init), log[i]);
      if i < Reached(init) {
        assert done[i] == log[i];
      } else {
        assert log[..i + 1] == done + [log[i]];
        RunNext(apply, s, done, log[i]);
      }
    }
  }

  lemma DeliveryBounds(indices: seq<nat>, entries: nat)
    requires IsDelivery(indices, entries)
    ensures forall k :: 0 <= k < |indices| ==> indices[k] < entries
  {
  }

  lemma NothingDelivered<X>(log: seq<X>, indices: seq<nat>)
    requires indices == []
    ensures Delivered(log, indices) == log[..0]
  {
  }

  /** Once every entry has been reached, the state is that of delivering the log once. */
  lemma ExactlyOnce<S(!new), X(!new), E(!new)>(apply: (S, X) -> Result<S, E>, s: S, log: seq<X>, indices: seq<nat>)
    requires Settles(apply, s, log) && IsDelivery(indices, |log|) && Reached(indices) == |log|
    ensures Run(apply, s, Delivered(log, indices)) == Run(apply, s, log)
    ensures Run(apply, s, log).Ok?
  {
    RepeatsChangeNothing(apply, s, log, indices);
    assert log[..|log|] == log;
    assert SettledAt(apply, s, log[..|log|]);
  }
}

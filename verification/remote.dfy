/** The remote service as the upload scripts see it: every request is appended to a log in
    the order it is awaited, and the service accepts or refuses each one. */
module Remote {

  /** Whether the request at log position `k` is accepted. A position the oracle does not
      cover is accepted, so the empty oracle describes a service that accepts everything. */
  predicate Accepted(outcomes: seq<bool>, k: nat)
  {
    k >= |outcomes| || outcomes[k]
  }

  /** The answer to a listing request: it failed (network error or non-2xx status),
      or it returned these items. */
  datatype Listing<T> = FetchFailed | Fetched(items: seq<T>)

  /** What a listing contributes to the remote inventory: a failed listing counts as empty. */
  function Inventory<T>(l: Listing<T>): seq<T>
  {
    match l
    case FetchFailed => []
    case Fetched(items) => items
  }

  /** Concatenation regroups freely; stated once so that heavy operands stay opaque to it. */
  lemma Associative<T>(a: seq<T>, b: seq<T>, c: seq<T>)
    ensures a + (b + c) == (a + b) + c
  {
  }

  /** A common beginning keeps one sequence a prefix of another. */
  lemma PrefixExtends<T>(head: seq<T>, a: seq<T>, b: seq<T>)
    requires a <= b
    ensures head + a <= head + b
  {
    assert (head + b)[..|head + a|] == head + a;
  }

  /** Whatever a prefix holds, the longer sequence holds. */
  lemma PrefixMembers<T>(a: seq<T>, b: seq<T>)
    requires a <= b
    ensures forall x :: x in a ==> x in b
  {
    forall x | x in a
      ensures x in b
    {
      var i :| 0 <= i < |a| && a[i] == x;
      assert b[i] == x;
    }
  }

  /** Two requests that occur in order in a suffix of the log occur in order in the log. */
  lemma OrderedInSuffix<T>(log: seq<T>, head: seq<T>, tail: seq<T>, a: T, b: T)
    requires log == head + tail
    requires exists i1, i2 :: 0 <= i1 < i2 < |tail| && tail[i1] == a && tail[i2] == b
    ensures exists i1, i2 :: 0 <= i1 < i2 < |log| && log[i1] == a && log[i2] == b
  {
    var i1, i2 :| 0 <= i1 < i2 < |tail| && tail[i1] == a && tail[i2] == b;
    assert log[|head| + i1] == a && log[|head| + i2] == b;
  }

  /** The authenticated connection to the remote service. */
  class Gateway<C> {
    /** Every request issued so far, in the order it was awaited. */
    var log: seq<C>
    /** The verdict of the service on each request, by log position. */
    const outcomes: seq<bool>

    constructor (outcomes: seq<bool>)
      ensures log == [] && this.outcomes == outcomes
    {
      log := [];
      this.outcomes := outcomes;
    }

    /** Issues one listing request; its answer reaches the caller as a Listing value. */
    method Get(request: C)
      modifies this
      ensures log == old(log) + [request]
    {
      log := log + [request];
    }

    /** Issues one request and waits for it; `accepted` is false for a non-2xx answer. */
    method Send(request: C) returns (accepted: bool)
      modifies this
      ensures log == old(log) + [request]
      ensures accepted == Accepted(outcomes, |old(log)|)
    {
      accepted := Accepted(outcomes, |log|);
      log := log + [request];
    }
  }
}

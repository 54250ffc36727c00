/**
 Replay and duplicate detection (client/crypto/session.py): the highest counter seen and a bounded
 queue of message identifiers.
 */
module Replay {
  import opened Common

  const REPLAY_WINDOW := 50
  const SEEN_CAPACITY := REPLAY_WINDOW * 2

  datatype Filter = Filter(maxCounter: int, seenIds: seq<string>)

  datatype ReplayError = DuplicateId | OutsideWindow

  const EMPTY_FILTER := Filter(-1, [])

  function Checked(f: Filter, id: string, counter: int): Option<ReplayError>
  {
    if id in f.seenIds then Some(DuplicateId)
    else if counter <= f.maxCounter - REPLAY_WINDOW then Some(OutsideWindow)
    else None
  }

  function Committed(f: Filter, id: string, counter: int): Filter
  {
    Filter(if counter > f.maxCounter then counter else f.maxCounter,
           LastOf(f.seenIds + [id], SEEN_CAPACITY))
  }

  class ReplayProtector {
    var maxCounter: int
    var seenIds: seq<string>

    function State(): Filter
      reads this
    {
      Filter(maxCounter, seenIds)
    }

    constructor ()
      ensures State() == EMPTY_FILTER
    {
      maxCounter, seenIds := -1, [];
    }

    /** Reads the filter only. */
    method Check(id: string, counter: int) returns (r: Option<ReplayError>)
      ensures r == Checked(State(), id, counter)
    {
      if id in seenIds {
        return Some(DuplicateId);
      }
      if counter <= maxCounter - REPLAY_WINDOW {
        return Some(OutsideWindow);
      }
      return None;
    }

    /** A full queue drops its oldest identifier. */
    method Commit(id: string, counter: int)
      requires |seenIds| <= SEEN_CAPACITY
      modifies this
      ensures State() == Committed(old(State()), id, counter)
      ensures |seenIds| <= SEEN_CAPACITY
    {
      seenIds := seenIds + [id];
      if |seenIds| > SEEN_CAPACITY {
        seenIds := seenIds[1..];
      }
      if counter > maxCounter {
        maxCounter := counter;
      }
    }
  }

  // ---------------------------------------------------------------- whole runs

  datatype Delivery = Delivery(id: string, counter: int)

  /** The filter after the deliveries of h were committed in order. */
  function FilterAfter(h: seq<Delivery>): Filter
  {
    if h == [] then EMPTY_FILTER
    else
      var last := h[|h| - 1];
      Committed(FilterAfter(h[..|h| - 1]), last.id, last.counter)
  }

  /** Every delivery of h passed the check when its turn came. */
  predicate EachPassed(h: seq<Delivery>)
  {
    h == [] ||
    (var init, last := h[..|h| - 1], h[|h| - 1];
     EachPassed(init) && Checked(FilterAfter(init), last.id, last.counter).None?)
  }

  predicate DistinctCounters(h: seq<Delivery>)
  {
    forall m, n :: 0 <= m < n < |h| ==> h[m].counter != h[n].counter
  }

  function Ids(h: seq<Delivery>): (r: seq<string>)
    ensures |r| == |h| && forall n :: 0 <= n < |h| ==> r[n] == h[n].id
  {
    seq(|h|, n requires 0 <= n < |h| => h[n].id)
  }

  /** The queue holds the most recent identifiers, and the maximum bounds every counter. */
  lemma {:induction false} FilterRemembers(h: seq<Delivery>)
    ensures FilterAfter(h).seenIds == LastOf(Ids(h), SEEN_CAPACITY)
    ensures FilterAfter(h).maxCounter >= -1
    ensures forall n :: 0 <= n < |h| ==> h[n].counter <= FilterAfter(h).maxCounter
    ensures FilterAfter(h).maxCounter == -1 || exists n :: 0 <= n < |h| && h[n].counter == FilterAfter(h).maxCounter
  {
    if h != [] {
      var init := h[..|h| - 1];
      FilterRemembers(init);
      assert Ids(h) == Ids(init) + [h[|h| - 1].id];
      if FilterAfter(h).maxCounter != -1 && FilterAfter(h).maxCounter != h[|h| - 1].counter {
        var n :| 0 <= n < |init| && init[n].counter == FilterAfter(init).maxCounter;
        assert h[n].counter == FilterAfter(h).maxCounter;
      }
    }
  }

  function CountersFrom(h: seq<Delivery>, n: nat): (r: set<int>)
    requires n <= |h|
    ensures forall c :: c in r <==> exists m :: n <= m < |h| && h[m].counter == c
  {
    set m | n <= m < |h| :: h[m].counter
  }

  lemma {:induction false} CountersFromCount(h: seq<Delivery>, n: nat)
    requires n <= |h| && DistinctCounters(h)
    ensures |CountersFrom(h, n)| == |h| - n
    decreases |h| - n
  {
    if n < |h| {
      CountersFromCount(h, n + 1);
      assert CountersFrom(h, n) == CountersFrom(h, n + 1) + {h[n].counter};
    } else {
      assert CountersFrom(h, n) == {};
    }
  }

  lemma {:induction false} PassedAtItsTurn(h: seq<Delivery>, n: nat)
    requires EachPassed(h) && n < |h|
    ensures Checked(FilterAfter(h[..n]), h[n].id, h[n].counter).None?
  {
    if n < |h| - 1 {
      PassedAtItsTurn(h[..|h| - 1], n);
      assert h[..|h| - 1][..n] == h[..n];
    }
  }

  /** Whatever is committed after delivery n had to lie above its counter less the window. */
  lemma LaterCountersAreInWindow(h: seq<Delivery>, n: nat, m: nat)
    requires EachPassed(h) && n < m < |h|
    ensures h[m].counter > h[n].counter - REPLAY_WINDOW
  {
    PassedAtItsTurn(h, m);
    FilterRemembers(h[..m]);
    assert h[..m][n] == h[n];
  }

  /**
   The queue is long enough. One hundred later counters, distinct and above h[n].counter - 50, cannot
   all stay below h[n].counter + 50, so by the time an identifier is evicted its counter is stale.
   */
  lemma EvictedMeansStale(h: seq<Delivery>, n: nat)
    requires EachPassed(h) && DistinctCounters(h)
    requires n < |h| && |h| - n > SEEN_CAPACITY
    ensures h[n].counter <= FilterAfter(h).maxCounter - REPLAY_WINDOW
  {
    var c, max := h[n].counter, FilterAfter(h).maxCounter;
    FilterRemembers(h);
    CountersFromCount(h, n);
    forall x | x in CountersFrom(h, n)
      ensures c - REPLAY_WINDOW < x <= max
    {
      var m :| n <= m < |h| && h[m].counter == x;
      if n < m {
        LaterCountersAreInWindow(h, n, m);
      }
    }
    CountInRange(CountersFrom(h, n), c - REPLAY_WINDOW + 1, max + 1);
  }

  /**
   Over any run of check-then-commit with pairwise distinct counters, a committed delivery is rejected
   at every later point of the run, also once its identifier has left the queue.
   */
  lemma CommittedIsRejectedForever(h: seq<Delivery>, n: nat)
    requires EachPassed(h) && DistinctCounters(h) && n < |h|
    ensures Checked(FilterAfter(h), h[n].id, h[n].counter).Some?
  {
    if |h| - n > SEEN_CAPACITY {
      EvictedMeansStale(h, n);
    } else {
      FilterRemembers(h);
      RecentIsAmongTheLast(Ids(h), n, SEEN_CAPACITY);
    }
  }

  lemma RecentIsAmongTheLast(s: seq<string>, n: nat, k: nat)
    requires n < |s| && |s| - n <= k
    ensures s[n] in LastOf(s, k)
  {
    var last := LastOf(s, k);
    assert last[n - (|s| - |last|)] == s[n];
  }

  /**
   Exactly what the filter refuses, after any deliveries: an identifier among the last 100, and a counter
   that some delivery was 50 or more ahead of.
   */
  lemma FilterRefusesExactly(h: seq<Delivery>, id: string, counter: int)
    requires counter >= 0
    ensures Checked(FilterAfter(h), id, counter).Some?
        <==> id in LastOf(Ids(h), SEEN_CAPACITY)
             || exists m :: 0 <= m < |h| && h[m].counter >= counter + REPLAY_WINDOW
    ensures Checked(FilterAfter(h), id, counter) == Some(DuplicateId) <==> id in LastOf(Ids(h), SEEN_CAPACITY)
  {
    FilterRemembers(h);
  }

  /** So a counter it has seen is admitted again, under a new identifier, exactly while it is in the window. */
  lemma SeenCounterIsAdmittedExactlyInTheWindow(h: seq<Delivery>, n: nat, id: string)
    requires n < |h| && h[n].counter >= 0 && id !in Ids(h)
    ensures Checked(FilterAfter(h), id, h[n].counter).None?
        <==> forall m :: 0 <= m < |h| ==> h[m].counter < h[n].counter + REPLAY_WINDOW
  {
    FilterRefusesExactly(h, id, h[n].counter);
    LastAreAmongAll(Ids(h), SEEN_CAPACITY, id);
  }

  lemma LastAreAmongAll(s: seq<string>, n: nat, x: string)
    ensures x in LastOf(s, n) ==> x in s
  {
  }

  /** Distinctness is needed: under a new identifier the filter alone lets a seen counter through again. */
  lemma FilterAloneAdmitsASeenCounter()
    ensures
      var h := [Delivery("a", 0), Delivery("b", 0)];
      EachPassed(h) && !DistinctCounters(h)
  {
    var h := [Delivery("a", 0), Delivery("b", 0)];
    assert h[..1] == [h[0]] && h[..1][..0] == [];
    assert FilterAfter(h[..1]) == Filter(0, ["a"]);
    assert "b"[0] != "a"[0];
    assert EachPassed(h[..1]);
    assert h[0].counter == h[1].counter;
  }
}

/**
 The filter on log lines about invalid peer bundles (client/ui/app.py): a bounded cache of log keys, in
 order of use.
 */
module LogFilter {
  import opened Common

  const LIMIT := 256

  /** Everything but x. */
  function Without(keys: seq<string>, x: string): seq<string>
  {
    if keys == [] then []
    else if keys[0] == x then Without(keys[1..], x)
    else [keys[0]] + Without(keys[1..], x)
  }

  /** The keys after one of them, or a new one, is used. */
  function Used(keys: seq<string>, key: string): seq<string>
  {
    Without(keys, key) + [key]
  }

  lemma {:induction false} WithoutAbsent(keys: seq<string>, x: string)
    requires x !in keys
    ensures Without(keys, x) == keys
  {
    if keys != [] {
      WithoutAbsent(keys[1..], x);
    }
  }

  lemma {:induction false} WithoutOne(keys: seq<string>, i: nat)
    requires Distinct(keys) && i < |keys|
    ensures Without(keys, keys[i]) == keys[..i] + keys[i + 1..]
  {
    if i == 0 {
      WithoutAbsent(keys[1..], keys[0]);
    } else {
      WithoutOne(keys[1..], i - 1);
      assert keys[..i] == [keys[0]] + keys[1..][..i - 1];
    }
  }

  lemma UsingOneOfThem(keys: seq<string>, i: nat)
    requires Distinct(keys) && i < |keys|
    ensures Used(keys, keys[i]) == keys[..i] + keys[i + 1..] + [keys[i]]
    ensures Distinct(Used(keys, keys[i])) && |Used(keys, keys[i])| == |keys|
  {
    WithoutOne(keys, i);
  }

  lemma UsingANewOne(keys: seq<string>, key: string)
    requires Distinct(keys) && key !in keys
    ensures Used(keys, key) == keys + [key] && Distinct(Used(keys, key))
  {
    WithoutAbsent(keys, key);
  }

  class LogKeys {
    var keys: seq<string>  // least recently used first

    predicate Valid()
      reads this
    {
      Distinct(keys) && |keys| <= LIMIT
    }

    constructor ()
      ensures Valid() && keys == []
    {
      keys := [];
    }

    method ShouldLog(key: string) returns (r: bool)
      requires Valid()
      modifies this
      ensures Valid()
      ensures r <==> key !in old(keys)
      ensures keys == LastOf(Used(old(keys), key), LIMIT)
    {
      if key in keys {
        var i :| 0 <= i < |keys| && keys[i] == key;
        UsingOneOfThem(keys, i);
        keys := keys[..i] + keys[i + 1..] + [key];
        return false;
      }
      UsingANewOne(keys, key);
      keys := keys + [key];
      if |keys| > LIMIT {
        keys := keys[1..];
      }
      r := true;
    }
  }

  // ---------------------------------------------------------------- the unbounded ideal

  /** Every key ever passed in, each once, the latest use last. */
  function ByLastUse(calls: seq<string>): seq<string>
  {
    if calls == [] then []
    else
      Used(ByLastUse(calls[..|calls| - 1]), calls[|calls| - 1])
  }

  /** The number of the last call with this key, or -1. */
  function LastUse(calls: seq<string>, key: string): int
  {
    if calls == [] then -1
    else if calls[|calls| - 1] == key then |calls| - 1
    else LastUse(calls[..|calls| - 1], key)
  }

  lemma {:induction false} LastUseIsLast(calls: seq<string>, key: string)
    ensures -1 <= LastUse(calls, key) < |calls|
    ensures LastUse(calls, key) >= 0 ==> calls[LastUse(calls, key)] == key
    ensures forall m :: LastUse(calls, key) < m < |calls| ==> calls[m] != key
  {
    if calls != [] && calls[|calls| - 1] != key {
      LastUseIsLast(calls[..|calls| - 1], key);
    }
  }

  predicate Increasing(calls: seq<string>, keys: seq<string>)
  {
    forall i, j :: 0 <= i < j < |keys| ==> LastUse(calls, keys[i]) < LastUse(calls, keys[j])
  }

  lemma MovingToTheEnd(calls: seq<string>, keys: seq<string>, key: string)
    requires Increasing(calls, keys) && key !in keys
    ensures Increasing(calls + [key], keys + [key])
  {
    assert (calls + [key])[..|calls|] == calls;
    forall i | 0 <= i < |keys|
      ensures LastUse(calls + [key], keys[i]) == LastUse(calls, keys[i]) < |calls|
    {
      LastUseIsLast(calls, keys[i]);
    }
  }

  lemma LeavingOneOut(calls: seq<string>, keys: seq<string>, i: nat)
    requires Increasing(calls, keys) && Distinct(keys) && i < |keys|
    ensures
      var rest := keys[..i] + keys[i + 1..];
      && Increasing(calls, rest) && Distinct(rest) && keys[i] !in rest
      && Elements(keys) == Elements(rest) + {keys[i]}
  {
    assert keys == keys[..i] + [keys[i]] + keys[i + 1..];
  }

  lemma UsingOneMore(calls: seq<string>, keys: seq<string>, key: string)
    requires Increasing(calls, keys) && Distinct(keys)
    ensures Increasing(calls + [key], Used(keys, key)) && Distinct(Used(keys, key))
    ensures Elements(Used(keys, key)) == Elements(keys) + {key}
  {
    var rest := Without(keys, key);
    if key in keys {
      var i :| 0 <= i < |keys| && keys[i] == key;
      WithoutOne(keys, i);
      LeavingOneOut(calls, keys, i);
    } else {
      WithoutAbsent(keys, key);
    }
    assert key !in rest;
    MovingToTheEnd(calls, rest, key);
    assert Elements(rest + [key]) == Elements(rest) + {key};
  }

  /** ByLastUse holds exactly the keys of the calls, each once, in the order of their last uses. */
  lemma {:induction false} ByLastUseIsInOrder(calls: seq<string>)
    ensures Increasing(calls, ByLastUse(calls)) && Distinct(ByLastUse(calls))
    ensures Elements(ByLastUse(calls)) == Elements(calls)
  {
    if calls != [] {
      var init, key := calls[..|calls| - 1], calls[|calls| - 1];
      ByLastUseIsInOrder(init);
      UsingOneMore(init, ByLastUse(init), key);
      assert calls == init + [key];
      assert Elements(calls) == Elements(init) + {key};
    }
  }

  // ---------------------------------------------------------------- the cache refines it

  /** The cache after these calls, step by step as ShouldLog changes it. */
  function KeysAfter(calls: seq<string>): seq<string>
  {
    if calls == [] then []
    else
      LastOf(Used(KeysAfter(calls[..|calls| - 1]), calls[|calls| - 1]), LIMIT)
  }

  lemma ForgettingAbsent(keys: seq<string>, key: string, n: nat)
    requires key !in keys && n > 0
    ensures LastOf(Used(LastOf(keys, n), key), n) == LastOf(Used(keys, key), n)
  {
    WithoutAbsent(keys, key);
    WithoutAbsent(LastOf(keys, n), key);
    LastOfAppend(keys, key, n);
  }

  lemma LastOfAppend(keys: seq<string>, key: string, n: nat)
    requires n > 0
    ensures LastOf(LastOf(keys, n) + [key], n) == LastOf(keys + [key], n)
  {
    if |keys| >= n {
      var k := |keys| - n;
      assert (keys[k..] + [key])[1..] == keys[k + 1..] + [key];
      assert (keys + [key])[k + 1..] == keys[k + 1..] + [key];
    }
  }

  lemma NotAmongTheLast(keys: seq<string>, i: nat, k: nat)
    requires Distinct(keys) && i < k <= |keys|
    ensures keys[i] !in keys[k..]
  {
  }

  /** The key is among those forgotten. */
  lemma ForgettingBefore(keys: seq<string>, i: nat, n: nat)
    requires Distinct(keys) && i < |keys| - n && n > 0
    ensures LastOf(Used(LastOf(keys, n), keys[i]), n) == LastOf(Used(keys, keys[i]), n)
  {
    UsingOneOfThem(keys, i);
    NotAmongTheLast(keys, i, |keys| - n);
    WithoutAbsent(LastOf(keys, n), keys[i]);
    LeavingOutBefore(keys, i, n);
    LastOfAppend(keys[..i] + keys[i + 1..], keys[i], n);
  }

  lemma LeavingOutBefore(keys: seq<string>, i: nat, n: nat)
    requires i < |keys| - n
    ensures LastOf(keys[..i] + keys[i + 1..], n) == LastOf(keys, n)
  {
  }

  /** The key is among those kept, which are those from k on. */
  lemma ForgettingAround(keys: seq<string>, i: nat, k: nat)
    requires Distinct(keys) && k <= i < |keys|
    ensures |Used(keys, keys[i])| == |keys| && Used(keys[k..], keys[i]) == Used(keys, keys[i])[k..]
  {
    WithoutOne(keys, i);
    WithoutOne(keys[k..], i - k);
    assert keys[k..][..i - k] == keys[k..i] && keys[k..][i - k + 1..] == keys[i + 1..];
  }

  lemma LastOfMany(keys: seq<string>, n: nat)
    requires |keys| >= n
    ensures LastOf(keys, n) == keys[|keys| - n..] && |LastOf(keys, n)| == n
  {
  }

  lemma LastOfAll(keys: seq<string>, n: nat)
    requires |keys| <= n
    ensures LastOf(keys, n) == keys
  {
  }

  lemma ForgettingAfter(keys: seq<string>, i: nat, n: nat)
    requires Distinct(keys) && |keys| - n <= i < |keys|
    ensures LastOf(Used(LastOf(keys, n), keys[i]), n) == LastOf(Used(keys, keys[i]), n)
  {
    if |keys| > n {
      var k, used := |keys| - n, Used(keys, keys[i]);
      ForgettingAround(keys, i, k);
      LastOfMany(keys, n);
      LastOfMany(used, n);
      LastOfAll(used[k..], n);
    }
  }

  /** Forgetting all but the last n keys before or after a use comes to the same. */
  lemma ForgettingFirst(keys: seq<string>, key: string, n: nat)
    requires Distinct(keys) && n > 0
    ensures LastOf(Used(LastOf(keys, n), key), n) == LastOf(Used(keys, key), n)
  {
    if key !in keys {
      ForgettingAbsent(keys, key, n);
    } else {
      var i :| 0 <= i < |keys| && keys[i] == key;
      if i < |keys| - n {
        ForgettingBefore(keys, i, n);
      } else {
        ForgettingAfter(keys, i, n);
      }
    }
  }

  /**
   After any calls the cache holds the 256 most recently used keys, or all of them when there are
   fewer, in order of last use; so the next call asks for a log line exactly if its key is not there.
   */
  lemma {:induction false} CacheIsTheMostRecent(calls: seq<string>)
    ensures KeysAfter(calls) == LastOf(ByLastUse(calls), LIMIT)
  {
    if calls != [] {
      var init := calls[..|calls| - 1];
      CacheIsTheMostRecent(init);
      ByLastUseIsInOrder(init);
      ForgettingFirst(ByLastUse(init), calls[|calls| - 1], LIMIT);
    }
  }

  /** The different keys used from call n on. */
  function UsedFrom(calls: seq<string>, n: int): set<string>
  {
    set m | 0 <= m < |calls| && n <= m :: calls[m]
  }

  lemma LaterKeyWasUsedLater(calls: seq<string>, keys: seq<string>, i: nat, j: nat)
    requires Increasing(calls, keys) && i < j < |keys| && keys[j] in calls
    ensures keys[j] in UsedFrom(calls, LastUse(calls, keys[i]) + 1)
  {
    LastUseIsLast(calls, keys[j]);
    LastUseIsLast(calls, keys[i]);
  }

  lemma LaterUseIsOfALaterKey(calls: seq<string>, keys: seq<string>, i: nat, m: nat) returns (j: nat)
    requires Increasing(calls, keys) && i < |keys| && LastUse(calls, keys[i]) < m < |calls| && calls[m] in keys
    ensures i < j < |keys| && keys[j] == calls[m]
  {
    j :| 0 <= j < |keys| && keys[j] == calls[m];
    LastUseIsLast(calls, calls[m]);
  }

  lemma LaterKeysWereUsedLater(calls: seq<string>, keys: seq<string>, i: nat)
    requires Increasing(calls, keys) && Elements(keys) == Elements(calls) && i < |keys|
    ensures Elements(keys[i + 1..]) == UsedFrom(calls, LastUse(calls, keys[i]) + 1)
  {
    forall j | i < j < |keys|
      ensures keys[j] in UsedFrom(calls, LastUse(calls, keys[i]) + 1)
    {
      assert keys[j] in Elements(calls);
      LaterKeyWasUsedLater(calls, keys, i, j);
    }
    forall m | 0 <= m < |calls| && LastUse(calls, keys[i]) < m
      ensures calls[m] in keys[i + 1..]
    {
      assert calls[m] in Elements(keys);
      var j := LaterUseIsOfALaterKey(calls, keys, i, m);
      assert keys[i + 1..][j - i - 1] == calls[m];
    }
  }

  lemma KeptFromTheEnd(keys: seq<string>, i: nat)
    requires Distinct(keys) && i < |keys|
    ensures keys[i] in LastOf(keys, LIMIT) <==> |keys| - i - 1 < LIMIT
  {
    if |keys| > LIMIT {
      var k := |keys| - LIMIT;
      if i >= k {
        assert keys[k..][i - k] == keys[i];
      } else {
        NotAmongTheLast(keys, i, k);
      }
    }
  }

  lemma LaterKeysCount(calls: seq<string>, i: nat)
    requires i < |ByLastUse(calls)|
    ensures |UsedFrom(calls, LastUse(calls, ByLastUse(calls)[i]) + 1)| == |ByLastUse(calls)| - i - 1
  {
    var keys := ByLastUse(calls);
    ByLastUseIsInOrder(calls);
    LaterKeysWereUsedLater(calls, keys, i);
    DistinctCount(keys[i + 1..]);
  }

  /** A key is remembered exactly if fewer than 256 other keys were used since its last use. */
  lemma RememberedMeansRecent(calls: seq<string>, key: string)
    requires key in calls
    ensures key in KeysAfter(calls) <==> |UsedFrom(calls, LastUse(calls, key) + 1)| < LIMIT
  {
    CacheIsTheMostRecent(calls);
    ByLastUseIsInOrder(calls);
    assert key in Elements(calls);
    assert key in ByLastUse(calls);
    var i :| 0 <= i < |ByLastUse(calls)| && ByLastUse(calls)[i] == key;
    LaterKeysCount(calls, i);
    KeptFromTheEnd(ByLastUse(calls), i);
  }
}

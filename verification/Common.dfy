/**
 Vocabulary shared by every other module: optional values, results, the code-point order on
 identifiers, and counting facts about finite sets of integers.
 */
module Common {

  datatype Option<+T> = None | Some(value: T)

  datatype Result<+T, +E> = Ok(value: T) | Err(error: E)

  type Byte = b: nat | b < 256

  type Bytes = seq<Byte>

  /** The code-point order by which the server sorts the two identifiers of a pair. */
  predicate Below(a: string, b: string)
  {
    |b| > 0 && (|a| == 0 || a[0] < b[0] || (a[0] == b[0] && Below(a[1..], b[1..])))
  }

  lemma {:induction false} BelowIsTotal(a: string, b: string)
    ensures a == b ==> !Below(a, b)
    ensures a != b ==> (Below(a, b) <==> !Below(b, a))
  {
    if |a| > 0 && |b| > 0 {
      BelowIsTotal(a[1..], b[1..]);
      assert a == [a[0]] + a[1..] && b == [b[0]] + b[1..];
    }
  }

  /** The pair as the server stores it: smaller identifier first. */
  function Ordered(a: string, b: string): (string, string)
  {
    if Below(b, a) then (b, a) else (a, b)
  }

  /** A stored pair stands for an unordered pair, and for nothing else. */
  lemma OrderedIdentifiesThePair(a: string, b: string, c: string, d: string)
    ensures Ordered(a, b) == Ordered(c, d) <==> ((a == c && b == d) || (a == d && b == c))
  {
    BelowIsTotal(a, b);
    BelowIsTotal(c, d);
  }

  predicate Distinct<T(==)>(s: seq<T>)
  {
    forall i, j :: 0 <= i < j < |s| ==> s[i] != s[j]
  }

  function Elements<T>(s: seq<T>): set<T>
  {
    set x | x in s
  }

  lemma {:induction false} DistinctCount<T>(s: seq<T>)
    requires Distinct(s)
    ensures |Elements(s)| == |s|
  {
    if |s| > 0 {
      var init := s[..|s| - 1];
      DistinctCount(init);
      assert s == init + [s[|s| - 1]];
      assert Elements(s) == Elements(init) + {s[|s| - 1]};
    }
  }

  /** The last n elements, or all of them when there are fewer. */
  function LastOf<T>(s: seq<T>, n: nat): seq<T>
  {
    if |s| <= n then s else s[|s| - n..]
  }

  /** The integers from lo up to but not including hi. */
  function RangeOf(lo: int, hi: int): (r: set<int>)
    ensures forall x :: x in r <==> lo <= x < hi
    ensures |r| == if lo <= hi then hi - lo else 0
    decreases hi - lo
  {
    if hi <= lo then {} else RangeOf(lo, hi - 1) + {hi - 1}
  }

  lemma SubsetIsSmaller<T>(a: set<T>, b: set<T>)
    requires a <= b
    ensures |a| <= |b|
  {
    assert b == a + (b - a);
  }

  lemma SameSizeSubset<T>(a: set<T>, b: set<T>)
    requires a <= b && |a| >= |b|
    ensures a == b
  {
    assert |b - a| == |b| - |a|;
  }

  /** Integers squeezed into a half-open range are no more numerous than the range is long. */
  lemma CountInRange(s: set<int>, lo: int, hi: int)
    requires forall x :: x in s ==> lo <= x < hi
    ensures |s| <= if lo <= hi then hi - lo else 0
  {
    SubsetIsSmaller(s, RangeOf(lo, hi));
  }

  /** There is always another string. */
  lemma FreshString(taken: set<string>) returns (other: string)
    ensures other !in taken
  {
    var n := LongerThanAll(taken);
    other := seq(n, i => 'x');
  }

  lemma LongerThanAll(taken: set<string>) returns (n: nat)
    ensures forall s :: s in taken ==> |s| < n
  {
    if taken == {} {
      n := 0;
    } else {
      var s :| s in taken;
      n := LongerThanAll(taken - {s});
      n := if n <= |s| then |s| + 1 else n;
    }
  }

  lemma Member<T>(s: set<T>) returns (x: T)
    requires s != {}
    ensures x in s
  {
    x :| x in s;
  }

  lemma Least(s: set<int>) returns (lo: int)
    requires s != {}
    ensures lo in s && forall x :: x in s ==> lo <= x
  {
    lo := Member(s);
    var others := s - {lo};
    assert s == others + {lo};
    if others != {} {
      var least := Least(others);
      lo := if lo < least then lo else least;
    }
  }

  /** Integers that lie less than n apart are at most n in number. */
  lemma CountOfSpread(s: set<int>, n: nat)
    requires forall x, y :: x in s && y in s ==> y < x + n
    ensures |s| <= n
  {
    if s != {} {
      var lo := Least(s);
      CountInRange(s, lo, lo + n);
    }
  }
}

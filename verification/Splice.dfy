/**
 Splicing replacements into a source text (scripts/lint_codemod.py): sorted by where they start, they
 are applied one after the other from right to left.
 */
module Splice {
  import opened Common

  datatype Replacement = Replacement(start: int, end: int, text: string)

  // ---------------------------------------------------------------- slices and sorting

  /** A slice bound: negative ones count from the end, and none leaves the text. */
  function Bound(i: int, n: nat): (b: nat)
    ensures b <= n
    ensures 0 <= i <= n ==> b == i
  {
    if i < 0 then (if n + i < 0 then 0 else n + i) else if i > n then n else i
  }

  function Applied(source: string, r: Replacement): string
  {
    source[..Bound(r.start, |source|)] + r.text + source[Bound(r.end, |source|)..]
  }

  predicate Descending(s: seq<Replacement>)
  {
    forall i, j :: 0 <= i < j < |s| ==> s[i].start >= s[j].start
  }

  /** Insertion after all those that start no earlier, which keeps the order among equals. */
  function Inserted(s: seq<Replacement>, r: Replacement): (t: seq<Replacement>)
    ensures multiset(t) == multiset(s) + multiset{r}
  {
    if s == [] then [r]
    else if s[0].start < r.start then [r] + s
    else
      assert s == [s[0]] + s[1..];
      [s[0]] + Inserted(s[1..], r)
  }

  lemma {:induction false} InsertedIsDescending(s: seq<Replacement>, r: Replacement)
    requires Descending(s)
    ensures Descending(Inserted(s, r))
  {
    if s != [] && s[0].start >= r.start {
      InsertedIsDescending(s[1..], r);
      var rest := Inserted(s[1..], r);
      forall i | 0 <= i < |rest|
        ensures rest[i].start <= s[0].start
      {
        assert rest[i] in multiset(rest);
        assert rest[i] == r || rest[i] in s[1..];
      }
    }
  }

  /** A stable sort by start, the greatest first. */
  function Sorted(s: seq<Replacement>): (t: seq<Replacement>)
    ensures multiset(t) == multiset(s)
  {
    if s == [] then []
    else
      assert s == s[..|s| - 1] + [s[|s| - 1]];
      Inserted(Sorted(s[..|s| - 1]), s[|s| - 1])
  }

  lemma {:induction false} SortedIsDescending(s: seq<Replacement>)
    ensures Descending(Sorted(s))
  {
    if s != [] {
      SortedIsDescending(s[..|s| - 1]);
      InsertedIsDescending(Sorted(s[..|s| - 1]), s[|s| - 1]);
    }
  }

  function AppliedInOrder(source: string, rs: seq<Replacement>): string
  {
    if rs == [] then source else Applied(AppliedInOrder(source, rs[..|rs| - 1]), rs[|rs| - 1])
  }

  method ApplyReplacements(source: string, replacements: seq<Replacement>) returns (updated: string)
    ensures updated == AppliedInOrder(source, Sorted(replacements))
  {
    updated := source;
    var order := Sorted(replacements);
    for i := 0 to |order|
      invariant updated == AppliedInOrder(source, order[..i])
    {
      assert order[..i + 1][..i] == order[..i];
      var r := order[i];
      updated := updated[..Bound(r.start, |updated|)] + r.text + updated[Bound(r.end, |updated|)..];
    }
    assert order[..|order|] == order;
  }

  // ---------------------------------------------------------------- simultaneous substitution

  /** In increasing order, from `at` on, without overlap, and within a text of n characters. */
  predicate InLine(rs: seq<Replacement>, at: int, n: int)
    decreases |rs|
  {
    if rs == [] then at <= n
    else at <= rs[0].start <= rs[0].end <= n && InLine(rs[1..], rs[0].end, n)
  }

  /** The source from `at` on, copied from left to right with every span replaced. */
  function Substituted(source: string, at: nat, rs: seq<Replacement>): string
    requires InLine(rs, at, |source|)
    decreases |rs|
  {
    if rs == [] then source[at..]
    else source[at..rs[0].start] + rs[0].text + Substituted(source, rs[0].end, rs[1..])
  }

  function Backwards(rs: seq<Replacement>): (t: seq<Replacement>)
    ensures |t| == |rs| && forall i :: 0 <= i < |rs| ==> t[i] == rs[|rs| - 1 - i]
  {
    if rs == [] then [] else Backwards(rs[1..]) + [rs[0]]
  }

  lemma {:induction false} BackwardsIsAPermutation(rs: seq<Replacement>)
    ensures multiset(Backwards(rs)) == multiset(rs)
  {
    if rs != [] {
      BackwardsIsAPermutation(rs[1..]);
      assert rs == [rs[0]] + rs[1..];
    }
  }

  lemma ApplyingOne(source: string, at: nat, r: Replacement, tail: string)
    requires at <= r.start <= r.end <= |source|
    ensures Applied(source[..r.end] + tail, r) == source[..at] + (source[at..r.start] + r.text + tail)
  {
    var spliced := source[..r.end] + tail;
    assert spliced[r.end..] == tail;
    assert spliced[..r.start] == source[..r.start] == source[..at] + source[at..r.start];
  }

  lemma BackwardsTwice(rs: seq<Replacement>)
    ensures Backwards(Backwards(rs)) == rs
  {
  }

  /** From right to left, one by one, or from left to right, all at once: the same text. */
  lemma {:induction false} RightToLeftIsLeftToRight(source: string, at: nat, rs: seq<Replacement>)
    requires InLine(rs, at, |source|) && at <= |source|
    decreases |rs|
    ensures AppliedInOrder(source, Backwards(rs)) == source[..at] + Substituted(source, at, rs)
  {
    if rs != [] {
      var r, rest := rs[0], rs[1..];
      RightToLeftIsLeftToRight(source, r.end, rest);
      assert Backwards(rs)[..|rs| - 1] == Backwards(rest);
      ApplyingOne(source, at, r, Substituted(source, r.end, rest));
    }
  }

  // ---------------------------------------------------------------- lists in any order

  /** Neither overlaps the other, and they do not start at the same place. */
  predicate Apart(q: Replacement, r: Replacement)
  {
    q.start != r.start && (q.end <= r.start || r.end <= q.start)
  }

  /** In bounds and pairwise apart: what the callers of the splicer see to. */
  predicate Fits(rs: seq<Replacement>, n: nat)
  {
    && (forall i :: 0 <= i < |rs| ==> 0 <= rs[i].start <= rs[i].end <= n)
    && (forall i, j :: 0 <= i < j < |rs| ==> Apart(rs[i], rs[j]))
  }

  lemma FittingIsDistinct(rs: seq<Replacement>, n: nat)
    requires Fits(rs, n)
    ensures Distinct(rs)
  {
  }

  lemma {:induction false} DistinctCountsOnce(s: seq<Replacement>, r: Replacement)
    requires Distinct(s)
    ensures multiset(s)[r] <= 1
  {
    if s != [] {
      var init, last := s[..|s| - 1], s[|s| - 1];
      assert s == init + [last];
      DistinctCountsOnce(init, r);
      assert last !in init;
      assert last !in multiset(init);
    }
  }

  lemma RepeatedCountsTwice(s: seq<Replacement>, i: nat, j: nat)
    requires i < j < |s| && s[i] == s[j]
    ensures multiset(s)[s[i]] >= 2
  {
    assert s == s[..j] + s[j..];
    assert s[..j][i] == s[i] && s[j..][0] == s[i];
    assert multiset(s) == multiset(s[..j]) + multiset(s[j..]);
    assert s[i] in multiset(s[..j]) && s[i] in multiset(s[j..]);
  }

  lemma DistinctInAnyOrder(rs: seq<Replacement>, qs: seq<Replacement>)
    requires Distinct(rs) && multiset(qs) == multiset(rs)
    ensures Distinct(qs)
  {
    forall i, j | 0 <= i < j < |qs|
      ensures qs[i] != qs[j]
    {
      DistinctCountsOnce(rs, qs[i]);
      if qs[i] == qs[j] {
        RepeatedCountsTwice(qs, i, j);
      }
    }
  }

  /** Another order of replacements that fit fits as well. */
  lemma FittingInAnyOrder(rs: seq<Replacement>, qs: seq<Replacement>, n: nat)
    requires Fits(rs, n) && multiset(qs) == multiset(rs)
    ensures Fits(qs, n)
  {
    FittingIsDistinct(rs, n);
    DistinctInAnyOrder(rs, qs);
    forall i | 0 <= i < |qs|
      ensures 0 <= qs[i].start <= qs[i].end <= n
    {
      var k := IndexIn(rs, qs, i);
    }
    forall i, j | 0 <= i < j < |qs|
      ensures Apart(qs[i], qs[j])
    {
      var k := IndexIn(rs, qs, i);
      var l := IndexIn(rs, qs, j);
      assert k != l;
    }
  }

  lemma IndexIn(rs: seq<Replacement>, qs: seq<Replacement>, i: nat) returns (k: nat)
    requires multiset(qs) == multiset(rs) && i < |qs|
    ensures k < |rs| && rs[k] == qs[i]
  {
    assert qs[i] in multiset(qs);
    assert qs[i] in rs;
    k :| 0 <= k < |rs| && rs[k] == qs[i];
  }

  lemma SameHead(rs: seq<Replacement>, qs: seq<Replacement>, n: nat)
    requires Descending(rs) && Descending(qs) && multiset(rs) == multiset(qs) && Fits(rs, n) && rs != []
    ensures qs != [] && rs[0] == qs[0] && multiset(rs[1..]) == multiset(qs[1..])
  {
    assert |multiset(rs)| == |rs| && |multiset(qs)| == |qs|;
    var j := IndexIn(rs, qs, 0);
    var k := IndexIn(qs, rs, 0);
    assert rs[j].start <= rs[0].start && qs[k].start <= qs[0].start;
    assert forall i :: 0 < i < |rs| ==> Apart(rs[0], rs[i]);
    TailMultiset(rs);
    TailMultiset(qs);
  }

  lemma TailMultiset(rs: seq<Replacement>)
    requires rs != []
    ensures multiset(rs[1..]) == multiset(rs) - multiset{rs[0]}
  {
    assert rs == [rs[0]] + rs[1..];
  }

  /** Only one descending order of replacements that start at different places. */
  lemma {:induction false} OneDescendingOrder(rs: seq<Replacement>, qs: seq<Replacement>, n: nat)
    requires Descending(rs) && Descending(qs) && multiset(rs) == multiset(qs) && Fits(rs, n)
    ensures rs == qs
  {
    if rs != [] {
      SameHead(rs, qs, n);
      OneDescendingOrder(rs[1..], qs[1..], n);
      assert rs == [rs[0]] + rs[1..] && qs == [qs[0]] + qs[1..];
    } else {
      assert |multiset(qs)| == |qs|;
    }
  }

  /** Sorted the other way round, replacements that fit are in line. */
  lemma {:induction false} FittingGoesInLine(rs: seq<Replacement>, at: nat, n: nat)
    requires Fits(rs, n) && at <= n && forall i :: 0 <= i < |rs| ==> at <= rs[i].start
    requires forall i, j :: 0 <= i < j < |rs| ==> rs[i].start <= rs[j].start
    ensures InLine(rs, at, n)
    decreases |rs|
  {
    if rs != [] {
      forall i | 1 <= i < |rs|
        ensures rs[0].end <= rs[i].start
      {
        assert Apart(rs[0], rs[i]);
      }
      FittingGoesInLine(rs[1..], rs[0].end, n);
    }
  }

  /** The replacements from left to right. */
  function InOrder(rs: seq<Replacement>): (t: seq<Replacement>)
    ensures multiset(t) == multiset(rs)
  {
    BackwardsIsAPermutation(Sorted(rs));
    Backwards(Sorted(rs))
  }

  lemma InOrderIsInLine(rs: seq<Replacement>, n: nat)
    requires Fits(rs, n)
    ensures InLine(InOrder(rs), 0, n) && Fits(InOrder(rs), n)
  {
    SortedIsDescending(rs);
    FittingInAnyOrder(rs, InOrder(rs), n);
    FittingGoesInLine(InOrder(rs), 0, n);
  }

  /**
   What splicing does. Replacements that fit come out as if all were substituted at once, reading from
   left to right.
   */
  lemma SplicingIsSubstitution(source: string, rs: seq<Replacement>)
    requires Fits(rs, |source|)
    ensures InLine(InOrder(rs), 0, |source|)
    ensures AppliedInOrder(source, Sorted(rs)) == Substituted(source, 0, InOrder(rs))
  {
    InOrderIsInLine(rs, |source|);
    RightToLeftIsLeftToRight(source, 0, InOrder(rs));
    BackwardsTwice(Sorted(rs));
  }

  /** The order of the list does not matter. */
  lemma AnyOrderWillDo(source: string, rs: seq<Replacement>, qs: seq<Replacement>)
    requires Fits(rs, |source|) && multiset(qs) == multiset(rs)
    ensures Sorted(qs) == Sorted(rs)
  {
    SortedIsDescending(qs);
    SortedIsDescending(rs);
    FittingInAnyOrder(rs, Sorted(rs), |source|);
    OneDescendingOrder(Sorted(rs), Sorted(qs), |source|);
  }

  /** The replacements of one start, in the order of the list. */
  function Starting(rs: seq<Replacement>, at: int): seq<Replacement>
  {
    if rs == [] then []
    else if rs[0].start == at then [rs[0]] + Starting(rs[1..], at)
    else Starting(rs[1..], at)
  }

  function OneStarting(r: Replacement, at: int): seq<Replacement>
  {
    if r.start == at then [r] else []
  }

  lemma StartingHead(r: Replacement, rs: seq<Replacement>, at: int)
    ensures Starting([r] + rs, at) == OneStarting(r, at) + Starting(rs, at)
  {
    assert ([r] + rs)[1..] == rs;
  }

  lemma {:induction false} StartingLast(rs: seq<Replacement>, r: Replacement, at: int)
    ensures Starting(rs + [r], at) == Starting(rs, at) + OneStarting(r, at)
  {
    if rs == [] {
      assert rs + [r] == [r] + rs;
      StartingHead(r, rs, at);
    } else {
      var tail := rs[1..];
      assert rs == [rs[0]] + tail;
      assert rs + [r] == [rs[0]] + (tail + [r]);
      StartingLast(tail, r, at);
      StartingHead(rs[0], tail + [r], at);
      StartingHead(rs[0], tail, at);
    }
  }

  lemma {:induction false} StartingBelow(rs: seq<Replacement>, at: int)
    requires forall i :: 0 <= i < |rs| ==> rs[i].start < at
    ensures Starting(rs, at) == []
  {
    if rs != [] {
      StartingBelow(rs[1..], at);
    }
  }

  lemma StableBehindTheFirst(
    q: Replacement, s: seq<Replacement>, t: seq<Replacement>, more: seq<Replacement>, at: int)
    requires Starting(t, at) == Starting(s, at) + more
    ensures Starting([q] + t, at) == Starting([q] + s, at) + more
  {
    StartingHead(q, s, at);
    StartingHead(q, t, at);
  }

  /** Insertion puts a replacement behind those of its own start. */
  lemma {:induction false} InsertingIsStable(s: seq<Replacement>, r: Replacement, at: int)
    requires Descending(s)
    ensures Starting(Inserted(s, r), at) == Starting(s, at) + OneStarting(r, at)
  {
    if s == [] {
      StartingHead(r, [], at);
      assert [r] + [] == [r];
    } else if s[0].start < r.start {
      StartingHead(r, s, at);
      if r.start == at {
        StartingBelow(s, at);
      } else {
        assert OneStarting(r, at) == [];
      }
    } else {
      InsertingIsStable(s[1..], r, at);
      StableBehindTheFirst(s[0], s[1..], Inserted(s[1..], r), OneStarting(r, at), at);
      assert s == [s[0]] + s[1..];
    }
  }

  /** Two lists agree on the replacements of each start, and on their order. */
  ghost predicate SameByStart(rs: seq<Replacement>, qs: seq<Replacement>)
  {
    forall at :: Starting(rs, at) == Starting(qs, at)
  }

  /** The sort keeps the order of replacements of one start. */
  lemma {:induction false} SortingIsStable(rs: seq<Replacement>, at: int)
    ensures Starting(Sorted(rs), at) == Starting(rs, at)
  {
    if rs != [] {
      var init, last := rs[..|rs| - 1], rs[|rs| - 1];
      assert init + [last] == rs;
      SortingIsStable(init, at);
      SortedIsDescending(init);
      InsertingIsStable(Sorted(init), last, at);
      StartingLast(init, last, at);
    }
  }

  lemma SortingAgrees(rs: seq<Replacement>)
    ensures SameByStart(Sorted(rs), rs)
  {
    forall at
      ensures Starting(Sorted(rs), at) == Starting(rs, at)
    {
      SortingIsStable(rs, at);
    }
  }

  lemma {:induction false} StartingHolds(rs: seq<Replacement>, at: int)
    ensures forall r :: r in Starting(rs, at) <==> r in rs && r.start == at
  {
    if rs != [] {
      StartingHolds(rs[1..], at);
      assert rs == [rs[0]] + rs[1..];
    }
  }

  lemma FirstIsFirst(rs: seq<Replacement>)
    requires rs != []
    ensures Starting(rs, rs[0].start) != [] && Starting(rs, rs[0].start)[0] == rs[0]
  {
  }

  /** The first start of a descending list that agrees with another is no smaller than that one's. */
  lemma FirstStartIsNoSmaller(rs: seq<Replacement>, qs: seq<Replacement>)
    requires Descending(rs) && qs != [] && SameByStart(rs, qs)
    ensures rs != [] && rs[0].start >= qs[0].start
  {
    FirstIsFirst(qs);
    assert Starting(rs, qs[0].start) == Starting(qs, qs[0].start);
    StartingHolds(rs, qs[0].start);
    assert qs[0] in Starting(rs, qs[0].start);
    assert qs[0] in rs;
  }

  lemma TailsAgree(rs: seq<Replacement>, qs: seq<Replacement>)
    requires rs != [] && qs != [] && rs[0] == qs[0] && SameByStart(rs, qs)
    ensures SameByStart(rs[1..], qs[1..])
  {
    forall at
      ensures Starting(rs[1..], at) == Starting(qs[1..], at)
    {
      var one := OneStarting(rs[0], at);
      assert rs == [rs[0]] + rs[1..] && qs == [qs[0]] + qs[1..];
      StartingHead(rs[0], rs[1..], at);
      StartingHead(qs[0], qs[1..], at);
      assert one + Starting(rs[1..], at) == one + Starting(qs[1..], at);
      assert (one + Starting(rs[1..], at))[|one|..] == Starting(rs[1..], at);
      assert (one + Starting(qs[1..], at))[|one|..] == Starting(qs[1..], at);
    }
  }

  lemma {:induction false} DescendingIsDetermined(rs: seq<Replacement>, qs: seq<Replacement>)
    requires Descending(rs) && Descending(qs) && SameByStart(rs, qs)
    ensures rs == qs
  {
    if qs != [] {
      FirstStartIsNoSmaller(rs, qs);
      FirstStartIsNoSmaller(qs, rs);
      FirstIsFirst(rs);
      FirstIsFirst(qs);
      TailsAgree(rs, qs);
      DescendingIsDetermined(rs[1..], qs[1..]);
      assert rs == [rs[0]] + rs[1..] && qs == [qs[0]] + qs[1..];
    } else if rs != [] {
      FirstStartIsNoSmaller(qs, rs);
    }
  }

  /** Two lists are applied in the same order if and only if they agree on those of each start. */
  lemma SortedAgreesExactlyWhen(rs: seq<Replacement>, qs: seq<Replacement>)
    ensures Sorted(rs) == Sorted(qs) <==> SameByStart(rs, qs)
  {
    SortingAgrees(rs);
    SortingAgrees(qs);
    if SameByStart(rs, qs) {
      SortedIsDescending(rs);
      SortedIsDescending(qs);
      AgreementCarriesOver(rs, qs, Sorted(rs), Sorted(qs));
      DescendingIsDetermined(Sorted(rs), Sorted(qs));
    } else if Sorted(rs) == Sorted(qs) {
      AgreementCarriesOver(Sorted(rs), Sorted(qs), rs, qs);
    }
  }

  lemma AgreementCarriesOver(
    rs: seq<Replacement>, qs: seq<Replacement>, rs': seq<Replacement>, qs': seq<Replacement>)
    requires SameByStart(rs, qs)
    requires (SameByStart(rs', rs) && SameByStart(qs', qs)) || (SameByStart(rs, rs') && SameByStart(qs, qs'))
    ensures SameByStart(rs', qs')
  {
    forall at
      ensures Starting(rs', at) == Starting(qs', at)
    {
      assert Starting(rs, at) == Starting(qs, at);
      assert Starting(rs', at) == Starting(rs, at) && Starting(qs', at) == Starting(qs, at);
    }
  }

  /** Two insertions at one place do depend on the order of the list. */
  lemma EqualStartsDependOnOrder(source: string)
    ensures
      var q, r := Replacement(0, 0, "q"), Replacement(0, 0, "r");
      && AppliedInOrder(source, Sorted([q, r])) == "rq" + source
      && AppliedInOrder(source, Sorted([r, q])) == "qr" + source
  {
    var q, r := Replacement(0, 0, "q"), Replacement(0, 0, "r");
    SortingTwo(q, r);
    SortingTwo(r, q);
    ApplyingTwo(source, q, r);
    ApplyingTwo(source, r, q);
    assert "r" + ("q" + source) == "rq" + source;
    assert "q" + ("r" + source) == "qr" + source;
  }

  lemma SortingTwo(q: Replacement, r: Replacement)
    requires q.start == r.start
    ensures Sorted([q, r]) == [q, r]
  {
    assert [q, r][..1] == [q] && [q][..0] == [];
    assert Sorted([q]) == Inserted(Sorted([]), q) == [q];
    assert [q][1..] == [];
  }

  lemma ApplyingTwo(source: string, q: Replacement, r: Replacement)
    ensures AppliedInOrder(source, [q, r]) == Applied(Applied(source, q), r)
  {
    assert [q, r][..1] == [q] && [q][..0] == [];
    assert AppliedInOrder(source, [q]) == Applied(AppliedInOrder(source, []), q);
  }

  // ---------------------------------------------------------------- where everything ends up

  /** By how much the replacements that start before `at` lengthen the text. */
  function Shift(rs: seq<Replacement>, at: int): int
  {
    if rs == [] then 0
    else (if rs[0].start < at then Growth(rs[0]) else 0) + Shift(rs[1..], at)
  }

  function Growth(r: Replacement): int
  {
    |r.text| - (r.end - r.start)
  }

  lemma {:induction false} ShiftAdds(rs: seq<Replacement>, r: Replacement, at: int)
    ensures Shift(rs + [r], at) == Shift(rs, at) + if r.start < at then Growth(r) else 0
  {
    if rs != [] {
      assert (rs + [r])[1..] == rs[1..] + [r];
      ShiftAdds(rs[1..], r, at);
    }
  }

  lemma {:induction false} InsertedShifts(s: seq<Replacement>, r: Replacement, at: int)
    ensures Shift(Inserted(s, r), at) == Shift(s, at) + if r.start < at then Growth(r) else 0
  {
    if s != [] {
      if s[0].start < r.start {
        assert ([r] + s)[1..] == s;
      } else {
        InsertedShifts(s[1..], r, at);
        assert ([s[0]] + Inserted(s[1..], r))[1..] == Inserted(s[1..], r);
      }
    }
  }

  lemma {:induction false} SortedShifts(rs: seq<Replacement>, at: int)
    ensures Shift(Sorted(rs), at) == Shift(rs, at)
  {
    if rs != [] {
      var init, last := rs[..|rs| - 1], rs[|rs| - 1];
      assert init + [last] == rs;
      ShiftAdds(init, last, at);
      SortedShifts(init, at);
      InsertedShifts(Sorted(init), last, at);
    }
  }

  lemma {:induction false} BackwardsShifts(rs: seq<Replacement>, at: int)
    ensures Shift(Backwards(rs), at) == Shift(rs, at)
  {
    if rs != [] {
      BackwardsShifts(rs[1..], at);
      ShiftAdds(Backwards(rs[1..]), rs[0], at);
    }
  }

  /** Replacements in line that start no earlier than `at` shift nothing before it. */
  lemma {:induction false} LaterOnesDoNotShift(rs: seq<Replacement>, at: int, n: int, p: int)
    requires InLine(rs, at, n) && p <= at
    ensures Shift(rs, p) == 0
    decreases |rs|
  {
    if rs != [] {
      LaterOnesDoNotShift(rs[1..], rs[0].end, n, p);
    }
  }

  lemma {:induction false} SubstitutedLength(source: string, at: nat, rs: seq<Replacement>)
    requires InLine(rs, at, |source|) && at <= |source|
    ensures |Substituted(source, at, rs)| == |source| - at + Shift(rs, |source| + 1)
    decreases |rs|
  {
    if rs != [] {
      SubstitutedLength(source, rs[0].end, rs[1..]);
    }
  }

  /** The text t stands at position q. */
  ghost predicate StandsAt(text: string, q: int, t: string)
  {
    exists head, tail :: IsSplit(text, head, t, tail) && |head| == q
  }

  predicate IsSplit(text: string, head: string, t: string, tail: string)
  {
    text == head + t + tail
  }

  lemma SplitFurther(front: string, text: string, head: string, t: string, tail: string)
    requires IsSplit(text, head, t, tail)
    ensures IsSplit(front + text, front + head, t, tail)
  {
    assert front + (head + t + tail) == (front + head) + t + tail;
  }

  /** By how much the first replacement moves what comes after it. */
  function Front(source: string, at: nat, rs: seq<Replacement>): string
    requires InLine(rs, at, |source|) && rs != []
  {
    source[at..rs[0].start] + rs[0].text
  }

  lemma ShiftOfTheFirst(rs: seq<Replacement>, at: int)
    requires rs != [] && rs[0].start < at
    ensures Shift(rs, at) == Growth(rs[0]) + Shift(rs[1..], at)
  {
  }

  /** No span holds position p. */
  predicate Outside(rs: seq<Replacement>, p: int)
  {
    forall r :: r in rs ==> p < r.start || r.end <= p
  }

  lemma SplitAt(text: string, i: nat)
    requires i < |text|
    ensures IsSplit(text, text[..i], [text[i]], text[i + 1..])
  {
  }

  /** What comes before the first replacement is copied. */
  lemma CopiedBeforeTheFirst(source: string, at: nat, rs: seq<Replacement>, p: nat)
    requires InLine(rs, at, |source|) && at <= p < |source| && (rs != [] ==> p < rs[0].start)
    ensures p - at < |Substituted(source, at, rs)| && Substituted(source, at, rs)[p - at] == source[p]
  {
    if rs != [] {
      assert source[at..rs[0].start][p - at] == source[p];
    }
  }

  lemma KeptBeforeTheFirst(source: string, at: nat, rs: seq<Replacement>, p: nat)
    returns (head: string, tail: string)
    requires InLine(rs, at, |source|) && at <= p < |source| && (rs != [] ==> p < rs[0].start)
    ensures IsSplit(Substituted(source, at, rs), head, [source[p]], tail)
    ensures |head| == p - at + Shift(rs, p + 1)
  {
    var text := Substituted(source, at, rs);
    CopiedBeforeTheFirst(source, at, rs, p);
    SplitAt(text, p - at);
    if rs != [] {
      LaterOnesDoNotShift(rs, rs[0].start, |source|, p + 1);
    }
    head, tail := text[..p - at], text[p - at + 1..];
  }

  /** A character outside every span is still there, shifted by the replacements before it. */
  lemma {:induction false} SubstitutedKeeps(source: string, at: nat, rs: seq<Replacement>, p: nat)
    returns (head: string, tail: string)
    requires InLine(rs, at, |source|) && at <= p < |source| && Outside(rs, p)
    ensures IsSplit(Substituted(source, at, rs), head, [source[p]], tail)
    ensures |head| == p - at + Shift(rs, p + 1)
    decreases |rs|
  {
    if rs == [] || p < rs[0].start {
      head, tail := KeptBeforeTheFirst(source, at, rs, p);
    } else {
      assert rs[0] in rs;
      head, tail := SubstitutedKeeps(source, rs[0].end, rs[1..], p);
      SplitFurther(Front(source, at, rs), Substituted(source, rs[0].end, rs[1..]), head, [source[p]], tail);
      ShiftOfTheFirst(rs, p + 1);
      head := Front(source, at, rs) + head;
    }
  }

  predicate Ascending(rs: seq<Replacement>)
  {
    |rs| <= 1 || (rs[0].start < rs[1].start && Ascending(rs[1..]))
  }

  lemma {:induction false} FirstStartsFirst(rs: seq<Replacement>, i: nat)
    requires Ascending(rs) && 0 < i < |rs|
    ensures rs[0].start < rs[i].start
  {
    if i > 1 {
      FirstStartsFirst(rs[1..], i - 1);
    }
  }

  /** Every replacement's text is there, where its span was, shifted by the replacements before it. */
  lemma {:induction false} SubstitutedPlaces(source: string, at: nat, rs: seq<Replacement>, i: nat)
    returns (head: string, tail: string)
    requires InLine(rs, at, |source|) && at <= |source| && i < |rs| && Ascending(rs)
    ensures IsSplit(Substituted(source, at, rs), head, rs[i].text, tail)
    ensures |head| == rs[i].start - at + Shift(rs, rs[i].start)
    decreases |rs|
  {
    var after := Substituted(source, rs[0].end, rs[1..]);
    if i == 0 {
      LaterOnesDoNotShift(rs, rs[0].start, |source|, rs[0].start);
      head, tail := source[at..rs[0].start], after;
    } else {
      FirstStartsFirst(rs, i);
      head, tail := SubstitutedPlaces(source, rs[0].end, rs[1..], i - 1);
      SplitFurther(Front(source, at, rs), after, head, rs[i].text, tail);
      ShiftOfTheFirst(rs, rs[i].start);
      head := Front(source, at, rs) + head;
    }
  }

  lemma {:induction false} AscendingFromPairs(rs: seq<Replacement>)
    requires forall i, j :: 0 <= i < j < |rs| ==> rs[i].start < rs[j].start
    ensures Ascending(rs)
  {
    if |rs| > 1 {
      AscendingFromPairs(rs[1..]);
    }
  }

  lemma BackwardsRises(rs: seq<Replacement>, n: nat)
    requires Descending(rs) && Fits(Backwards(rs), n)
    ensures forall i, j :: 0 <= i < j < |Backwards(rs)| ==> Backwards(rs)[i].start < Backwards(rs)[j].start
  {
    var asc := Backwards(rs);
    forall i, j | 0 <= i < j < |asc|
      ensures asc[i].start < asc[j].start
    {
      assert Apart(asc[i], asc[j]);
      assert asc[i] == rs[|rs| - 1 - i] && asc[j] == rs[|rs| - 1 - j];
    }
  }

  lemma InOrderIsAscending(rs: seq<Replacement>, n: nat)
    requires Fits(rs, n)
    ensures Ascending(InOrder(rs))
  {
    SortedIsDescending(rs);
    FittingInAnyOrder(rs, InOrder(rs), n);
    BackwardsRises(Sorted(rs), n);
    AscendingFromPairs(InOrder(rs));
  }

  lemma InOrderShifts(rs: seq<Replacement>, at: int)
    ensures Shift(InOrder(rs), at) == Shift(rs, at)
  {
    SortedShifts(rs, at);
    BackwardsShifts(Sorted(rs), at);
  }

  /** The spliced text is longer by the sum of the growths. */
  lemma SplicedLength(source: string, rs: seq<Replacement>)
    requires Fits(rs, |source|)
    ensures |AppliedInOrder(source, Sorted(rs))| == |source| + Shift(rs, |source| + 1)
  {
    SplicingIsSubstitution(source, rs);
    SubstitutedLength(source, 0, InOrder(rs));
    InOrderShifts(rs, |source| + 1);
  }

  lemma KeptInOrder(source: string, rs: seq<Replacement>, asc: seq<Replacement>, p: nat)
    requires multiset(asc) == multiset(rs) && InLine(asc, 0, |source|) && Shift(asc, p + 1) == Shift(rs, p + 1)
    requires p < |source| && Outside(rs, p)
    ensures StandsAt(Substituted(source, 0, asc), p + Shift(rs, p + 1), [source[p]])
  {
    OutsideInAnyOrder(rs, asc, p);
    var head, tail := SubstitutedKeeps(source, 0, asc, p);
  }

  /** A character outside all spans is kept, shifted by the growths of the replacements before it. */
  lemma SplicingKeeps(source: string, rs: seq<Replacement>, p: nat)
    requires Fits(rs, |source|) && p < |source| && Outside(rs, p)
    ensures StandsAt(AppliedInOrder(source, Sorted(rs)), p + Shift(rs, p + 1), [source[p]])
  {
    SplicingIsSubstitution(source, rs);
    InOrderShifts(rs, p + 1);
    KeptInOrder(source, rs, InOrder(rs), p);
  }

  lemma PlacedInOrder(source: string, asc: seq<Replacement>, k: nat, shift: int)
    requires InLine(asc, 0, |source|) && Ascending(asc) && k < |asc| && Shift(asc, asc[k].start) == shift
    ensures StandsAt(Substituted(source, 0, asc), asc[k].start + shift, asc[k].text)
  {
    var head, tail := SubstitutedPlaces(source, 0, asc, k);
  }

  /** Every replacement's text stands where its span was, shifted by the replacements before it. */
  lemma SplicingPlaces(source: string, rs: seq<Replacement>, i: nat)
    requires Fits(rs, |source|) && i < |rs|
    ensures StandsAt(AppliedInOrder(source, Sorted(rs)), rs[i].start + Shift(rs, rs[i].start), rs[i].text)
  {
    SplicingIsSubstitution(source, rs);
    InOrderIsAscending(rs, |source|);
    InOrderShifts(rs, rs[i].start);
    var k := IndexIn(InOrder(rs), rs, i);
    PlacedInOrder(source, InOrder(rs), k, Shift(rs, rs[i].start));
  }

  lemma OutsideInAnyOrder(rs: seq<Replacement>, qs: seq<Replacement>, p: int)
    requires multiset(rs) == multiset(qs) && Outside(rs, p)
    ensures Outside(qs, p)
  {
    forall r | r in qs
      ensures r in rs
    {
      assert r in multiset(qs);
    }
  }

  // ---------------------------------------------------------------- line offsets

  /** The characters at which Python breaks lines. */
  predicate IsBreak(c: char)
  {
    '\n' <= c <= '\r' || '\U{1C}' <= c <= '\U{1E}' || c == '\U{85}' || c == '\U{2028}' || c == '\U{2029}'
  }

  /** The length of the first line with its break; a carriage return and a line feed are one break. */
  function FirstLine(s: string): (n: nat)
    requires s != ""
    ensures 1 <= n <= |s|
  {
    if |s| == 1 then 1
    else if s[0] == '\r' && s[1] == '\n' then 2
    else if IsBreak(s[0]) then 1
    else 1 + FirstLine(s[1..])
  }

  /** splitlines with line ends kept. */
  function Lines(s: string): seq<string>
  {
    if s == "" then [] else [s[..FirstLine(s)]] + Lines(s[FirstLine(s)..])
  }

  /** Nothing but what ends the line is a break in it; all lines but the last of a text do end in one. */
  predicate IsLine(line: string, last: bool)
  {
    && line != "" && (last || IsBreak(line[|line| - 1]))
    && forall i :: 0 <= i < |line| - 1 && IsBreak(line[i]) ==>
         i == |line| - 2 && line[i] == '\r' && line[i + 1] == '\n'
  }

  lemma {:induction false} FirstLineIsALine(s: string)
    requires s != ""
    ensures IsLine(s[..FirstLine(s)], FirstLine(s) == |s|)
    ensures FirstLine(s) < |s| && s[FirstLine(s) - 1] == '\r' ==> s[FirstLine(s)] != '\n'
  {
    if |s| > 1 && !(s[0] == '\r' && s[1] == '\n') && !IsBreak(s[0]) {
      FirstLineIsALine(s[1..]);
      var n := FirstLine(s);
      assert s[..n] == [s[0]] + s[1..][..n - 1];
    }
  }

  lemma {:induction false} JoinedHead(line: string, lines: seq<string>)
    ensures Joined([line] + lines) == line + Joined(lines)
  {
    if lines != [] {
      JoinedHead(line, lines[..|lines| - 1]);
      assert ([line] + lines)[..|lines|] == [line] + lines[..|lines| - 1];
    } else {
      assert ([line] + lines)[..0] == [];
    }
  }

  /** The lines of a text, one after the other, are the text. */
  lemma {:induction false} LinesMakeTheText(s: string)
    ensures Joined(Lines(s)) == s
  {
    if s != "" {
      var n := FirstLine(s);
      LinesMakeTheText(s[n..]);
      JoinedHead(s[..n], Lines(s[n..]));
      assert s == s[..n] + s[n..];
    }
  }

  /** Each of them is a line. */
  lemma {:induction false} LinesAreLines(s: string, k: nat)
    requires k < |Lines(s)|
    ensures IsLine(Lines(s)[k], k == |Lines(s)| - 1)
  {
    var n := FirstLine(s);
    FirstLineIsALine(s);
    if k > 0 {
      LinesAreLines(s[n..], k - 1);
    }
  }

  function Joined(lines: seq<string>): string
  {
    if lines == [] then "" else Joined(lines[..|lines| - 1]) + lines[|lines| - 1]
  }

  lemma {:induction false} JoinedPrefix(lines: seq<string>, k: nat)
    requires k <= |lines|
    ensures |Joined(lines[..k])| <= |Joined(lines)| && Joined(lines)[..|Joined(lines[..k])|] == Joined(lines[..k])
  {
    if k < |lines| {
      var init := lines[..|lines| - 1];
      JoinedPrefix(init, k);
      assert init[..k] == lines[..k];
    } else {
      assert lines[..k] == lines;
    }
  }

  /** Line k of the text stands between offsets k and k + 1; the last offset is the end of the text. */
  ghost predicate OffsetsOf(offsets: seq<nat>, lines: seq<string>)
  {
    && |offsets| == |lines| + 1 && offsets[|lines|] == |Joined(lines)|
    && forall k :: 0 <= k < |lines| ==> Delimits(Joined(lines), offsets[k], offsets[k + 1], lines[k])
  }

  predicate Delimits(text: string, lo: nat, hi: nat, line: string)
  {
    lo <= hi <= |text| && text[lo..hi] == line
  }

  method LineOffsets(source: string) returns (offsets: seq<nat>)
    ensures OffsetsOf(offsets, Lines(source)) && Joined(Lines(source)) == source
  {
    LinesMakeTheText(source);
    var lines := Lines(source);
    offsets := [0];
    var running := 0;
    for i := 0 to |lines|
      invariant running == |Joined(lines[..i])| && |offsets| == i + 1
      invariant forall k :: 0 <= k <= i ==> offsets[k] == |Joined(lines[..k])|
    {
      assert lines[..i + 1][..i] == lines[..i];
      running := running + |lines[i]|;
      offsets := offsets + [running];
    }
    PrefixLengthsAreOffsets(offsets, lines);
  }

  lemma PrefixLengthsAreOffsets(offsets: seq<nat>, lines: seq<string>)
    requires |offsets| == |lines| + 1 && forall k :: 0 <= k <= |lines| ==> offsets[k] == |Joined(lines[..k])|
    ensures OffsetsOf(offsets, lines)
  {
    assert lines[..|lines|] == lines;
    forall k: nat | k < |lines|
      ensures Delimits(Joined(lines), offsets[k], offsets[k + 1], lines[k])
    {
      PrefixesDelimit(lines, k);
    }
  }

  lemma PrefixesDelimit(lines: seq<string>, k: nat)
    requires k < |lines|
    ensures Delimits(Joined(lines), |Joined(lines[..k])|, |Joined(lines[..k + 1])|, lines[k])
  {
    JoinedPrefix(lines, k + 1);
    assert lines[..k + 1][..k] == lines[..k];
    var lo, hi := |Joined(lines[..k])|, |Joined(lines[..k + 1])|;
    assert Joined(lines)[..hi][lo..] == Joined(lines)[lo..hi];
    assert Joined(lines[..k + 1]) == Joined(lines[..k]) + lines[k];
  }
}

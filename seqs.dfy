/** Sequences of sample indices: ranges, permutations, concatenation of folds. */
module Seqs {

  /** The sequence 0, 1, ..., n-1 (what std::iota writes into a vector of size n). */
  function Range(n: nat): seq<int>
  {
    seq(n, i => i)
  }

  /** No index occurs twice. */
  predicate Distinct(s: seq<int>)
  {
    forall i, j :: 0 <= i < j < |s| ==> s[i] != s[j]
  }

  /** s holds every index 0..n-1 exactly once, in some order. */
  ghost predicate IsPermutation(s: seq<int>, n: nat)
  {
    multiset(s) == multiset(Range(n))
  }

  /** The lists laid end to end, in ascending position order. */
  function Concat(ss: seq<seq<int>>): seq<int>
  {
    if ss == [] then [] else ss[0] + Concat(ss[1..])
  }

  lemma {:induction false} RangeMultiplicity(n: nat, x: int)
    ensures multiset(Range(n))[x] == if 0 <= x < n then 1 else 0
  {
    if n > 0 {
      assert Range(n) == Range(n - 1) + [n - 1];
      RangeMultiplicity(n - 1, x);
    }
  }

  /** A sequence in which no value has multiplicity above one has no repeated entry. */
  lemma DistinctByMultiplicity(s: seq<int>)
    requires forall x :: multiset(s)[x] <= 1
    ensures Distinct(s)
  {
    forall i, j | 0 <= i < j < |s|
      ensures s[i] != s[j]
    {
      var v := s[i];
      assert s == s[..j] + s[j..];
      assert multiset(s)[v] == multiset(s[..j])[v] + multiset(s[j..])[v];
      assert v == s[..j][i];
      assert s[j] == s[j..][0];
    }
  }

  lemma PermutationFacts(s: seq<int>, n: nat)
    requires IsPermutation(s, n)
    ensures |s| == n && Distinct(s)
    ensures forall x :: x in s <==> 0 <= x < n
  {
    assert |multiset(Range(n))| == n;
    forall x
      ensures multiset(s)[x] <= 1 && (x in s <==> 0 <= x < n)
    {
      RangeMultiplicity(n, x);
    }
    DistinctByMultiplicity(s);
  }

  /** The parts of a repetition-free sequence are repetition-free and share nothing. */
  lemma DistinctConcat(a: seq<int>, b: seq<int>)
    requires Distinct(a + b)
    ensures Distinct(a) && Distinct(b)
    ensures forall x :: x in a ==> x !in b
  {
    forall x | x in a
      ensures x !in b
    {
      var i :| 0 <= i < |a| && a[i] == x;
      forall j | 0 <= j < |b|
        ensures b[j] != x
      {
        assert (a + b)[i] == x && (a + b)[|a| + j] == b[j];
      }
    }
    forall i, j | 0 <= i < j < |b|
      ensures b[i] != b[j]
    {
      assert (a + b)[|a| + i] == b[i] && (a + b)[|a| + j] == b[j];
    }
    forall i, j | 0 <= i < j < |a|
      ensures a[i] != a[j]
    {
      assert (a + b)[i] == a[i] && (a + b)[j] == a[j];
    }
  }

  /** Two repetition-free sequences with nothing in common join into a repetition-free one. */
  lemma DistinctJoin(a: seq<int>, b: seq<int>)
    requires Distinct(a) && Distinct(b)
    requires forall x :: x in a ==> x !in b
    ensures Distinct(a + b)
  {
    forall i, j | 0 <= i < j < |a + b|
      ensures (a + b)[i] != (a + b)[j]
    {
      if j < |a| {
        assert (a + b)[i] == a[i] && (a + b)[j] == a[j];
      } else if i >= |a| {
        assert (a + b)[i] == b[i - |a|] && (a + b)[j] == b[j - |a|];
      } else {
        assert (a + b)[i] == a[i] && (a + b)[j] == b[j - |a|];
        assert a[i] in a && b[j - |a|] in b;
      }
    }
  }

  /** The positions among 0..m-1 that mask selects, ascending. */
  function Filter(mask: seq<bool>, m: nat): seq<int>
    requires m <= |mask|
  {
    if m == 0 then [] else Filter(mask, m - 1) + (if mask[m - 1] then [m - 1] else [])
  }

  /** Every selected position occurs once, and nothing else occurs. */
  lemma FilterMultiplicity(mask: seq<bool>, m: nat, x: int)
    requires m <= |mask|
    ensures multiset(Filter(mask, m))[x] == if 0 <= x < m && mask[x] then 1 else 0
  {
    FilterDistinct(mask, m);
    FilterMembers(mask, m, x);
    DistinctMultiplicity(Filter(mask, m), x);
  }

  lemma {:induction false} FilterMembers(mask: seq<bool>, m: nat, x: int)
    requires m <= |mask|
    ensures x in Filter(mask, m) <==> 0 <= x < m && mask[x]
  {
    if m > 0 {
      var last: seq<int> := if mask[m - 1] then [m - 1] else [];
      assert Filter(mask, m) == Filter(mask, m - 1) + last;
      FilterMembers(mask, m - 1, x);
    }
  }

  lemma {:induction false} FilterDistinct(mask: seq<bool>, m: nat)
    requires m <= |mask|
    ensures Distinct(Filter(mask, m))
  {
    if m > 0 {
      var prev := Filter(mask, m - 1);
      var last: seq<int> := if mask[m - 1] then [m - 1] else [];
      assert Filter(mask, m) == prev + last;
      FilterDistinct(mask, m - 1);
      FilterMembers(mask, m - 1, m - 1);
      DistinctJoin(prev, last);
    }
  }

  /** In a repetition-free sequence every entry occurs exactly once. */
  lemma {:induction false} DistinctMultiplicity(s: seq<int>, x: int)
    requires Distinct(s)
    ensures multiset(s)[x] == if x in s then 1 else 0
  {
    if s != [] {
      var t := s[1..];
      assert s == [s[0]] + t;
      assert Distinct(t) by {
        forall i, j | 0 <= i < j < |t| ensures t[i] != t[j] {
          assert t[i] == s[i + 1] && t[j] == s[j + 1];
        }
      }
      assert s[0] !in t by {
        forall j | 0 <= j < |t| ensures t[j] != s[0] {
          assert t[j] == s[j + 1];
        }
      }
      DistinctMultiplicity(t, x);
    }
  }

  lemma {:induction false} FilterLength(mask: seq<bool>, m: nat)
    requires m <= |mask|
    ensures |Filter(mask, m)| <= m
  {
    if m > 0 {
      FilterLength(mask, m - 1);
    }
  }

  /** A repetition-free sequence has as many distinct values as entries. */
  lemma {:induction false} DistinctCardinality(s: seq<int>)
    requires Distinct(s)
    ensures |set x | x in s| == |s|
  {
    if s != [] {
      var t := s[1..];
      assert Distinct(t) by {
        forall i, j | 0 <= i < j < |t| ensures t[i] != t[j] {
          assert t[i] == s[i + 1] && t[j] == s[j + 1];
        }
      }
      DistinctCardinality(t);
      assert (set x | x in s) == {s[0]} + (set x | x in t);
      assert s[0] !in (set x | x in t) by {
        forall j | 0 <= j < |t| ensures t[j] != s[0] {
          assert t[j] == s[j + 1];
        }
      }
    }
  }

  lemma {:induction false} ConcatAppend(ss: seq<seq<int>>, t: seq<int>)
    ensures Concat(ss + [t]) == Concat(ss) + t
  {
    if ss == [] {
      assert [] + [t] == [t];
    } else {
      assert (ss + [t])[1..] == ss[1..] + [t];
      ConcatAppend(ss[1..], t);
    }
  }

  /** Concatenation splits around any position: the folds before f, fold f, the folds after it. */
  lemma {:induction false} ConcatAround(ss: seq<seq<int>>, f: nat)
    requires f < |ss|
    ensures Concat(ss) == Concat(ss[..f]) + ss[f] + Concat(ss[f + 1..])
  {
    if f == 0 {
      assert ss[..0] == [];
    } else {
      ConcatAround(ss[1..], f - 1);
      assert ss[1..][..f - 1] == ss[1..f];
      assert ss[1..][f - 1] == ss[f];
      assert ss[1..][f..] == ss[f + 1..];
      assert ss[..f][0] == ss[0] && ss[..f][1..] == ss[1..f];
    }
  }

  /** The occurrences of x in s are those before i and those from i on. */
  lemma SplitOccurrences(s: seq<int>, i: nat, x: int)
    requires i <= |s|
    ensures multiset(s)[x] == multiset(s[..i])[x] + multiset(s[i..])[x]
  {
    assert s == s[..i] + s[i..];
  }

  /** Appending xs to one list adds the occurrences of xs to those of all indices. */
  lemma {:induction false} ConcatUpdate(ss: seq<seq<int>>, f: nat, xs: seq<int>, x: int)
    requires f < |ss|
    ensures multiset(Concat(ss[f := ss[f] + xs]))[x] == multiset(Concat(ss))[x] + multiset(xs)[x]
  {
    var updated := ss[f := ss[f] + xs];
    if f == 0 {
      assert updated[1..] == ss[1..];
      assert Concat(updated) == ss[0] + xs + Concat(ss[1..]);
    } else {
      ConcatUpdate(ss[1..], f - 1, xs, x);
      assert updated[1..] == ss[1..][f - 1 := ss[f] + xs];
      assert Concat(updated) == ss[0] + Concat(updated[1..]);
    }
  }

  /** Appending xs to one list lengthens the concatenation by |xs|. */
  lemma ConcatUpdateLength(ss: seq<seq<int>>, f: nat, xs: seq<int>)
    requires f < |ss|
    ensures |Concat(ss[f := ss[f] + xs])| == |Concat(ss)| + |xs|
  {
    var updated := ss[f := ss[f] + xs];
    ConcatAround(ss, f);
    ConcatAround(updated, f);
    assert updated[..f] == ss[..f] && updated[f + 1..] == ss[f + 1..];
  }

  /** Multiplying by a natural number keeps the order. */
  lemma MulMono(a: int, b: int, c: nat)
    requires a <= b
    ensures a * c <= b * c
  {
    assert b * c - a * c == (b - a) * c;
  }
}

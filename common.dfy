/** Helpers shared by the game modules: an optional value, duplicate-free
    sequences, the order-preserving de-duplication that `[...new Set(xs)]`
    performs, and the Fisher-Yates shuffle used by two of the games. */
module Common {

  datatype Option<T> = None | Some(value: T)

  predicate NoDuplicates<T(==)>(s: seq<T>) {
    forall i, j :: 0 <= i < j < |s| ==> s[i] != s[j]
  }

  /** Absolute value, for the Manhattan-distance tests of the grid games. */
  function Abs(x: int): nat { if x < 0 then -x else x }

  /** `[...new Set(xs)]`: the elements of `xs`, each listed once. */
  method Dedup<T(==)>(xs: seq<T>) returns (ys: seq<T>)
    ensures NoDuplicates(ys)
    ensures forall x :: x in ys <==> x in xs
    ensures |ys| <= |xs|
  {
    ys := [];
    var i := 0;
    while i < |xs|
      invariant 0 <= i <= |xs|
      invariant NoDuplicates(ys)
      invariant forall x :: x in ys <==> x in xs[..i]
      invariant |ys| <= i
    {
      assert xs[..i + 1] == xs[..i] + [xs[i]];
      if xs[i] !in ys {
        ys := ys + [xs[i]];
      }
      i := i + 1;
    }
    assert xs[..i] == xs;
  }

  /** A sequence without duplicates has as many distinct elements as entries. */
  lemma {:induction false} DistinctCardinality<T>(s: seq<T>)
    requires NoDuplicates(s)
    ensures |set x | x in s| == |s|
  {
    if s != [] {
      var t := s[1..];
      assert NoDuplicates(t) by {
        forall i, j | 0 <= i < j < |t| ensures t[i] != t[j] {
          assert t[i] == s[i + 1] && t[j] == s[j + 1];
        }
      }
      DistinctCardinality(t);
      assert s[0] !in t by {
        forall k | 0 <= k < |t| ensures t[k] != s[0] {
          assert t[k] == s[k + 1];
        }
      }
      assert (set x | x in s) == (set x | x in t) + {s[0]} by {
        forall x ensures x in s <==> x in t || x == s[0] {
          if x in s && x != s[0] {
            var k :| 0 <= k < |s| && s[k] == x;
            assert t[k - 1] == x;
          }
        }
      }
    }
  }

  function SwapAt<T>(s: seq<T>, i: int, j: int): (r: seq<T>)
    requires 0 <= i < |s| && 0 <= j < |s|
    ensures |r| == |s| && r[i] == s[j] && r[j] == s[i]
    ensures forall k :: 0 <= k < |s| && k != i && k != j ==> r[k] == s[k]
  {
    s[i := s[j]][j := s[i]]
  }

  /** The Fisher-Yates shuffle as a function: for i = top, top-1, ..., 1 the
      entry at i is exchanged with the entry at picks[i], where picks[i] is the
      random index drawn from [0, i]. */
  function Shuffled<T>(s: seq<T>, picks: seq<int>, top: int): (r: seq<T>)
    requires top < |s| && top < |picks|
    requires forall i :: 0 < i <= top ==> 0 <= picks[i] <= i
    decreases top
  {
    if top <= 0 then s else Shuffled(SwapAt(s, top, picks[top]), picks, top - 1)
  }

  /** A shuffle is a permutation: it keeps every element and its multiplicity. */
  lemma {:induction false} ShuffledIsPermutation<T>(s: seq<T>, picks: seq<int>, top: int)
    requires top < |s| && top < |picks|
    requires forall i :: 0 < i <= top ==> 0 <= picks[i] <= i
    ensures |Shuffled(s, picks, top)| == |s|
    ensures multiset(Shuffled(s, picks, top)) == multiset(s)
    decreases top
  {
    if top > 0 {
      var t := SwapAt(s, top, picks[top]);
      assert multiset(t) == multiset(s) by {
        var j := picks[top];
        assert t == s[top := s[j]][j := s[top]];
      }
      ShuffledIsPermutation(t, picks, top - 1);
    }
  }

  /** The in-place loop `for (i = len-1; i > 0; i--) { j = pick; swap(a[i], a[j]) }`.
      picks[i] stands for `Math.floor(Math.random() * (i + 1))`. */
  method Shuffle<T>(a: array<T>, picks: seq<int>)
    requires |picks| == a.Length
    requires forall i :: 0 < i < |picks| ==> 0 <= picks[i] <= i
    modifies a
    ensures a[..] == Shuffled(old(a[..]), picks, a.Length - 1)
    ensures multiset(a[..]) == multiset(old(a[..]))
  {
    var i := a.Length - 1;
    while i > 0
      invariant -1 <= i < a.Length
      invariant a.Length > 0 ==> 0 <= i
      invariant Shuffled(a[..], picks, i) == Shuffled(old(a[..]), picks, a.Length - 1)
    {
      var j := picks[i];
      ghost var before := a[..];
      a[i], a[j] := a[j], a[i];
      assert a[..] == SwapAt(before, i, j);
      i := i - 1;
    }
    ShuffledIsPermutation(old(a[..]), picks, a.Length - 1);
  }

  /** Two distinct indices holding the same value make its multiplicity at
      least two. */
  lemma TwoOccurrences<T>(s: seq<T>, i: int, j: int)
    requires 0 <= i < j < |s| && s[i] == s[j]
    ensures multiset(s)[s[i]] >= 2
  {
    assert s == s[..i] + [s[i]] + s[i + 1..j] + [s[j]] + s[j + 1..];
  }

  /** In a sequence without duplicates every value occurs at most once. */
  lemma {:induction false} DistinctMultiplicity<T>(s: seq<T>, x: T)
    requires NoDuplicates(s)
    ensures multiset(s)[x] <= 1
  {
    if s != [] {
      var t := s[1..];
      assert s == [s[0]] + t;
      assert NoDuplicates(t) by {
        forall i, j | 0 <= i < j < |t| ensures t[i] != t[j] {
          assert t[i] == s[i + 1] && t[j] == s[j + 1];
        }
      }
      DistinctMultiplicity(t, x);
      if x == s[0] {
        assert x !in t by {
          forall k | 0 <= k < |t| ensures t[k] != x {
            assert t[k] == s[k + 1];
          }
        }
      }
    }
  }
}

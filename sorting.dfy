/** A stable sort standing in for Python's `list.sort(key=...)`. */
module Sorting {

  /** `s` is ordered by `le`: every element may precede every later one. */
  ghost predicate Sorted<T>(s: seq<T>, le: (T, T) -> bool) {
    forall i, j :: 0 <= i < j < |s| ==> le(s[i], s[j])
  }

  /** `le` is total and transitive on the elements of `s`. */
  ghost predicate TotalPreorderOn<T>(s: seq<T>, le: (T, T) -> bool) {
    && (forall a, b :: a in s && b in s ==> le(a, b) || le(b, a))
    && (forall a, b, c :: a in s && b in s && c in s && le(a, b) && le(b, c) ==> le(a, c))
  }

  /**
   * Put `x` in front of the first element it may precede. `x` comes from
   * earlier in the input than every element of `s`, so it goes before
   * the elements it ties with: that keeps the sort stable.
   */
  function Insert<T>(x: T, s: seq<T>, le: (T, T) -> bool): (r: seq<T>)
    ensures |r| == |s| + 1
    ensures multiset(r) == multiset(s) + multiset{x}
  {
    if s == [] then [x]
    else if le(x, s[0]) then [x] + s
    else
      assert s == [s[0]] + s[1..];
      [s[0]] + Insert(x, s[1..], le)
  }

  /** Stable insertion sort by `le`; the result is a permutation of `s`. */
  function Sort<T>(s: seq<T>, le: (T, T) -> bool): (r: seq<T>)
    ensures |r| == |s|
    ensures multiset(r) == multiset(s)
  {
    if s == [] then []
    else
      assert s == [s[0]] + s[1..];
      Insert(s[0], Sort(s[1..], le), le)
  }

  lemma {:induction false} InsertSorted<T>(x: T, s: seq<T>, le: (T, T) -> bool)
    requires Sorted(s, le)
    requires TotalPreorderOn(s + [x], le)
    ensures Sorted(Insert(x, s, le), le)
  {
    assert x in s + [x];
    if s != [] {
      assert s[0] in s + [x];
      if le(x, s[0]) {
        forall z | z in s ensures le(x, z) {
          var k :| 0 <= k < |s| && s[k] == z;
          if k > 0 {
            assert le(s[0], s[k]);
            assert z in s + [x];
          }
        }
        SortedCons(x, s, le);
      } else {
        var t := s[1..];
        assert TotalPreorderOn(t + [x], le) by {
          forall a | a in t + [x] ensures a in s + [x] {
            if a in t { assert a in s; }
          }
        }
        InsertSorted(x, t, le);
        var ins := Insert(x, t, le);
        forall y | y in ins ensures le(s[0], y) {
          assert y in multiset(ins);
          if y in t {
            var k :| 0 <= k < |t| && t[k] == y;
            assert le(s[0], s[k + 1]);
          }
        }
        SortedCons(s[0], ins, le);
      }
    }
  }

  /** An element that may precede every element of a sorted sequence may go in front of it. */
  lemma SortedCons<T>(y: T, s: seq<T>, le: (T, T) -> bool)
    requires Sorted(s, le)
    requires forall z :: z in s ==> le(y, z)
    ensures Sorted([y] + s, le)
  {
    var r := [y] + s;
    forall i, j | 0 <= i < j < |r| ensures le(r[i], r[j]) {
      if i == 0 {
        assert r[j] == s[j - 1] && s[j - 1] in s;
      } else {
        assert le(s[i - 1], s[j - 1]);
      }
    }
  }

  /** The sort puts the list in order, provided `le` is a total preorder on it. */
  lemma {:induction false} SortSorted<T>(s: seq<T>, le: (T, T) -> bool)
    requires TotalPreorderOn(s, le)
    ensures Sorted(Sort(s, le), le)
  {
    if s != [] {
      var t := s[1..];
      assert forall a :: a in t ==> a in s;
      SortSorted(t, le);
      var st := Sort(t, le);
      assert forall a :: a in st + [s[0]] ==> a in s by {
        forall a | a in st + [s[0]] ensures a in s {
          if a in st { assert a in multiset(st); }
        }
      }
      InsertSorted(s[0], st, le);
    }
  }

  /** Position of the first element of `s` that may precede every element of `s`. */
  function FirstLeast<T>(s: seq<T>, le: (T, T) -> bool): (k: nat)
    requires s != []
    ensures k < |s|
  {
    if |s| == 1 then 0
    else
      var k := FirstLeast(s[1..], le);
      if le(s[0], s[1 + k]) then 0 else 1 + k
  }

  /** Stability at the head: the sort puts the first least element in front. */
  lemma {:induction false} SortHead<T>(s: seq<T>, le: (T, T) -> bool)
    requires s != []
    ensures Sort(s, le)[0] == s[FirstLeast(s, le)]
  {
    if |s| > 1 {
      var t := s[1..];
      SortHead(t, le);
    }
  }

  /** Under a total preorder the first least element precedes everything and is strictly after everything before it. */
  lemma {:induction false} FirstLeastIsLeast<T>(s: seq<T>, le: (T, T) -> bool)
    requires s != [] && TotalPreorderOn(s, le)
    ensures forall j :: 0 <= j < |s| ==> le(s[FirstLeast(s, le)], s[j])
    ensures forall j :: 0 <= j < FirstLeast(s, le) ==> !le(s[j], s[FirstLeast(s, le)])
  {
    var k := FirstLeast(s, le);
    assert s[0] in s;
    if |s| == 1 {
      assert le(s[0], s[0]);
    } else {
      var t := s[1..];
      assert forall a :: a in t ==> a in s;
      FirstLeastIsLeast(t, le);
      var k' := FirstLeast(t, le);
      assert s[1 + k'] in s;
      forall j | 0 <= j < |s| ensures le(s[k], s[j]) {
        assert s[j] in s;
        if j > 0 {
          assert le(t[k'], t[j - 1]);
        }
      }
    }
  }
}

/** Order-preserving filtering and summing over lists, the comprehensions the bot writes inline. */
module Lists {
  import opened Wrappers

  /**
   * `[x for x in s if keep(x)]`. Defined from the back, so that a loop that
   * walks `s` from the front extends it by one element per step.
   */
  function Where<T>(s: seq<T>, keep: T -> bool): (r: seq<T>)
    ensures |r| <= |s|
  {
    if s == [] then []
    else Where(s[..|s| - 1], keep) + (if keep(s[|s| - 1]) then [s[|s| - 1]] else [])
  }

  /** The filter keeps exactly the elements that pass the test. */
  lemma {:induction false} WhereMembers<T>(s: seq<T>, keep: T -> bool)
    ensures forall i :: 0 <= i < |Where(s, keep)| ==> Where(s, keep)[i] in s && keep(Where(s, keep)[i])
    ensures forall i :: 0 <= i < |s| && keep(s[i]) ==> s[i] in Where(s, keep)
  {
    if s != [] {
      var init := s[..|s| - 1];
      WhereMembers(init, keep);
      var w := Where(init, keep);
      var r := Where(s, keep);
      assert forall x :: x in init ==> x in s;
      forall i | 0 <= i < |s| && keep(s[i]) ensures s[i] in r {
        if i < |s| - 1 {
          assert s[i] == init[i];
        }
      }
      forall i | 0 <= i < |r| ensures r[i] in s && keep(r[i]) {
        if i < |w| {
          assert r[i] == w[i];
        }
      }
    }
  }

  /** One more element at the end is kept at the end, or dropped. */
  lemma WhereSnoc<T>(s: seq<T>, x: T, keep: T -> bool)
    ensures Where(s + [x], keep) == Where(s, keep) + (if keep(x) then [x] else [])
  {
    assert (s + [x])[..|s|] == s;
  }

  /** `sum(f(x) for x in s)` */
  function SumOf<T>(s: seq<T>, f: T -> real): real
  {
    if s == [] then 0.0 else SumOf(s[..|s| - 1], f) + f(s[|s| - 1])
  }

  /**
   * Two complementary filters split a list: every element lands in exactly
   * one of them, so the lengths add up and nothing is lost or duplicated.
   */
  lemma {:induction false} WherePartition<T>(s: seq<T>, p: T -> bool, q: T -> bool)
    requires forall x :: q(x) == !p(x)
    ensures |Where(s, p)| + |Where(s, q)| == |s|
    ensures multiset(Where(s, p)) + multiset(Where(s, q)) == multiset(s)
  {
    if s != [] {
      var init, last := s[..|s| - 1], s[|s| - 1];
      WherePartition(init, p, q);
      assert s == init + [last];
      assert multiset(s) == multiset(init) + multiset{last};
      var wp, wq := Where(init, p), Where(init, q);
      if p(last) {
        assert Where(s, p) == wp + [last] && Where(s, q) == wq;
        assert multiset(Where(s, p)) == multiset(wp) + multiset{last};
      } else {
        assert Where(s, p) == wp && Where(s, q) == wq + [last];
        assert multiset(Where(s, q)) == multiset(wq) + multiset{last};
      }
    }
  }

  /** Filtering twice is filtering once by both tests. */
  lemma {:induction false} WhereWhere<T>(s: seq<T>, p: T -> bool, q: T -> bool, both: T -> bool)
    requires forall x :: both(x) == (p(x) && q(x))
    ensures Where(Where(s, p), q) == Where(s, both)
  {
    if s != [] {
      var init, last := s[..|s| - 1], s[|s| - 1];
      WhereWhere(init, p, q, both);
      var w := Where(init, p);
      if p(last) {
        assert Where(s, p) == w + [last];
        assert (w + [last])[..|w|] == w;
      } else {
        assert Where(s, p) == w;
      }
    }
  }

  /** A filter that keeps everything changes nothing. */
  lemma {:induction false} WhereAll<T>(s: seq<T>, keep: T -> bool)
    requires forall i :: 0 <= i < |s| ==> keep(s[i])
    ensures Where(s, keep) == s
  {
    if s != [] {
      WhereAll(s[..|s| - 1], keep);
      assert s == s[..|s| - 1] + [s[|s| - 1]];
    }
  }

  /** Filtering distributes over concatenation. */
  lemma {:induction false} WhereConcat<T>(a: seq<T>, b: seq<T>, keep: T -> bool)
    ensures Where(a + b, keep) == Where(a, keep) + Where(b, keep)
  {
    if b != [] {
      var init, last := b[..|b| - 1], b[|b| - 1];
      WhereConcat(a, init, keep);
      assert a + b == (a + init) + [last];
      assert (a + b)[..|a + b| - 1] == a + init;
    } else {
      assert a + b == a;
    }
  }

  /** Dropping the one element the filter rejects. */
  lemma WhereDropsOne<T>(s: seq<T>, keep: T -> bool, i: nat)
    requires i < |s| && !keep(s[i])
    requires forall j :: 0 <= j < |s| && j != i ==> keep(s[j])
    ensures Where(s, keep) == s[..i] + s[i + 1..]
  {
    var a, b := s[..i], s[i + 1..];
    var front := a + [s[i]];
    assert s == front + b;
    assert Where(front, keep) == a by {
      WhereSnoc(a, s[i], keep);
      forall j | 0 <= j < |a| ensures keep(a[j]) {
        assert a[j] == s[j];
      }
      WhereAll(a, keep);
    }
    assert Where(b, keep) == b by {
      forall j | 0 <= j < |b| ensures keep(b[j]) {
        assert b[j] == s[i + 1 + j];
      }
      WhereAll(b, keep);
    }
    WhereConcat(front, b, keep);
  }

  /** A relation that holds between every element and every later one still does after filtering. */
  lemma {:induction false} WherePairwise<T>(s: seq<T>, keep: T -> bool, rel: (T, T) -> bool)
    requires forall i, j :: 0 <= i < j < |s| ==> rel(s[i], s[j])
    ensures forall i, j :: 0 <= i < j < |Where(s, keep)| ==> rel(Where(s, keep)[i], Where(s, keep)[j])
  {
    if s != [] {
      var init, last := s[..|s| - 1], s[|s| - 1];
      WherePairwise(init, keep, rel);
      WhereMembers(init, keep);
      var w := Where(init, keep);
      if keep(last) {
        var r := w + [last];
        forall i, j | 0 <= i < j < |r| ensures rel(r[i], r[j]) {
          if j == |w| {
            assert r[i] in init;
            var k :| 0 <= k < |init| && init[k] == r[i];
            assert rel(s[k], s[|s| - 1]);
          } else {
            assert r[i] == w[i] && r[j] == w[j];
          }
        }
        assert Where(s, keep) == r;
      } else {
        assert Where(s, keep) == w;
      }
    }
  }

  /** A filter that rejects everything leaves nothing. */
  lemma {:induction false} WhereNone<T>(s: seq<T>, keep: T -> bool)
    requires forall i :: 0 <= i < |s| ==> !keep(s[i])
    ensures Where(s, keep) == []
  {
    if s != [] {
      WhereNone(s[..|s| - 1], keep);
    }
  }

  /**
   * Inclusion and exclusion: counting the elements that pass either test,
   * and separately those that pass both, counts every element as often as
   * counting each test on its own does.
   */
  lemma {:induction false} WhereEither<T>(s: seq<T>, p: T -> bool, q: T -> bool, either: T -> bool, both: T -> bool)
    requires forall x :: either(x) == (p(x) || q(x))
    requires forall x :: both(x) == (p(x) && q(x))
    ensures |Where(s, either)| + |Where(s, both)| == |Where(s, p)| + |Where(s, q)|
  {
    if s != [] {
      WhereEither(s[..|s| - 1], p, q, either, both);
    }
  }

  /** The position of the first element that passes the test: where a loop that stops at its first match stops. */
  function FirstWhere<T>(s: seq<T>, p: T -> bool): (r: Option<nat>)
    ensures r.Some? ==> r.value < |s| && p(s[r.value]) && forall j :: 0 <= j < r.value ==> !p(s[j])
    ensures r.None? ==> forall j :: 0 <= j < |s| ==> !p(s[j])
  {
    if s == [] then None
    else if p(s[0]) then Some(0)
    else
      match FirstWhere(s[1..], p)
      case None => None
      case Some(i) => Some(i + 1)
  }
}

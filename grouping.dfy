/**
 * The per-person leaderboard aggregation every version of the bot performs:
 * walk the deals once, keep a dictionary from group key to a row
 * `{name, deals, kw}`, create a row the first time a key is seen and add one
 * deal and its kW to it each time. Python dictionaries keep insertion order,
 * so the dictionary is a list of rows with distinct keys.
 */
module Grouping {
  import opened Wrappers
  import Sorting
  import Lists

  /** One leaderboard row: the group key, the name shown, the deal count and the kW total. */
  datatype Row<K> = Row(key: K, name: string, deals: nat, kw: real)

  /** `stats.get(k)` */
  function Lookup<K(==)>(rows: seq<Row<K>>, k: K): Option<Row<K>>
  {
    if rows == [] then None
    else if rows[0].key == k then Some(rows[0])
    else Lookup(rows[1..], k)
  }

  /** No key has two rows. */
  predicate DistinctKeys<K(==)>(rows: seq<Row<K>>) {
    forall i, j :: 0 <= i < j < |rows| ==> rows[i].key != rows[j].key
  }

  /** The sum of the rows' deal counts. */
  function TotalDeals<K>(rows: seq<Row<K>>): nat {
    if rows == [] then 0 else rows[0].deals + TotalDeals(rows[1..])
  }

  /** How many of `deals` fall in group `k`. */
  function CountIn<D, K(==)>(deals: seq<D>, keyOf: D -> Option<K>, k: K): nat {
    if deals == [] then 0
    else CountIn(deals[..|deals| - 1], keyOf, k) + (if keyOf(deals[|deals| - 1]) == Some(k) then 1 else 0)
  }

  /** The kW of the deals in group `k`, added up. */
  function KwIn<D, K(==)>(deals: seq<D>, keyOf: D -> Option<K>, kwOf: D -> real, k: K): real {
    if deals == [] then 0.0
    else KwIn(deals[..|deals| - 1], keyOf, kwOf, k) + (if keyOf(deals[|deals| - 1]) == Some(k) then kwOf(deals[|deals| - 1]) else 0.0)
  }

  /** How many of `deals` have a group at all (the others are skipped). */
  function Grouped<D, K>(deals: seq<D>, keyOf: D -> Option<K>): nat {
    if deals == [] then 0
    else Grouped(deals[..|deals| - 1], keyOf) + (if keyOf(deals[|deals| - 1]).Some? then 1 else 0)
  }

  /** The name carried by the first deal of group `k`. */
  function FirstName<D, K(==)>(deals: seq<D>, keyOf: D -> Option<K>, nameOf: D -> string, k: K): string {
    if deals == [] then ""
    else
      var init, last := deals[..|deals| - 1], deals[|deals| - 1];
      if CountIn(init, keyOf, k) > 0 then FirstName(init, keyOf, nameOf, k)
      else if keyOf(last) == Some(k) then nameOf(last)
      else ""
  }

  /**
   * The row the aggregation owes group `k`: none when no deal falls in it,
   * otherwise the name of its first deal, its number of deals and their kW total.
   */
  function Expected<D, K(==)>(deals: seq<D>, keyOf: D -> Option<K>, nameOf: D -> string, kwOf: D -> real, k: K): Option<Row<K>> {
    var n := CountIn(deals, keyOf, k);
    if n == 0 then None else Some(Row(k, FirstName(deals, keyOf, nameOf, k), n, KwIn(deals, keyOf, kwOf, k)))
  }

  /** Group `k`'s row after one more deal named `name` with `kw` kW: created on first sight, then counted. */
  function Counted<K>(r: Option<Row<K>>, k: K, name: string, kw: real): Row<K> {
    match r
    case None => Row(k, name, 1, kw)
    case Some(row) => row.(deals := row.deals + 1, kw := row.kw + kw)
  }

  /** The loop body on the dictionary: `stats.setdefault(k, new row)`, then `deals += 1` and `kw += kw`. */
  function Bump<K(==)>(rows: seq<Row<K>>, k: K, name: string, kw: real): seq<Row<K>>
  {
    if rows == [] then [Row(k, name, 1, kw)]
    else if rows[0].key == k then [Counted(Some(rows[0]), k, name, kw)] + rows[1..]
    else [rows[0]] + Bump(rows[1..], k, name, kw)
  }

  lemma {:induction false} BumpEffect<K>(rows: seq<Row<K>>, k: K, name: string, kw: real)
    requires DistinctKeys(rows)
    ensures DistinctKeys(Bump(rows, k, name, kw))
    ensures forall i :: 0 <= i < |Bump(rows, k, name, kw)| ==>
      Bump(rows, k, name, kw)[i].key == k || exists j :: 0 <= j < |rows| && rows[j].key == Bump(rows, k, name, kw)[i].key
    ensures TotalDeals(Bump(rows, k, name, kw)) == TotalDeals(rows) + 1
    ensures Lookup(Bump(rows, k, name, kw), k) == Some(Counted(Lookup(rows, k), k, name, kw))
    ensures forall k' :: k' != k ==> Lookup(Bump(rows, k, name, kw), k') == Lookup(rows, k')
  {
    var b := Bump(rows, k, name, kw);
    if rows == [] {
    } else if rows[0].key == k {
      assert b[1..] == rows[1..];
      forall k' | k' != k ensures Lookup(b, k') == Lookup(rows, k') {
        assert Lookup(b, k') == Lookup(rows[1..], k');
      }
    } else {
      var t := rows[1..];
      BumpEffect(t, k, name, kw);
      assert b[1..] == Bump(t, k, name, kw);
      forall i, j | 0 <= i < j < |b| ensures b[i].key != b[j].key {
        if i == 0 {
          var key := b[j].key;
          if key != k {
            var m :| 0 <= m < |t| && t[m].key == key;
            assert rows[m + 1].key == key;
          }
        }
      }
      forall i | 0 <= i < |b| && b[i].key != k
        ensures exists j :: 0 <= j < |rows| && rows[j].key == b[i].key
      {
        if i > 0 {
          var m :| 0 <= m < |t| && t[m].key == b[i].key;
          assert rows[m + 1] == t[m];
        } else {
          assert rows[0].key == b[i].key;
        }
      }
    }
  }

  /** Counting one more deal changes group `k`'s expected row as `Counted` says and no other group's. */
  lemma ExpectedStep<D, K>(prefix: seq<D>, d: D, keyOf: D -> Option<K>, nameOf: D -> string, kwOf: D -> real, k: K)
    ensures Expected(prefix + [d], keyOf, nameOf, kwOf, k) ==
      if keyOf(d) == Some(k) then Some(Counted(Expected(prefix, keyOf, nameOf, kwOf, k), k, nameOf(d), kwOf(d)))
      else Expected(prefix, keyOf, nameOf, kwOf, k)
  {
    var s := prefix + [d];
    assert s[..|s| - 1] == prefix && s[|s| - 1] == d;
    assert CountIn(s, keyOf, k) == CountIn(prefix, keyOf, k) + (if keyOf(d) == Some(k) then 1 else 0);
    assert KwIn(s, keyOf, kwOf, k) == KwIn(prefix, keyOf, kwOf, k) + (if keyOf(d) == Some(k) then kwOf(d) else 0.0);
    var n := CountIn(prefix, keyOf, k);
    if n > 0 {
      assert FirstName(s, keyOf, nameOf, k) == FirstName(prefix, keyOf, nameOf, k);
      var row := Row(k, FirstName(prefix, keyOf, nameOf, k), n, KwIn(prefix, keyOf, kwOf, k));
      assert Expected(prefix, keyOf, nameOf, kwOf, k) == Some(row);
      if keyOf(d) == Some(k) {
        assert Counted(Some(row), k, nameOf(d), kwOf(d)) == row.(deals := n + 1, kw := row.kw + kwOf(d));
      }
    } else if keyOf(d) == Some(k) {
      assert FirstName(s, keyOf, nameOf, k) == nameOf(d);
      KwInEmpty(prefix, keyOf, kwOf, k);
    }
  }

  /** A group no deal falls in has no kW. */
  lemma {:induction false} KwInEmpty<D, K>(deals: seq<D>, keyOf: D -> Option<K>, kwOf: D -> real, k: K)
    requires CountIn(deals, keyOf, k) == 0
    ensures KwIn(deals, keyOf, kwOf, k) == 0.0
  {
    if deals != [] {
      KwInEmpty(deals[..|deals| - 1], keyOf, kwOf, k);
    }
  }

  /** What the aggregation loop keeps true of the rows it has built from `deals` so far. */
  ghost predicate Aggregates<D, K(!new)>(rows: seq<Row<K>>, deals: seq<D>, keyOf: D -> Option<K>, nameOf: D -> string, kwOf: D -> real) {
    && DistinctKeys(rows)
    && (forall k :: Lookup(rows, k) == Expected(deals, keyOf, nameOf, kwOf, k))
    && TotalDeals(rows) == Grouped(deals, keyOf)
  }

  /** One more deal: bumping its group's row (or skipping a deal without a group) keeps the rows exact. */
  lemma GroupStep<D, K(!new)>(rows: seq<Row<K>>, deals: seq<D>, d: D, keyOf: D -> Option<K>, nameOf: D -> string, kwOf: D -> real)
    requires Aggregates(rows, deals, keyOf, nameOf, kwOf)
    ensures Aggregates(if keyOf(d).Some? then Bump(rows, keyOf(d).value, nameOf(d), kwOf(d)) else rows,
                       deals + [d], keyOf, nameOf, kwOf)
  {
    forall k ensures Expected(deals + [d], keyOf, nameOf, kwOf, k) ==
      if keyOf(d) == Some(k) then Some(Counted(Expected(deals, keyOf, nameOf, kwOf, k), k, nameOf(d), kwOf(d)))
      else Expected(deals, keyOf, nameOf, kwOf, k)
    {
      ExpectedStep(deals, d, keyOf, nameOf, kwOf, k);
    }
    assert (deals + [d])[..|deals|] == deals;
    if keyOf(d).Some? {
      BumpEffect(rows, keyOf(d).value, nameOf(d), kwOf(d));
    }
  }

  /**
   * The aggregation loop. Afterwards there is one row per group that at
   * least one deal falls in, and no other; each row holds the name of the
   * group's first deal, its number of deals and their kW total; and the
   * counts add up to the number of deals that have a group.
   */
  method Group<D, K(==, !new)>(deals: seq<D>, keyOf: D -> Option<K>, nameOf: D -> string, kwOf: D -> real)
    returns (rows: seq<Row<K>>)
    ensures DistinctKeys(rows)
    ensures forall k :: Lookup(rows, k) == Expected(deals, keyOf, nameOf, kwOf, k)
    ensures TotalDeals(rows) == Grouped(deals, keyOf)
  {
    rows := [];
    for i := 0 to |deals|
      invariant Aggregates(rows, deals[..i], keyOf, nameOf, kwOf)
    {
      var d := deals[i];
      assert deals[..i + 1] == deals[..i] + [d];
      GroupStep(rows, deals[..i], d, keyOf, nameOf, kwOf);
      match keyOf(d) {
        case None =>
        case Some(k) =>
          rows := Bump(rows, k, nameOf(d), kwOf(d));
      }
    }
    assert deals[..|deals|] == deals;
  }

  /** With distinct keys, `Lookup` finds exactly the row that carries the key. */
  lemma {:induction false} LookupFinds<K>(rows: seq<Row<K>>, k: K)
    requires DistinctKeys(rows)
    ensures Lookup(rows, k).Some? <==> exists i :: 0 <= i < |rows| && rows[i].key == k
    ensures Lookup(rows, k).Some? ==> Lookup(rows, k).value in rows && Lookup(rows, k).value.key == k
  {
    if rows != [] && rows[0].key != k {
      LookupFinds(rows[1..], k);
      if exists i :: 0 <= i < |rows| && rows[i].key == k {
        var i :| 0 <= i < |rows| && rows[i].key == k;
        assert rows[1..][i - 1].key == k;
      }
    }
  }

  lemma {:induction false} InsertKeepsRows<K>(x: Row<K>, s: seq<Row<K>>, le: (Row<K>, Row<K>) -> bool)
    requires DistinctKeys(s)
    requires forall i :: 0 <= i < |s| ==> s[i].key != x.key
    ensures DistinctKeys(Sorting.Insert(x, s, le))
    ensures TotalDeals(Sorting.Insert(x, s, le)) == TotalDeals(s) + x.deals
  {
    if s == [] {
    } else if le(x, s[0]) {
      assert forall z :: z in s ==> z.key != x.key;
      DistinctCons(x, s);
    } else {
      var t := s[1..];
      InsertKeepsRows(x, t, le);
      var ins := Sorting.Insert(x, t, le);
      forall y | y in ins ensures y.key != s[0].key {
        assert y in multiset(ins);
        if y != x {
          var m :| 0 <= m < |t| && t[m] == y;
          assert s[m + 1] == y;
        }
      }
      DistinctCons(s[0], ins);
    }
  }

  /** A row whose key no row of `s` has may go in front of `s`. */
  lemma DistinctCons<K>(y: Row<K>, s: seq<Row<K>>)
    requires DistinctKeys(s)
    requires forall z :: z in s ==> z.key != y.key
    ensures DistinctKeys([y] + s)
  {
    var r := [y] + s;
    forall i, j | 0 <= i < j < |r| ensures r[i].key != r[j].key {
      if i == 0 {
        assert r[j] in s;
      } else {
        assert r[i] == s[i - 1] && r[j] == s[j - 1];
      }
    }
  }

  /**
   * Sorting the rows (Python's `out.sort(...)`) keeps one row per key, the
   * same row for every key, and the same total.
   */
  lemma {:induction false} SortKeepsRows<K>(s: seq<Row<K>>, le: (Row<K>, Row<K>) -> bool)
    requires DistinctKeys(s)
    ensures DistinctKeys(Sorting.Sort(s, le))
    ensures TotalDeals(Sorting.Sort(s, le)) == TotalDeals(s)
    ensures forall k :: Lookup(Sorting.Sort(s, le), k) == Lookup(s, k)
  {
    var r := Sorting.Sort(s, le);
    if s != [] {
      var t := s[1..];
      SortKeepsRows(t, le);
      var st := Sorting.Sort(t, le);
      forall i | 0 <= i < |st| ensures st[i].key != s[0].key {
        assert st[i] in multiset(st);
        var m :| 0 <= m < |t| && t[m] == st[i];
        assert s[m + 1] == st[i];
      }
      InsertKeepsRows(s[0], st, le);
      assert TotalDeals(s) == s[0].deals + TotalDeals(t);
    }
    SameRowsSameLookup(r, s);
  }

  /** Two arrangements of the same rows, each with one row per key, answer every lookup alike. */
  lemma SameRowsSameLookup<K>(r: seq<Row<K>>, s: seq<Row<K>>)
    requires DistinctKeys(r) && DistinctKeys(s)
    requires multiset(r) == multiset(s)
    ensures forall k :: Lookup(r, k) == Lookup(s, k)
  {
    forall k ensures Lookup(r, k) == Lookup(s, k) {
      LookupFinds(r, k);
      LookupFinds(s, k);
      if Lookup(r, k).Some? {
        var row := Lookup(r, k).value;
        assert row in multiset(s);
      }
      if Lookup(s, k).Some? {
        var row := Lookup(s, k).value;
        assert row in multiset(r);
        var i :| 0 <= i < |r| && r[i] == row;
        var other := Lookup(r, k).value;
        var j :| 0 <= j < |r| && r[j] == other;
        assert i == j;
      }
    }
  }

  /** A group's count and kW total are those of the deals that a filter on its key keeps. */
  lemma {:induction false} CountInIsWhere<D, K>(deals: seq<D>, keyOf: D -> Option<K>, kwOf: D -> real, k: K, inGroup: D -> bool)
    requires forall d :: inGroup(d) == (keyOf(d) == Some(k))
    ensures CountIn(deals, keyOf, k) == |Lists.Where(deals, inGroup)|
    ensures KwIn(deals, keyOf, kwOf, k) == Lists.SumOf(Lists.Where(deals, inGroup), kwOf)
  {
    if deals != [] {
      var init, last := deals[..|deals| - 1], deals[|deals| - 1];
      CountInIsWhere(init, keyOf, kwOf, k, inGroup);
      var w := Lists.Where(init, inGroup);
      if inGroup(last) {
        var x := w + [last];
        assert Lists.Where(deals, inGroup) == x;
        assert x[..|x| - 1] == w;
      } else {
        assert Lists.Where(deals, inGroup) == w;
      }
    }
  }

  /** A group no deal falls in has no deals. */
  lemma {:induction false} OutsideGroupCountsNothing<D, K>(deals: seq<D>, keyOf: D -> Option<K>, k: K)
    requires forall i :: 0 <= i < |deals| ==> keyOf(deals[i]) != Some(k)
    ensures CountIn(deals, keyOf, k) == 0
  {
    if deals != [] {
      OutsideGroupCountsNothing(deals[..|deals| - 1], keyOf, k);
    }
  }

  /** The deals that have a group are those a filter on having a key keeps. */
  lemma {:induction false} GroupedIsWhere<D, K>(deals: seq<D>, keyOf: D -> Option<K>, hasKey: D -> bool)
    requires forall d :: hasKey(d) == keyOf(d).Some?
    ensures Grouped(deals, keyOf) == |Lists.Where(deals, hasKey)|
  {
    if deals != [] {
      GroupedIsWhere(deals[..|deals| - 1], keyOf, hasKey);
    }
  }
}

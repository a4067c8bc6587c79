/**
 * Top-k selection over one score row, as the routers use it: the k indices
 * with the highest scores, in descending score order, an equal score going to
 * the lower index. A score is an integer or minus infinity (the value a masked
 * out expert is given).
 */
module Selection {

  datatype Score = NegInf | Fin(v: int)

  /** Score `a` is strictly higher than score `b`. */
  predicate Exceeds(a: Score, b: Score)
  {
    a.Fin? && (b.NegInf? || a.v > b.v)
  }

  /** Index `i` ranks ahead of index `j`: a higher score, or the same score and a lower index. */
  predicate Ahead(s: seq<Score>, i: int, j: int)
    requires 0 <= i < |s| && 0 <= j < |s|
  {
    Exceeds(s[i], s[j]) || (s[i] == s[j] && i < j)
  }

  /** `r` lists indices of `s` in strictly decreasing rank. */
  predicate Ranked(s: seq<Score>, r: seq<int>)
  {
    && (forall a :: 0 <= a < |r| ==> 0 <= r[a] < |s|)
    && (forall a, b :: 0 <= a < b < |r| ==> Ahead(s, r[a], r[b]))
  }

  /** Every index of `s` missing from `r` ranks behind every index in `r`. */
  predicate Dominates(s: seq<Score>, r: seq<int>)
    requires forall a :: 0 <= a < |r| ==> 0 <= r[a] < |s|
  {
    forall a, j :: 0 <= a < |r| && 0 <= j < |s| && j !in r ==> Ahead(s, r[a], j)
  }

  lemma AheadTransitive(s: seq<Score>, i: int, j: int, l: int)
    requires 0 <= i < |s| && 0 <= j < |s| && 0 <= l < |s|
    requires Ahead(s, i, j) && Ahead(s, j, l)
    ensures Ahead(s, i, l)
  {
  }

  /** Inserts index `x` into a ranked list at its place. */
  function Insert(s: seq<Score>, r: seq<int>, x: int): (r': seq<int>)
    requires Ranked(s, r) && 0 <= x < |s| && x !in r
    ensures Ranked(s, r') && |r'| == |r| + 1
    ensures forall y :: y in r' <==> y in r || y == x
  {
    if r == [] then [x]
    else if Ahead(s, x, r[0]) then
      forall b | 0 <= b < |r| ensures Ahead(s, x, r[b]) {
        if b > 0 { AheadTransitive(s, x, r[0], r[b]); }
      }
      [x] + r
    else
      var rest := Insert(s, r[1..], x);
      forall b | 0 <= b < |rest| ensures Ahead(s, r[0], rest[b]) {
        assert rest[b] in rest;
        if rest[b] != x {
          var c :| 0 <= c < |r[1..]| && r[1..][c] == rest[b];
          assert r[c + 1] == rest[b];
        }
      }
      [r[0]] + rest
  }

  /** The indices below `n` in decreasing rank. */
  function RankOrder(s: seq<Score>, n: nat): (r: seq<int>)
    requires n <= |s|
    ensures Ranked(s, r) && |r| == n
    ensures forall y :: y in r <==> 0 <= y < n
  {
    if n == 0 then [] else Insert(s, RankOrder(s, n - 1), n - 1)
  }

  /**
   * The `k` best indices of `s`, best first. A k larger than the row is a
   * configuration error, so it is excluded.
   */
  function TopK(s: seq<Score>, k: nat): (r: seq<int>)
    requires k <= |s|
    ensures |r| == k && Ranked(s, r) && Dominates(s, r)
  {
    var all := RankOrder(s, |s|);
    var r := all[..k];
    forall a, j | 0 <= a < k && 0 <= j < |s| && j !in r
      ensures Ahead(s, r[a], j)
    {
      assert j in all;
      var b :| 0 <= b < |all| && all[b] == j;
      assert b >= k;
    }
    r
  }

  /** Values of the selected indices, in the same order. */
  function Values(s: seq<int>, r: seq<int>): (vs: seq<int>)
    requires forall a :: 0 <= a < |r| ==> 0 <= r[a] < |s|
    ensures |vs| == |r| && forall a :: 0 <= a < |r| ==> vs[a] == s[r[a]]
  {
    seq(|r|, a requires 0 <= a < |r| => s[r[a]])
  }

  /** An integer row read as scores. */
  function Lift(s: seq<int>): (r: seq<Score>)
    ensures |r| == |s| && forall i :: 0 <= i < |s| ==> r[i] == Fin(s[i])
  {
    seq(|s|, i requires 0 <= i < |s| => Fin(s[i]))
  }

  /** No index is listed twice. */
  predicate Distinct(l: seq<int>)
  {
    forall a, b :: 0 <= a < b < |l| ==> l[a] != l[b]
  }

  /**
   * Among indices whose scores are the finite values `v`, a ranked, dominating
   * list orders and beats them by those values.
   */
  lemma RankedByValues(s: seq<Score>, v: seq<int>, r: seq<int>)
    requires |v| == |s| && Ranked(s, r) && Dominates(s, r)
    requires forall a :: 0 <= a < |r| ==> s[r[a]] == Fin(v[r[a]])
    ensures forall a, b :: 0 <= a < b < |r| ==> v[r[a]] > v[r[b]] || (v[r[a]] == v[r[b]] && r[a] < r[b])
    ensures forall a, j :: 0 <= a < |r| && 0 <= j < |s| && j !in r && s[j] == Fin(v[j]) ==>
              v[r[a]] > v[j] || (v[r[a]] == v[j] && r[a] < j)
  {
    assert forall a, b :: 0 <= a < b < |r| ==> Ahead(s, r[a], r[b]);
    assert forall a, j :: 0 <= a < |r| && 0 <= j < |s| && j !in r ==> Ahead(s, r[a], j);
  }

  /** `x` is the best index of `s` outside `done`. */
  predicate BestOutside(s: seq<Score>, done: seq<int>, x: int)
  {
    0 <= x < |s| && x !in done && forall z :: 0 <= z < |s| && z !in done && z != x ==> Ahead(s, x, z)
  }

  lemma {:induction false} RankedPrefixesAgree(s: seq<Score>, k: nat, r: seq<int>, q: seq<int>, a: nat)
    requires |r| == k && |q| == k && a <= k
    requires Ranked(s, r) && Dominates(s, r)
    requires Ranked(s, q) && Dominates(s, q)
    ensures r[..a] == q[..a]
  {
    if a > 0 {
      RankedPrefixesAgree(s, k, r, q, a - 1);
      var i := a - 1;
      forall z | 0 <= z < |s| && z !in r[..i] && z != r[i]
        ensures Ahead(s, r[i], z)
      {
        if z in r {
          var b :| 0 <= b < |r| && r[b] == z;
          assert b > i;
        }
      }
      forall z | 0 <= z < |s| && z !in q[..i] && z != q[i]
        ensures Ahead(s, q[i], z)
      {
        if z in q {
          var b :| 0 <= b < |q| && q[b] == z;
          assert b > i;
        }
      }
      assert r[i] !in r[..i];
      assert q[i] !in q[..i];
      assert BestOutside(s, r[..i], r[i]) && BestOutside(s, r[..i], q[i]);
      assert r[..a] == r[..i] + [r[i]];
      assert q[..a] == q[..i] + [q[i]];
    }
  }

  /**
   * Top-k is determined by its specification: any k indices listed in
   * decreasing rank, with every other index ranked behind them, are TopK(s, k).
   */
  lemma TopKUnique(s: seq<Score>, k: nat, r: seq<int>)
    requires k <= |s| && |r| == k
    requires Ranked(s, r) && Dominates(s, r)
    ensures r == TopK(s, k)
  {
    RankedPrefixesAgree(s, k, r, TopK(s, k), k);
    assert r == r[..k];
  }

  // ---------------------------------------------------------------------------
  // Counting

  lemma {:induction false} DistinctCard(l: seq<int>)
    requires Distinct(l)
    ensures |set y | y in l| == |l|
  {
    if l != [] {
      var init := l[..|l| - 1];
      DistinctCard(init);
      assert (set y | y in l) == (set y | y in init) + {l[|l| - 1]};
    }
  }

  lemma {:induction false} SeqCoversSet(r: seq<int>, s: set<int>)
    requires forall y :: y in s ==> y in r
    ensures |s| <= |r|
  {
    if r != [] {
      var x := r[|r| - 1];
      var s' := s - {x};
      forall y | y in s' ensures y in r[..|r| - 1] {
        var a :| 0 <= a < |r| && r[a] == y;
        assert a < |r| - 1;
      }
      SeqCoversSet(r[..|r| - 1], s');
    } else {
      assert forall y :: y !in s;
    }
  }

  /** A list holding every element of a duplicate-free list is at least as long. */
  lemma Pigeonhole(l: seq<int>, r: seq<int>)
    requires Distinct(l) && forall a :: 0 <= a < |l| ==> l[a] in r
    ensures |l| <= |r|
  {
    DistinctCard(l);
    SeqCoversSet(r, set y | y in l);
  }
}

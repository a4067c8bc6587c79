/**
 * Grouped (DeepSeek-style) top-k routing of one token.
 *
 * The experts are split into `nGroups` contiguous groups of equal size. Each
 * group is scored by the sum of its two highest gate scores; the
 * `topkGroups` best groups are kept and every expert outside them is masked
 * to minus infinity. The token's `k` experts are the top k of the masked
 * scores (descending, an equal score going to the lower index), and the
 * weights returned are read at those indices from a second matrix, the
 * pre-bias logits, not from the scores that chose them.
 *
 * Scores and logits are integers (hundredths).
 */
module GroupedRouting {
  import opened Selection

  /** Sizes the source accepts: the groups split the experts evenly, a group has a top 2, and the top-k sizes fit. */
  predicate ValidConfig(numExperts: nat, nGroups: nat, topkGroups: nat, k: nat)
  {
    && nGroups > 0
    && numExperts % nGroups == 0
    && numExperts / nGroups >= 2
    && topkGroups <= nGroups
    && k <= numExperts
  }

  lemma MulAtLeast(a: int, b: int)
    requires a >= 1 && b >= 0
    ensures a * b >= b
  {
    assert a * b == (a - 1) * b + b;
  }

  lemma MulMonotone(a: int, b: int, c: int)
    requires 0 <= a <= b && c >= 0
    ensures a * c <= b * c
  {
    assert b * c == a * c + (b - a) * c;
  }

  /** Euclidean division is determined by quotient and remainder. */
  lemma DivUnique(i: int, gs: int, q: int, m: int)
    requires gs > 0 && 0 <= m < gs && i == q * gs + m
    ensures i / gs == q
  {
    var q', m' := i / gs, i % gs;
    assert (q - q') * gs == m' - m;
    if q > q' {
      MulAtLeast(q - q', gs);
    } else if q' > q {
      MulAtLeast(q' - q, gs);
    }
  }

  lemma GroupLayout(numExperts: nat, nGroups: nat, g: nat)
    requires nGroups > 0 && numExperts % nGroups == 0 && g < nGroups
    ensures numExperts == nGroups * (numExperts / nGroups)
    ensures g * (numExperts / nGroups) + numExperts / nGroups <= numExperts
  {
    var gs := numExperts / nGroups;
    assert numExperts == nGroups * gs;
    MulAtLeast(nGroups - g, gs);
    assert nGroups * gs == g * gs + (nGroups - g) * gs;
  }

  /** Group `g` of the score row: experts g*gs .. g*gs+gs-1. */
  function Group(scores: seq<int>, nGroups: nat, g: nat): (grp: seq<int>)
    requires nGroups > 0 && |scores| % nGroups == 0 && g < nGroups
    ensures |grp| == |scores| / nGroups
  {
    var gs := |scores| / nGroups;
    GroupLayout(|scores|, nGroups, g);
    scores[g * gs .. g * gs + gs]
  }

  /**
   * Expert `i` sits at position i % gs of group i / gs: the slices that are
   * scored are the groups that masking reads off the index.
   */
  lemma ExpertInItsGroup(scores: seq<int>, nGroups: nat, i: nat)
    requires nGroups > 0 && |scores| % nGroups == 0 && |scores| / nGroups > 0 && i < |scores|
    ensures i / (|scores| / nGroups) < nGroups
    ensures Group(scores, nGroups, i / (|scores| / nGroups))[i % (|scores| / nGroups)] == scores[i]
  {
    var gs := |scores| / nGroups;
    GroupLayout(|scores|, nGroups, 0);
    QuotientBelow(i, gs, nGroups);
    ExpertAt(scores, nGroups, i / gs, i % gs);
    assert i == (i / gs) * gs + i % gs;
  }

  lemma QuotientBelow(i: nat, gs: nat, n: nat)
    requires gs > 0 && i < n * gs
    ensures i / gs < n
  {
    var q := i / gs;
    assert q * gs <= i;
    if q >= n {
      MulMonotone(n, q, gs);
      assert false;
    }
  }

  lemma ExpertAt(scores: seq<int>, nGroups: nat, g: nat, x: nat)
    requires nGroups > 0 && |scores| % nGroups == 0 && g < nGroups && x < |scores| / nGroups
    ensures g * (|scores| / nGroups) + x < |scores|
    ensures Group(scores, nGroups, g)[x] == scores[g * (|scores| / nGroups) + x]
  {
    GroupLayout(|scores|, nGroups, g);
  }

  /** Sum of the two highest scores of a group: its two top-ranked entries. */
  function Top2Sum(grp: seq<int>): int
    requires |grp| >= 2
  {
    var r := TopK(Lift(grp), 2);
    grp[r[0]] + grp[r[1]]
  }

  /**
   * A group's score is the largest sum of two of its entries: no two distinct
   * entries add up to more, and two distinct entries add up to exactly it.
   */
  lemma Top2SumIsLargestPair(grp: seq<int>)
    requires |grp| >= 2
    ensures forall i, j :: 0 <= i < |grp| && 0 <= j < |grp| && i != j ==> grp[i] + grp[j] <= Top2Sum(grp)
    ensures exists i, j :: 0 <= i < |grp| && 0 <= j < |grp| && i != j && Top2Sum(grp) == grp[i] + grp[j]
  {
    var r := TopK(Lift(grp), 2);
    assert Ahead(Lift(grp), r[0], r[1]);
    forall z | 0 <= z < |grp| ensures grp[z] <= grp[r[0]] {
      if z != r[0] && z != r[1] { assert z !in r; }
    }
    forall z | 0 <= z < |grp| && z != r[0] ensures grp[z] <= grp[r[1]] {
      if z != r[1] { assert z !in r; }
    }
  }

  /** Score of every group. */
  function GroupScores(scores: seq<int>, nGroups: nat): (gsc: seq<int>)
    requires nGroups > 0 && |scores| % nGroups == 0 && |scores| / nGroups >= 2
    ensures |gsc| == nGroups
    ensures forall g :: 0 <= g < nGroups ==> gsc[g] == Top2Sum(Group(scores, nGroups, g))
  {
    seq(nGroups, g requires 0 <= g < nGroups => Top2Sum(Group(scores, nGroups, g)))
  }

  /** The kept groups: the `topkGroups` best group scores, best first. */
  function KeptGroups(scores: seq<int>, nGroups: nat, topkGroups: nat): (kept: seq<int>)
    requires ValidConfig(|scores|, nGroups, topkGroups, 0)
    ensures |kept| == topkGroups && Distinct(kept)
    ensures forall a :: 0 <= a < topkGroups ==> 0 <= kept[a] < nGroups
  {
    var gsc := GroupScores(scores, nGroups);
    var kept := TopK(Lift(gsc), topkGroups);
    forall a, b | 0 <= a < b < topkGroups ensures kept[a] != kept[b] {
      assert Ahead(Lift(gsc), kept[a], kept[b]);
    }
    kept
  }

  /**
   * The kept groups are the best-scored ones: listed by descending group
   * score (an equal score going to the lower group), and every group left out
   * scores no more than any kept one.
   */
  lemma KeptGroupsAreBest(scores: seq<int>, nGroups: nat, topkGroups: nat)
    requires ValidConfig(|scores|, nGroups, topkGroups, 0)
    ensures var gsc, kept := GroupScores(scores, nGroups), KeptGroups(scores, nGroups, topkGroups);
            forall a, b :: 0 <= a < b < topkGroups ==>
              gsc[kept[a]] > gsc[kept[b]] || (gsc[kept[a]] == gsc[kept[b]] && kept[a] < kept[b])
    ensures var gsc, kept := GroupScores(scores, nGroups), KeptGroups(scores, nGroups, topkGroups);
            forall a, g :: 0 <= a < topkGroups && 0 <= g < nGroups && g !in kept ==>
              gsc[kept[a]] > gsc[g] || (gsc[kept[a]] == gsc[g] && kept[a] < g)
  {
    var gsc := GroupScores(scores, nGroups);
    RankedByValues(Lift(gsc), gsc, KeptGroups(scores, nGroups, topkGroups));
  }

  /** Expert `i` lies in a kept group. */
  predicate Eligible(scores: seq<int>, nGroups: nat, topkGroups: nat, i: int)
    requires ValidConfig(|scores|, nGroups, topkGroups, 0)
  {
    i / (|scores| / nGroups) in KeptGroups(scores, nGroups, topkGroups)
  }

  /** The gate scores with every expert outside the kept groups set to minus infinity. */
  function MaskedScores(scores: seq<int>, nGroups: nat, topkGroups: nat): (m: seq<Score>)
    requires ValidConfig(|scores|, nGroups, topkGroups, 0)
    ensures |m| == |scores|
    ensures forall i :: 0 <= i < |scores| ==>
              m[i] == if Eligible(scores, nGroups, topkGroups, i) then Fin(scores[i]) else NegInf
  {
    seq(|scores|, i requires 0 <= i < |scores| =>
      if Eligible(scores, nGroups, topkGroups, i) then Fin(scores[i]) else NegInf)
  }

  datatype Routing = Routing(weights: seq<int>, indices: seq<int>)

  /**
   * Routing of one token: the top k of the masked gate scores, with the
   * weights gathered from `preBias` at the chosen indices.
   */
  function RouteToken(scores: seq<int>, preBias: seq<int>, nGroups: nat, topkGroups: nat, k: nat): (r: Routing)
    requires ValidConfig(|scores|, nGroups, topkGroups, k) && |preBias| == |scores|
    ensures |r.indices| == k && |r.weights| == k
    ensures r.indices == TopK(MaskedScores(scores, nGroups, topkGroups), k)
    ensures forall a :: 0 <= a < k ==> 0 <= r.indices[a] < |scores| && r.weights[a] == preBias[r.indices[a]]
  {
    var indices := TopK(MaskedScores(scores, nGroups, topkGroups), k);
    Routing(Values(preBias, indices), indices)
  }

  // ---------------------------------------------------------------------------
  // Selection stays inside the kept groups

  /** The experts of group `g`, in index order. */
  function Block(g: int, gs: nat): (b: seq<int>)
    requires gs > 0
    ensures |b| == gs
    ensures forall x :: 0 <= x < gs ==> b[x] == g * gs + x && b[x] / gs == g
  {
    var b := seq(gs, x requires 0 <= x < gs => g * gs + x);
    forall x | 0 <= x < gs ensures b[x] / gs == g { DivUnique(b[x], gs, g, x); }
    b
  }

  /** The experts of the listed groups, group after group. */
  function Members(groups: seq<int>, gs: nat): seq<int>
    requires gs > 0
  {
    if groups == [] then [] else Members(groups[..|groups| - 1], gs) + Block(groups[|groups| - 1], gs)
  }

  /**
   * The listed groups (distinct, below nGroups) hold |groups| * gs experts
   * between them, all different, each in range and in one of the groups.
   */
  lemma {:induction false} MembersOfGroups(groups: seq<int>, gs: nat, nGroups: nat)
    requires gs > 0 && Distinct(groups)
    requires forall a :: 0 <= a < |groups| ==> 0 <= groups[a] < nGroups
    ensures |Members(groups, gs)| == |groups| * gs && Distinct(Members(groups, gs))
    ensures forall y :: y in Members(groups, gs) ==> 0 <= y < nGroups * gs && y / gs in groups
  {
    if groups != [] {
      var init, g := groups[..|groups| - 1], groups[|groups| - 1];
      MembersOfGroups(init, gs, nGroups);
      var m, b := Members(init, gs), Block(g, gs);
      assert |groups| * gs == |init| * gs + gs;
      BlockInRange(g, gs, nGroups);
      forall y | y in m + b ensures 0 <= y < nGroups * gs && y / gs in groups {
        if y in m {
          assert y / gs in init;
        }
      }
      forall y | y in m ensures y !in b {
        assert y / gs in init;
      }
      DistinctAppend(m, b);
    }
  }

  lemma BlockInRange(g: int, gs: nat, nGroups: nat)
    requires gs > 0 && 0 <= g < nGroups
    ensures forall y :: y in Block(g, gs) ==> 0 <= y < nGroups * gs && y / gs == g
  {
    var b := Block(g, gs);
    MulAtLeast(nGroups - g, gs);
    assert nGroups * gs == g * gs + (nGroups - g) * gs;
    forall y | y in b ensures 0 <= y < nGroups * gs && y / gs == g {
      var x :| 0 <= x < gs && b[x] == y;
    }
  }

  /** Two duplicate-free lists with no common element join into a duplicate-free list. */
  lemma DistinctAppend(m: seq<int>, b: seq<int>)
    requires Distinct(m) && Distinct(b)
    requires forall y :: y in m ==> y !in b
    ensures Distinct(m + b)
  {
    forall a, c | 0 <= a < c < |m + b| ensures (m + b)[a] != (m + b)[c] {
      if a < |m| && c >= |m| {
        assert m[a] in m;
        assert (m + b)[c] == b[c - |m|];
      }
    }
  }

  /** The kept groups hold topkGroups * groupSize experts. */
  lemma EligibleExperts(scores: seq<int>, nGroups: nat, topkGroups: nat) returns (l: seq<int>)
    requires ValidConfig(|scores|, nGroups, topkGroups, 0)
    ensures |l| == topkGroups * (|scores| / nGroups) && Distinct(l)
    ensures forall a :: 0 <= a < |l| ==> 0 <= l[a] < |scores| && Eligible(scores, nGroups, topkGroups, l[a])
  {
    var gs := |scores| / nGroups;
    var kept := KeptGroups(scores, nGroups, topkGroups);
    GroupLayout(|scores|, nGroups, 0);
    MembersOfGroups(kept, gs, nGroups);
    l := Members(kept, gs);
    forall a | 0 <= a < |l| ensures 0 <= l[a] < |scores| && Eligible(scores, nGroups, topkGroups, l[a]) {
      assert l[a] in l;
    }
  }

  /**
   * An expert outside the kept groups (masked to minus infinity) is selected
   * only when every expert of the kept groups is selected too, so only when k
   * exceeds their number.
   */
  lemma IneligibleNeedsRoom(scores: seq<int>, preBias: seq<int>, nGroups: nat, topkGroups: nat, k: nat, a: nat)
    requires ValidConfig(|scores|, nGroups, topkGroups, k) && |preBias| == |scores|
    requires a < k && !Eligible(scores, nGroups, topkGroups, RouteToken(scores, preBias, nGroups, topkGroups, k).indices[a])
    ensures forall i :: 0 <= i < |scores| && Eligible(scores, nGroups, topkGroups, i) ==>
              i in RouteToken(scores, preBias, nGroups, topkGroups, k).indices
    ensures topkGroups * (|scores| / nGroups) < k
  {
    var m := MaskedScores(scores, nGroups, topkGroups);
    var r := RouteToken(scores, preBias, nGroups, topkGroups, k).indices;
    var l := EligibleExperts(scores, nGroups, topkGroups);
    forall i | 0 <= i < |scores| && Eligible(scores, nGroups, topkGroups, i) ensures i in r {
      assert m[i].Fin? && m[r[a]].NegInf?;
      assert i !in r ==> Ahead(m, r[a], i);
    }
    Pigeonhole(l + [r[a]], r);
  }

  /**
   * When the kept groups hold at least k experts, every selected expert lies in
   * a kept group.
   */
  lemma SelectedFromKeptGroups(scores: seq<int>, preBias: seq<int>, nGroups: nat, topkGroups: nat, k: nat)
    requires ValidConfig(|scores|, nGroups, topkGroups, k) && |preBias| == |scores|
    requires k <= topkGroups * (|scores| / nGroups)
    ensures forall a :: 0 <= a < k ==>
              Eligible(scores, nGroups, topkGroups, RouteToken(scores, preBias, nGroups, topkGroups, k).indices[a])
  {
    var r := RouteToken(scores, preBias, nGroups, topkGroups, k).indices;
    forall a | 0 <= a < k ensures Eligible(scores, nGroups, topkGroups, r[a]) {
      if !Eligible(scores, nGroups, topkGroups, r[a]) {
        IneligibleNeedsRoom(scores, preBias, nGroups, topkGroups, k, a);
        assert false;
      }
    }
  }

  /**
   * When the kept groups hold at least k experts, the selection is the top k
   * of the kept groups by raw gate score: listed in descending score, an equal
   * score going to the lower index, and every unselected expert of a kept group
   * ranks behind every selected one.
   */
  lemma SelectionRanksRawScores(scores: seq<int>, preBias: seq<int>, nGroups: nat, topkGroups: nat, k: nat)
    requires ValidConfig(|scores|, nGroups, topkGroups, k) && |preBias| == |scores|
    requires k <= topkGroups * (|scores| / nGroups)
    ensures var r := RouteToken(scores, preBias, nGroups, topkGroups, k).indices;
            forall a, b :: 0 <= a < b < k ==>
              scores[r[a]] > scores[r[b]] || (scores[r[a]] == scores[r[b]] && r[a] < r[b])
    ensures var r := RouteToken(scores, preBias, nGroups, topkGroups, k).indices;
            forall a, j :: 0 <= a < k && 0 <= j < |scores| && j !in r && Eligible(scores, nGroups, topkGroups, j) ==>
              scores[r[a]] > scores[j] || (scores[r[a]] == scores[j] && r[a] < j)
  {
    var m := MaskedScores(scores, nGroups, topkGroups);
    var r := RouteToken(scores, preBias, nGroups, topkGroups, k).indices;
    SelectedFromKeptGroups(scores, preBias, nGroups, topkGroups, k);
    RankedByValues(m, scores, r);
  }
}

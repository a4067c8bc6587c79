/**
 * The grouped-routing test case: one batch row of two tokens, 16 experts in 4
 * groups of 4, 2 groups kept, 4 experts per token. Gate scores are in
 * hundredths; the pre-bias logits are the gate scores minus 50.
 */
module RoutingExamples {
  import opened Selection
  import opened GroupedRouting

  /** A group's score from two of its entries: the largest, and the largest of the rest. */
  lemma GroupScoreIs(scores: seq<int>, g: nat, grp: seq<int>, i: nat, j: nat)
    requires |scores| == 16 && g < 4 && Group(scores, 4, g) == grp
    requires i < |grp| && j < |grp| && i != j
    requires forall x :: 0 <= x < |grp| ==> grp[x] <= grp[i]
    requires forall x :: 0 <= x < |grp| && x != i ==> grp[x] <= grp[j]
    ensures GroupScores(scores, 4)[g] == grp[i] + grp[j]
  {
    Top2SumIsLargestPair(grp);
  }

  lemma KeptGroupsAre(scores: seq<int>, gsc: seq<int>, kept: seq<int>)
    requires |scores| == 16 && GroupScores(scores, 4) == gsc
    requires |kept| == 2 && Ranked(Lift(gsc), kept) && Dominates(Lift(gsc), kept)
    ensures KeptGroups(scores, 4, 2) == kept
  {
    TopKUnique(Lift(gsc), 2, kept);
  }

  lemma MaskedAre(scores: seq<int>, kept: seq<int>, m: seq<Score>)
    requires |scores| == 16 && KeptGroups(scores, 4, 2) == kept && |m| == 16
    requires forall i :: 0 <= i < 16 ==> m[i] == if i / 4 in kept then Fin(scores[i]) else NegInf
    ensures MaskedScores(scores, 4, 2) == m
  {
  }

  lemma RoutingIs(scores: seq<int>, preBias: seq<int>, m: seq<Score>, idx: seq<int>, w: seq<int>)
    requires |scores| == 16 && |preBias| == 16 && MaskedScores(scores, 4, 2) == m
    requires |idx| == 4 && Ranked(m, idx) && Dominates(m, idx)
    requires w == [preBias[idx[0]], preBias[idx[1]], preBias[idx[2]], preBias[idx[3]]]
    ensures RouteToken(scores, preBias, 4, 2, 4) == Routing(w, idx)
  {
    TopKUnique(m, 4, idx);
    var r := RouteToken(scores, preBias, 4, 2, 4);
    Seq4(r.weights, w[0], w[1], w[2], w[3]);
  }

  lemma Seq4(s: seq<int>, a: int, b: int, c: int, d: int)
    requires |s| == 4 && s[0] == a && s[1] == b && s[2] == c && s[3] == d
    ensures s == [a, b, c, d]
  {
  }

  lemma Token0Group0(g0: seq<int>)
    requires g0 == [20, 10, 5, 10, 10, 60, 30, 10, 80, 1, 1, 1, 5, 80, 20, 10]
    ensures GroupScores(g0, 4)[0] == 30
  {
    GroupScoreIs(g0, 0, [20, 10, 5, 10], 0, 1);
  }

  lemma Token0Group1(g0: seq<int>)
    requires g0 == [20, 10, 5, 10, 10, 60, 30, 10, 80, 1, 1, 1, 5, 80, 20, 10]
    ensures GroupScores(g0, 4)[1] == 90
  {
    GroupScoreIs(g0, 1, [10, 60, 30, 10], 1, 2);
  }

  lemma Token0Group2(g0: seq<int>)
    requires g0 == [20, 10, 5, 10, 10, 60, 30, 10, 80, 1, 1, 1, 5, 80, 20, 10]
    ensures GroupScores(g0, 4)[2] == 81
  {
    GroupScoreIs(g0, 2, [80, 1, 1, 1], 0, 1);
  }

  lemma Token0Group3(g0: seq<int>)
    requires g0 == [20, 10, 5, 10, 10, 60, 30, 10, 80, 1, 1, 1, 5, 80, 20, 10]
    ensures GroupScores(g0, 4)[3] == 100
  {
    GroupScoreIs(g0, 3, [5, 80, 20, 10], 1, 2);
  }

  lemma Token0GroupScores(g0: seq<int>)
    requires g0 == [20, 10, 5, 10, 10, 60, 30, 10, 80, 1, 1, 1, 5, 80, 20, 10]
    ensures GroupScores(g0, 4) == [30, 90, 81, 100]
  {
    Token0Group0(g0);
    Token0Group1(g0);
    Token0Group2(g0);
    Token0Group3(g0);
    Seq4(GroupScores(g0, 4), 30, 90, 81, 100);
  }

  lemma Token0KeptOrder(gsc: seq<int>, ls: seq<Score>)
    requires gsc == [30, 90, 81, 100] && ls == Lift(gsc)
    ensures Ranked(ls, [3, 1]) && Dominates(ls, [3, 1])
  {
    assert ls == [Fin(30), Fin(90), Fin(81), Fin(100)];
  }

  lemma Token0KeptGroups(g0: seq<int>)
    requires g0 == [20, 10, 5, 10, 10, 60, 30, 10, 80, 1, 1, 1, 5, 80, 20, 10]
    ensures KeptGroups(g0, 4, 2) == [3, 1]
  {
    Token0GroupScores(g0);
    Token0KeptOrder([30, 90, 81, 100], Lift([30, 90, 81, 100]));
    KeptGroupsAre(g0, [30, 90, 81, 100], [3, 1]);
  }

  lemma Token0MaskLayout(s: seq<int>, kept: seq<int>, m: seq<Score>)
    requires s == [20, 10, 5, 10, 10, 60, 30, 10, 80, 1, 1, 1, 5, 80, 20, 10]
    requires kept == [3, 1]
    requires m == [NegInf, NegInf, NegInf, NegInf, Fin(10), Fin(60), Fin(30), Fin(10),
                   NegInf, NegInf, NegInf, NegInf, Fin(5), Fin(80), Fin(20), Fin(10)]
    ensures forall i :: 0 <= i < 16 ==> m[i] == if i / 4 in kept then Fin(s[i]) else NegInf
  {
    forall i | 0 <= i < 16 ensures m[i] == if i / 4 in kept then Fin(s[i]) else NegInf {
      if i < 4 { assert i / 4 == 0; }
      else if i < 8 { assert i / 4 == 1; }
      else if i < 12 { assert i / 4 == 2; }
      else { assert i / 4 == 3; }
    }
  }

  lemma Token0Masked(g0: seq<int>)
    requires g0 == [20, 10, 5, 10, 10, 60, 30, 10, 80, 1, 1, 1, 5, 80, 20, 10]
    ensures MaskedScores(g0, 4, 2) == [NegInf, NegInf, NegInf, NegInf, Fin(10), Fin(60), Fin(30), Fin(10),
                   NegInf, NegInf, NegInf, NegInf, Fin(5), Fin(80), Fin(20), Fin(10)]
  {
    Token0KeptGroups(g0);
    Token0MaskLayout(g0, [3, 1], [NegInf, NegInf, NegInf, NegInf, Fin(10), Fin(60), Fin(30), Fin(10),
                   NegInf, NegInf, NegInf, NegInf, Fin(5), Fin(80), Fin(20), Fin(10)]);
    MaskedAre(g0, [3, 1], [NegInf, NegInf, NegInf, NegInf, Fin(10), Fin(60), Fin(30), Fin(10),
                   NegInf, NegInf, NegInf, NegInf, Fin(5), Fin(80), Fin(20), Fin(10)]);
  }

  lemma Token0ExpertOrder(m: seq<Score>)
    requires m == [NegInf, NegInf, NegInf, NegInf, Fin(10), Fin(60), Fin(30), Fin(10),
                   NegInf, NegInf, NegInf, NegInf, Fin(5), Fin(80), Fin(20), Fin(10)]
    ensures Ranked(m, [13, 5, 6, 14]) && Dominates(m, [13, 5, 6, 14])
  {
  }

  lemma Token0Weights(g0: seq<int>, p0: seq<int>)
    requires g0 == [20, 10, 5, 10, 10, 60, 30, 10, 80, 1, 1, 1, 5, 80, 20, 10]
    requires |p0| == 16 && forall i :: 0 <= i < 16 ==> p0[i] == g0[i] - 50
    ensures [p0[13], p0[5], p0[6], p0[14]] == [30, 10, -20, -30]
  {
  }

  lemma Token0Routing(g0: seq<int>, p0: seq<int>)
    requires g0 == [20, 10, 5, 10, 10, 60, 30, 10, 80, 1, 1, 1, 5, 80, 20, 10]
    requires |p0| == 16 && forall i :: 0 <= i < 16 ==> p0[i] == g0[i] - 50
    ensures RouteToken(g0, p0, 4, 2, 4) == Routing([30, 10, -20, -30], [13, 5, 6, 14])
  {
    Token0Masked(g0);
    Token0Weights(g0, p0);
    Token0ExpertOrder([NegInf, NegInf, NegInf, NegInf, Fin(10), Fin(60), Fin(30), Fin(10),
                        NegInf, NegInf, NegInf, NegInf, Fin(5), Fin(80), Fin(20), Fin(10)]);
    RoutingIs(g0, p0, [NegInf, NegInf, NegInf, NegInf, Fin(10), Fin(60), Fin(30), Fin(10),
                        NegInf, NegInf, NegInf, NegInf, Fin(5), Fin(80), Fin(20), Fin(10)], [13, 5, 6, 14], [30, 10, -20, -30]);
  }

  // ---------------------------------------------------------------------------
  // Token 1

  lemma Token1Group0(g1: seq<int>)
    requires g1 == [68, 20, 6, 3, 32, 10, 5, 2, 65, 20, 4, 1, 32, 10, 5, 2]
    ensures GroupScores(g1, 4)[0] == 88
  {
    GroupScoreIs(g1, 0, [68, 20, 6, 3], 0, 1);
  }

  lemma Token1Group1(g1: seq<int>)
    requires g1 == [68, 20, 6, 3, 32, 10, 5, 2, 65, 20, 4, 1, 32, 10, 5, 2]
    ensures GroupScores(g1, 4)[1] == 42
  {
    GroupScoreIs(g1, 1, [32, 10, 5, 2], 0, 1);
  }

  lemma Token1Group2(g1: seq<int>)
    requires g1 == [68, 20, 6, 3, 32, 10, 5, 2, 65, 20, 4, 1, 32, 10, 5, 2]
    ensures GroupScores(g1, 4)[2] == 85
  {
    GroupScoreIs(g1, 2, [65, 20, 4, 1], 0, 1);
  }

  lemma Token1Group3(g1: seq<int>)
    requires g1 == [68, 20, 6, 3, 32, 10, 5, 2, 65, 20, 4, 1, 32, 10, 5, 2]
    ensures GroupScores(g1, 4)[3] == 42
  {
    GroupScoreIs(g1, 3, [32, 10, 5, 2], 0, 1);
  }

  lemma Token1GroupScores(g1: seq<int>)
    requires g1 == [68, 20, 6, 3, 32, 10, 5, 2, 65, 20, 4, 1, 32, 10, 5, 2]
    ensures GroupScores(g1, 4) == [88, 42, 85, 42]
  {
    Token1Group0(g1);
    Token1Group1(g1);
    Token1Group2(g1);
    Token1Group3(g1);
    Seq4(GroupScores(g1, 4), 88, 42, 85, 42);
  }

  lemma Token1KeptOrder(gsc: seq<int>, ls: seq<Score>)
    requires gsc == [88, 42, 85, 42] && ls == Lift(gsc)
    ensures Ranked(ls, [0, 2]) && Dominates(ls, [0, 2])
  {
    assert ls == [Fin(88), Fin(42), Fin(85), Fin(42)];
  }

  lemma Token1KeptGroups(g1: seq<int>)
    requires g1 == [68, 20, 6, 3, 32, 10, 5, 2, 65, 20, 4, 1, 32, 10, 5, 2]
    ensures KeptGroups(g1, 4, 2) == [0, 2]
  {
    Token1GroupScores(g1);
    Token1KeptOrder([88, 42, 85, 42], Lift([88, 42, 85, 42]));
    KeptGroupsAre(g1, [88, 42, 85, 42], [0, 2]);
  }

  lemma Token1MaskLayout(s: seq<int>, kept: seq<int>, m: seq<Score>)
    requires s == [68, 20, 6, 3, 32, 10, 5, 2, 65, 20, 4, 1, 32, 10, 5, 2]
    requires kept == [0, 2]
    requires m == [Fin(68), Fin(20), Fin(6), Fin(3), NegInf, NegInf, NegInf, NegInf,
                   Fin(65), Fin(20), Fin(4), Fin(1), NegInf, NegInf, NegInf, NegInf]
    ensures forall i :: 0 <= i < 16 ==> m[i] == if i / 4 in kept then Fin(s[i]) else NegInf
  {
    forall i | 0 <= i < 16 ensures m[i] == if i / 4 in kept then Fin(s[i]) else NegInf {
      if i < 4 { assert i / 4 == 0; }
      else if i < 8 { assert i / 4 == 1; }
      else if i < 12 { assert i / 4 == 2; }
      else { assert i / 4 == 3; }
    }
  }

  lemma Token1Masked(g1: seq<int>)
    requires g1 == [68, 20, 6, 3, 32, 10, 5, 2, 65, 20, 4, 1, 32, 10, 5, 2]
    ensures MaskedScores(g1, 4, 2) == [Fin(68), Fin(20), Fin(6), Fin(3), NegInf, NegInf, NegInf, NegInf,
                   Fin(65), Fin(20), Fin(4), Fin(1), NegInf, NegInf, NegInf, NegInf]
  {
    Token1KeptGroups(g1);
    Token1MaskLayout(g1, [0, 2], [Fin(68), Fin(20), Fin(6), Fin(3), NegInf, NegInf, NegInf, NegInf,
                   Fin(65), Fin(20), Fin(4), Fin(1), NegInf, NegInf, NegInf, NegInf]);
    MaskedAre(g1, [0, 2], [Fin(68), Fin(20), Fin(6), Fin(3), NegInf, NegInf, NegInf, NegInf,
                   Fin(65), Fin(20), Fin(4), Fin(1), NegInf, NegInf, NegInf, NegInf]);
  }

  lemma Token1ExpertOrder(m: seq<Score>)
    requires m == [Fin(68), Fin(20), Fin(6), Fin(3), NegInf, NegInf, NegInf, NegInf,
                   Fin(65), Fin(20), Fin(4), Fin(1), NegInf, NegInf, NegInf, NegInf]
    ensures Ranked(m, [0, 8, 1, 9]) && Dominates(m, [0, 8, 1, 9])
  {
  }

  lemma Token1Weights(g1: seq<int>, p1: seq<int>)
    requires g1 == [68, 20, 6, 3, 32, 10, 5, 2, 65, 20, 4, 1, 32, 10, 5, 2]
    requires |p1| == 16 && forall i :: 0 <= i < 16 ==> p1[i] == g1[i] - 50
    ensures [p1[0], p1[8], p1[1], p1[9]] == [18, 15, -30, -30]
  {
  }

  lemma Token1Routing(g1: seq<int>, p1: seq<int>)
    requires g1 == [68, 20, 6, 3, 32, 10, 5, 2, 65, 20, 4, 1, 32, 10, 5, 2]
    requires |p1| == 16 && forall i :: 0 <= i < 16 ==> p1[i] == g1[i] - 50
    ensures RouteToken(g1, p1, 4, 2, 4) == Routing([18, 15, -30, -30], [0, 8, 1, 9])
  {
    Token1Masked(g1);
    Token1Weights(g1, p1);
    Token1ExpertOrder([Fin(68), Fin(20), Fin(6), Fin(3), NegInf, NegInf, NegInf, NegInf,
                        Fin(65), Fin(20), Fin(4), Fin(1), NegInf, NegInf, NegInf, NegInf]);
    RoutingIs(g1, p1, [Fin(68), Fin(20), Fin(6), Fin(3), NegInf, NegInf, NegInf, NegInf,
                        Fin(65), Fin(20), Fin(4), Fin(1), NegInf, NegInf, NegInf, NegInf], [0, 8, 1, 9], [18, 15, -30, -30]);
  }

  // ---------------------------------------------------------------------------
  // The test

  /**
   * Token 0 keeps groups 3 and 1 and routes to experts 13, 5, 6, 14; token 1
   * keeps groups 0 and 2 and routes to experts 0, 8, 1, 9 (experts 1 and 9
   * tie at 20; the lower index comes first). The weights are the pre-bias
   * logits at those experts.
   */
  lemma DeepSeekRoutingExample(g0: seq<int>, g1: seq<int>, p0: seq<int>, p1: seq<int>)
    requires g0 == [20, 10, 5, 10, 10, 60, 30, 10, 80, 1, 1, 1, 5, 80, 20, 10]
    requires g1 == [68, 20, 6, 3, 32, 10, 5, 2, 65, 20, 4, 1, 32, 10, 5, 2]
    requires |p0| == 16 && forall i :: 0 <= i < 16 ==> p0[i] == g0[i] - 50
    requires |p1| == 16 && forall i :: 0 <= i < 16 ==> p1[i] == g1[i] - 50
    ensures KeptGroups(g0, 4, 2) == [3, 1] && KeptGroups(g1, 4, 2) == [0, 2]
    ensures RouteToken(g0, p0, 4, 2, 4) == Routing([30, 10, -20, -30], [13, 5, 6, 14])
    ensures RouteToken(g1, p1, 4, 2, 4) == Routing([18, 15, -30, -30], [0, 8, 1, 9])
  {
    Token0KeptGroups(g0);
    Token0Routing(g0, p0);
    Token1KeptGroups(g1);
    Token1Routing(g1, p1);
  }
}

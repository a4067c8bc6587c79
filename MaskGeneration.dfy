/**
 * Dispatch and combine masks of a batch with per-row expert capacity.
 *
 * For every batch row, a counter per expert runs over the row's flattened
 * (token, choice) axis; a choice whose counter is still below the capacity
 * writes its probability into slot `counter` of its expert in the combine mask
 * (a buffer shaped batch x seq_len x num_experts x capacity). The counters
 * start afresh for every row. The dispatch mask is then the combine mask read
 * as booleans: true exactly where the combine entry is nonzero.
 */
module MaskGeneration {
  import opened TokenDropping

  /** Shape of the batch: every row has `seqLen` tokens and is a valid row. */
  predicate ValidBatch(topK: seq<seq<seq<int>>>, probs: seq<seq<seq<int>>>, seqLen: nat, k: nat, numExperts: nat)
  {
    && |probs| == |topK|
    && forall b :: 0 <= b < |topK| ==> |topK[b]| == seqLen && ValidRow(topK[b], probs[b], k, numExperts)
  }

  /**
   * The masks of the whole batch. Entry [b, t, e, c] of each mask depends on
   * batch row b alone: capacity is counted independently per row.
   */
  method GenerateMasks(topK: seq<seq<seq<int>>>, probs: seq<seq<seq<int>>>, seqLen: nat, k: nat,
                       numExperts: nat, capacity: nat)
    returns (dispatch: array4<bool>, combine: array4<int>)
    requires ValidBatch(topK, probs, seqLen, k, numExperts)
    ensures fresh(dispatch) && fresh(combine)
    ensures combine.Length0 == |topK| && combine.Length1 == seqLen
    ensures combine.Length2 == numExperts && combine.Length3 == capacity
    ensures dispatch.Length0 == |topK| && dispatch.Length1 == seqLen
    ensures dispatch.Length2 == numExperts && dispatch.Length3 == capacity
    ensures forall b, t, e, c :: 0 <= b < |topK| && 0 <= t < seqLen && 0 <= e < numExperts && 0 <= c < capacity ==>
              combine[b, t, e, c] == CombineAt(topK[b], probs[b], t, e, c)
    ensures forall b, t, e, c :: 0 <= b < |topK| && 0 <= t < seqLen && 0 <= e < numExperts && 0 <= c < capacity ==>
              dispatch[b, t, e, c] == DispatchAt(topK[b], probs[b], t, e, c)
  {
    combine := new int[|topK|, seqLen, numExperts, capacity]((_, _, _, _) => 0);
    var b := 0;
    while b < |topK|
      invariant 0 <= b <= |topK|
      invariant forall b', t, e, c :: 0 <= b' < |topK| && 0 <= t < seqLen && 0 <= e < numExperts && 0 <= c < capacity ==>
                  combine[b', t, e, c] == if b' < b then CombineAt(topK[b'], probs[b'], t, e, c) else 0
    {
      FillRow(topK[b], probs[b], k, numExperts, capacity, b, combine);
      b := b + 1;
    }
    dispatch := new bool[|topK|, seqLen, numExperts, capacity];
    forall b, t, e, c | 0 <= b < |topK| && 0 <= t < seqLen && 0 <= e < numExperts && 0 <= c < capacity {
      dispatch[b, t, e, c] := combine[b, t, e, c] != 0;
    }
  }

  /** Fills batch row `b` of the (zeroed) combine mask and leaves every other row alone. */
  method FillRow(choices: seq<seq<int>>, probs: seq<seq<int>>, k: nat, numExperts: nat, capacity: nat,
                 b: nat, combine: array4<int>)
    requires ValidRow(choices, probs, k, numExperts)
    requires b < combine.Length0 && combine.Length1 == |choices|
    requires combine.Length2 == numExperts && combine.Length3 == capacity
    requires forall t, e, c :: 0 <= t < |choices| && 0 <= e < numExperts && 0 <= c < capacity ==>
               combine[b, t, e, c] == 0
    modifies combine
    ensures forall t, e, c :: 0 <= t < |choices| && 0 <= e < numExperts && 0 <= c < capacity ==>
              combine[b, t, e, c] == CombineAt(choices, probs, t, e, c)
    ensures forall b', t, e, c :: (0 <= b' < combine.Length0 && b' != b && 0 <= t < |choices|
                                  && 0 <= e < numExperts && 0 <= c < capacity) ==>
              combine[b', t, e, c] == old(combine[b', t, e, c])
  {
    var counts := new int[numExperts](_ => 0);
    var t := 0;
    while t < |choices|
      invariant 0 <= t <= |choices|
      invariant forall e :: 0 <= e < numExperts ==> counts[e] == CountOf(Flatten(choices[..t]), e)
      invariant forall u, e, c :: 0 <= u < |choices| && 0 <= e < numExperts && 0 <= c < capacity ==>
                  combine[b, u, e, c] == if u < t then CombineAt(choices, probs, u, e, c) else 0
      invariant forall b', u, e, c :: (0 <= b' < combine.Length0 && b' != b && 0 <= u < |choices|
                                    && 0 <= e < numExperts && 0 <= c < capacity) ==>
                  combine[b', u, e, c] == old(combine[b', u, e, c])
    {
      FillToken(choices, probs, k, numExperts, capacity, b, t, counts, combine);
      t := t + 1;
    }
  }

  /**
   * Walks the choices of token `t` of row `b` in list order: each takes the
   * current count of its expert as its slot, is written to the token's
   * (expert, slot) entries when that slot is below the capacity, and advances
   * the count. The entries then fill [b, t, _, _] of the combine mask.
   */
  method FillToken(choices: seq<seq<int>>, probs: seq<seq<int>>, k: nat, numExperts: nat, capacity: nat,
                   b: nat, t: nat, counts: array<int>, combine: array4<int>)
    requires ValidRow(choices, probs, k, numExperts) && t < |choices|
    requires b < combine.Length0 && combine.Length1 == |choices|
    requires combine.Length2 == numExperts && combine.Length3 == capacity
    requires counts.Length == numExperts
    requires forall e :: 0 <= e < numExperts ==> counts[e] == CountOf(Flatten(choices[..t]), e)
    requires forall e, c :: 0 <= e < numExperts && 0 <= c < capacity ==> combine[b, t, e, c] == 0
    modifies counts, combine
    ensures forall e :: 0 <= e < numExperts ==> counts[e] == CountOf(Flatten(choices[..t + 1]), e)
    ensures forall e, c :: 0 <= e < numExperts && 0 <= c < capacity ==>
              combine[b, t, e, c] == CombineAt(choices, probs, t, e, c)
    ensures forall b', u, e, c :: (0 <= b' < combine.Length0 && 0 <= u < |choices| && (b' != b || u != t)
                                  && 0 <= e < numExperts && 0 <= c < capacity) ==>
              combine[b', u, e, c] == old(combine[b', u, e, c])
  {
    assert Prefix(choices, t, 0) == Flatten(choices[..t]) by { assert choices[t][..0] == []; }
    var entries := new int[numExperts, capacity]((_, _) => 0);
    var j := 0;
    while j < k
      modifies counts, entries
      invariant 0 <= j <= k
      invariant forall e :: 0 <= e < numExperts ==> counts[e] == CountOf(Prefix(choices, t, j), e)
      invariant forall e, c :: 0 <= e < numExperts && 0 <= c < capacity ==>
                  entries[e, c] == if HoldsBefore(choices, t, e, c, j) then probs[t][e] else 0
    {
      TakeChoice(choices, probs, k, numExperts, capacity, t, j, counts, entries);
      j := j + 1;
    }
    PrefixWhole(choices, t);
    forall e, c | 0 <= e < numExperts && 0 <= c < capacity {
      combine[b, t, e, c] := entries[e, c];
    }
  }

  /**
   * Choice `j` of token `t`: its expert's count is its slot; the token's entry
   * at that slot receives the choice's probability when the slot is below the
   * capacity; the count advances either way.
   */
  method TakeChoice(choices: seq<seq<int>>, probs: seq<seq<int>>, k: nat, numExperts: nat, capacity: nat,
                    t: nat, j: nat, counts: array<int>, entries: array2<int>)
    requires ValidRow(choices, probs, k, numExperts) && t < |choices| && j < k
    requires counts.Length == numExperts && entries.Length0 == numExperts && entries.Length1 == capacity
    requires forall e :: 0 <= e < numExperts ==> counts[e] == CountOf(Prefix(choices, t, j), e)
    requires forall e, c :: 0 <= e < numExperts && 0 <= c < capacity ==>
               entries[e, c] == if HoldsBefore(choices, t, e, c, j) then probs[t][e] else 0
    modifies counts, entries
    ensures forall e :: 0 <= e < numExperts ==> counts[e] == CountOf(Prefix(choices, t, j + 1), e)
    ensures forall e, c :: 0 <= e < numExperts && 0 <= c < capacity ==>
              entries[e, c] == if HoldsBefore(choices, t, e, c, j + 1) then probs[t][e] else 0
  {
    var e := choices[t][j];
    var slot := counts[e];
    if slot < capacity {
      entries[e, slot] := probs[t][e];
    }
    counts[e] := slot + 1;
    PrefixSnoc(choices, t, j);
    forall e' | 0 <= e' < numExperts
      ensures counts[e'] == CountOf(Prefix(choices, t, j + 1), e')
    {
      CountOfSnoc(Prefix(choices, t, j), e, e');
    }
  }
}

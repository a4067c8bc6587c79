/**
 * The token-dropping test case: a batch of 4 rows, 4 tokens per row, 2
 * choices per token, 8 experts and capacity 2. Probabilities are in
 * hundredths.
 */
module MaskExamples {
  import opened TokenDropping

  /** The capacity of the test's configuration: 4 tokens * 2 choices / 8 experts * factor 2. */
  lemma TestCapacity()
    ensures ExpertCapacity(4, 2, 8, 2) == 2
  {
  }

  /** The slot of a choice of a row with two choices per token. */
  lemma SlotOfPairs(row: seq<seq<int>>, t: nat, j: nat)
    requires |row| == 4 && t < 4 && j < 2 && forall u :: 0 <= u < 4 ==> |row[u]| == 2
    ensures var e := row[t][j];
            Slot(row, t, j) == (if t > 0 then CountOf(row[0], e) else 0) + (if t > 1 then CountOf(row[1], e) else 0)
                               + (if t > 2 then CountOf(row[2], e) else 0) + (if j > 0 && row[t][0] == e then 1 else 0)
  {
    var e := row[t][j];
    FlattenFour(row);
    assert row[t][..j] == if j == 0 then [] else [row[t][0]];
    if t == 0 {
      assert Flatten(row[..0]) == [] by { assert row[..0] == []; }
    } else if t == 2 {
      CountOfAppend(row[0], row[1], e);
    } else if t == 3 {
      CountOfAppend(row[0] + row[1], row[2], e);
      CountOfAppend(row[0], row[1], e);
    }
    CountOfAppend(Flatten(row[..t]), row[t][..j], e);
  }

  /** The flattened choices of the first 1, 2 and 3 tokens of a row of 4 tokens. */
  lemma FlattenFour(row: seq<seq<int>>)
    requires |row| == 4
    ensures Flatten(row[..1]) == row[0] && Flatten(row[..2]) == row[0] + row[1]
    ensures Flatten(row[..3]) == row[0] + row[1] + row[2]
  {
    assert row[..0] == [];
    FlattenSnoc(row, 0);
    FlattenSnoc(row, 1);
    FlattenSnoc(row, 2);
  }

  /** A token with two choices holds exactly the (expert, slot) pairs its two choices request. */
  lemma PairHolds(row: seq<seq<int>>, t: nat, e: int, c: nat)
    requires t < |row| && |row[t]| == 2
    ensures Holds(row, t, e, c) <==> (e == row[t][0] && c == Slot(row, t, 0)) || (e == row[t][1] && c == Slot(row, t, 1))
  {
    assert !HoldsBefore(row, t, e, c, 0);
    assert HoldsBefore(row, t, e, c, 1) <==> e == row[t][0] && c == Slot(row, t, 0);
  }

  /** The slot of every choice of row 0. */
  lemma Row0Slots(row: seq<seq<int>>)
    requires row == [[0, 5], [0, 4], [1, 0], [3, 5]]
    ensures Slot(row, 0, 0) == 0 && Slot(row, 0, 1) == 0 && Slot(row, 1, 0) == 1 && Slot(row, 1, 1) == 0
    ensures Slot(row, 2, 0) == 0 && Slot(row, 2, 1) == 2 && Slot(row, 3, 0) == 0 && Slot(row, 3, 1) == 1
  {
    SlotOfPairs(row, 0, 0);
    SlotOfPairs(row, 0, 1);
    SlotOfPairs(row, 1, 0);
    SlotOfPairs(row, 1, 1);
    SlotOfPairs(row, 2, 0);
    SlotOfPairs(row, 2, 1);
    SlotOfPairs(row, 3, 0);
    SlotOfPairs(row, 3, 1);
  }

  /** Capacity 2 drops exactly the second choice of token 2 in row 0. */
  lemma Row0Drops(row: seq<seq<int>>)
    requires row == [[0, 5], [0, 4], [1, 0], [3, 5]]
    ensures forall t, j :: 0 <= t < 4 && 0 <= j < 2 ==> (Accepted(row, t, j, 2) <==> !(t == 2 && j == 1))
  {
    Row0Slots(row);
  }

  /**
   * Row 0: expert 0 is full after tokens 0 and 1, so token 2's second choice
   * (expert 0) is dropped, while its first choice keeps its 0.78 unchanged;
   * token 3 is expert 5's second arrival and takes its slot 1.
   */
  lemma Row0Masks(row: seq<seq<int>>, probs: seq<seq<int>>, want: seq<seq<seq<int>>>)
    requires row == [[0, 5], [0, 4], [1, 0], [3, 5]]
    requires probs == [[20, 0, 0, 0, 0, 80, 0, 0], [68, 0, 0, 0, 32, 0, 0, 0],
                       [22, 78, 0, 0, 0, 0, 0, 0], [0, 0, 0, 32, 0, 68, 0, 0]]
    requires want == [[[20, 0], [0, 0], [0, 0], [0, 0], [0, 0], [80, 0], [0, 0], [0, 0]],
                      [[0, 68], [0, 0], [0, 0], [0, 0], [32, 0], [0, 0], [0, 0], [0, 0]],
                      [[0, 0], [78, 0], [0, 0], [0, 0], [0, 0], [0, 0], [0, 0], [0, 0]],
                      [[0, 0], [0, 0], [0, 0], [32, 0], [0, 0], [0, 68], [0, 0], [0, 0]]]
    ensures forall t, e, c :: 0 <= t < 4 && 0 <= e < 8 && 0 <= c < 2 ==> CombineAt(row, probs, t, e, c) == want[t][e][c]
  {
    Row0Slots(row);
    forall t, e, c | 0 <= t < 4 && 0 <= e < 8 && 0 <= c < 2
      ensures CombineAt(row, probs, t, e, c) == want[t][e][c]
    {
      PairHolds(row, t, e, c);
    }
  }

  /** The slot of every choice of row 1. */
  lemma Row1Slots(row: seq<seq<int>>)
    requires row == [[1, 2], [4, 1], [5, 0], [7, 1]]
    ensures Slot(row, 0, 0) == 0 && Slot(row, 0, 1) == 0 && Slot(row, 1, 0) == 0 && Slot(row, 1, 1) == 1
    ensures Slot(row, 2, 0) == 0 && Slot(row, 2, 1) == 0 && Slot(row, 3, 0) == 0 && Slot(row, 3, 1) == 2
  {
    SlotOfPairs(row, 0, 0);
    SlotOfPairs(row, 0, 1);
    SlotOfPairs(row, 1, 0);
    SlotOfPairs(row, 1, 1);
    SlotOfPairs(row, 2, 0);
    SlotOfPairs(row, 2, 1);
    SlotOfPairs(row, 3, 0);
    SlotOfPairs(row, 3, 1);
  }

  /** Capacity 2 drops exactly the second choice of token 3 in row 1. */
  lemma Row1Drops(row: seq<seq<int>>)
    requires row == [[1, 2], [4, 1], [5, 0], [7, 1]]
    ensures forall t, j :: 0 <= t < 4 && 0 <= j < 2 ==> (Accepted(row, t, j, 2) <==> !(t == 3 && j == 1))
  {
    Row1Slots(row);
  }

  /**
   * Row 1: counting starts afresh, so expert 0 (full in row 0) gives token 2
   * slot 0; expert 1 is full when token 3 names it, and token 3 keeps 0.89 for
   * expert 7 alone, not rescaled.
   */
  lemma Row1Masks(row: seq<seq<int>>, probs: seq<seq<int>>, want: seq<seq<seq<int>>>)
    requires row == [[1, 2], [4, 1], [5, 0], [7, 1]]
    requires probs == [[0, 26, 74, 0, 0, 0, 0, 0], [0, 79, 0, 0, 21, 0, 0, 0],
                       [89, 0, 0, 0, 0, 11, 0, 0], [0, 11, 0, 0, 0, 0, 0, 89]]
    requires want == [[[0, 0], [26, 0], [74, 0], [0, 0], [0, 0], [0, 0], [0, 0], [0, 0]],
                      [[0, 0], [0, 79], [0, 0], [0, 0], [21, 0], [0, 0], [0, 0], [0, 0]],
                      [[89, 0], [0, 0], [0, 0], [0, 0], [0, 0], [11, 0], [0, 0], [0, 0]],
                      [[0, 0], [0, 0], [0, 0], [0, 0], [0, 0], [0, 0], [0, 0], [89, 0]]]
    ensures forall t, e, c :: 0 <= t < 4 && 0 <= e < 8 && 0 <= c < 2 ==> CombineAt(row, probs, t, e, c) == want[t][e][c]
  {
    Row1Slots(row);
    forall t, e, c | 0 <= t < 4 && 0 <= e < 8 && 0 <= c < 2
      ensures CombineAt(row, probs, t, e, c) == want[t][e][c]
    {
      PairHolds(row, t, e, c);
    }
  }

  /** The slot of every choice of row 2. */
  lemma Row2Slots(row: seq<seq<int>>)
    requires row == [[6, 2], [2, 3], [4, 2], [1, 2]]
    ensures Slot(row, 0, 0) == 0 && Slot(row, 0, 1) == 0 && Slot(row, 1, 0) == 1 && Slot(row, 1, 1) == 0
    ensures Slot(row, 2, 0) == 0 && Slot(row, 2, 1) == 2 && Slot(row, 3, 0) == 0 && Slot(row, 3, 1) == 3
  {
    SlotOfPairs(row, 0, 0);
    SlotOfPairs(row, 0, 1);
    SlotOfPairs(row, 1, 0);
    SlotOfPairs(row, 1, 1);
    SlotOfPairs(row, 2, 0);
    SlotOfPairs(row, 2, 1);
    SlotOfPairs(row, 3, 0);
    SlotOfPairs(row, 3, 1);
  }

  /** Capacity 2 drops exactly the second choices of tokens 2 and 3 in row 2. */
  lemma Row2Drops(row: seq<seq<int>>)
    requires row == [[6, 2], [2, 3], [4, 2], [1, 2]]
    ensures forall t, j :: 0 <= t < 4 && 0 <= j < 2 ==> (Accepted(row, t, j, 2) <==> !((t == 2 && j == 1) || (t == 3 && j == 1)))
  {
    Row2Slots(row);
  }

  /**
   * Row 2: token 0 names expert 2 second and token 1 names it first, yet
   * token 0 gets slot 0 and token 1 slot 1 -- slots follow token order, not
   * choice rank. Tokens 2 and 3 find expert 2 full and are dropped from it.
   */
  lemma Row2Masks(row: seq<seq<int>>, probs: seq<seq<int>>, want: seq<seq<seq<int>>>)
    requires row == [[6, 2], [2, 3], [4, 2], [1, 2]]
    requires probs == [[0, 0, 26, 0, 0, 0, 74, 0], [0, 0, 88, 12, 0, 0, 0, 0],
                       [0, 0, 17, 0, 83, 0, 0, 0], [0, 35, 65, 0, 0, 0, 0, 0]]
    requires want == [[[0, 0], [0, 0], [26, 0], [0, 0], [0, 0], [0, 0], [74, 0], [0, 0]],
                      [[0, 0], [0, 0], [0, 88], [12, 0], [0, 0], [0, 0], [0, 0], [0, 0]],
                      [[0, 0], [0, 0], [0, 0], [0, 0], [83, 0], [0, 0], [0, 0], [0, 0]],
                      [[0, 0], [35, 0], [0, 0], [0, 0], [0, 0], [0, 0], [0, 0], [0, 0]]]
    ensures forall t, e, c :: 0 <= t < 4 && 0 <= e < 8 && 0 <= c < 2 ==> CombineAt(row, probs, t, e, c) == want[t][e][c]
  {
    Row2Slots(row);
    forall t, e, c | 0 <= t < 4 && 0 <= e < 8 && 0 <= c < 2
      ensures CombineAt(row, probs, t, e, c) == want[t][e][c]
    {
      PairHolds(row, t, e, c);
    }
  }

  /** The slot of every choice of row 3. */
  lemma Row3Slots(row: seq<seq<int>>)
    requires row == [[4, 1], [0, 7], [5, 0], [4, 7]]
    ensures Slot(row, 0, 0) == 0 && Slot(row, 0, 1) == 0 && Slot(row, 1, 0) == 0 && Slot(row, 1, 1) == 0
    ensures Slot(row, 2, 0) == 0 && Slot(row, 2, 1) == 1 && Slot(row, 3, 0) == 1 && Slot(row, 3, 1) == 1
  {
    SlotOfPairs(row, 0, 0);
    SlotOfPairs(row, 0, 1);
    SlotOfPairs(row, 1, 0);
    SlotOfPairs(row, 1, 1);
    SlotOfPairs(row, 2, 0);
    SlotOfPairs(row, 2, 1);
    SlotOfPairs(row, 3, 0);
    SlotOfPairs(row, 3, 1);
  }

  /** Capacity 2 drops no choice in row 3. */
  lemma Row3Drops(row: seq<seq<int>>)
    requires row == [[4, 1], [0, 7], [5, 0], [4, 7]]
    ensures forall t, j :: 0 <= t < 4 && 0 <= j < 2 ==> (Accepted(row, t, j, 2))
  {
    Row3Slots(row);
  }

  /** Row 3: no expert is named more than twice, so nothing is dropped; second arrivals take slot 1. */
  lemma Row3Masks(row: seq<seq<int>>, probs: seq<seq<int>>, want: seq<seq<seq<int>>>)
    requires row == [[4, 1], [0, 7], [5, 0], [4, 7]]
    requires probs == [[0, 47, 0, 0, 53, 0, 0, 0], [36, 0, 0, 0, 0, 0, 0, 64],
                       [15, 0, 0, 0, 0, 85, 0, 0], [0, 0, 0, 0, 18, 0, 0, 82]]
    requires want == [[[0, 0], [47, 0], [0, 0], [0, 0], [53, 0], [0, 0], [0, 0], [0, 0]],
                      [[36, 0], [0, 0], [0, 0], [0, 0], [0, 0], [0, 0], [0, 0], [64, 0]],
                      [[0, 15], [0, 0], [0, 0], [0, 0], [0, 0], [85, 0], [0, 0], [0, 0]],
                      [[0, 0], [0, 0], [0, 0], [0, 0], [0, 18], [0, 0], [0, 0], [0, 82]]]
    ensures forall t, e, c :: 0 <= t < 4 && 0 <= e < 8 && 0 <= c < 2 ==> CombineAt(row, probs, t, e, c) == want[t][e][c]
  {
    Row3Slots(row);
    forall t, e, c | 0 <= t < 4 && 0 <= e < 8 && 0 <= c < 2
      ensures CombineAt(row, probs, t, e, c) == want[t][e][c]
    {
      PairHolds(row, t, e, c);
    }
  }
}

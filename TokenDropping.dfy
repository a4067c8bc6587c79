/**
 * Capacity-limited slot allocation for one batch row of a Mixture-of-Experts
 * layer: the specification that the mask generator is proved against.
 *
 * A row holds, for every token, the list of experts the router chose for it
 * (its top-k indices). The choices are walked in token-major order -- token 0's
 * choices in list order, then token 1's, and so on -- which is the order of the
 * flattened (token, choice) axis. Every choice takes the next free slot of its
 * expert: the slot of a choice is the number of earlier choices (in that order)
 * naming the same expert. A choice whose slot is at least the expert capacity
 * is dropped.
 *
 * Probabilities are integers (hundredths); they are copied, never rescaled.
 */
module TokenDropping {

  /** Number of occurrences of expert `e` in `s`. */
  function CountOf(s: seq<int>, e: int): (n: nat)
    ensures n <= |s|
    ensures e !in s ==> n == 0
  {
    if s == [] then 0
    else CountOf(s[..|s| - 1], e) + (if s[|s| - 1] == e then 1 else 0)
  }

  /** The rows of `rows` concatenated: the flattened (token, choice) axis. */
  function Flatten(rows: seq<seq<int>>): seq<int>
  {
    if rows == [] then [] else Flatten(rows[..|rows| - 1]) + rows[|rows| - 1]
  }

  /** The choices that come before choice `j` of token `t` in token-major order. */
  function Prefix(choices: seq<seq<int>>, t: nat, j: nat): seq<int>
    requires t < |choices| && j <= |choices[t]|
  {
    Flatten(choices[..t]) + choices[t][..j]
  }

  /**
   * Slot requested by choice `j` of token `t`: the running count of its expert
   * over the flattened axis, starting at 0.
   */
  function Slot(choices: seq<seq<int>>, t: nat, j: nat): nat
    requires t < |choices| && j < |choices[t]|
  {
    CountOf(Prefix(choices, t, j), choices[t][j])
  }

  /** Choice `j` of token `t` gets a slot (it is not dropped). */
  predicate Accepted(choices: seq<seq<int>>, t: nat, j: nat, capacity: nat)
    requires t < |choices| && j < |choices[t]|
  {
    Slot(choices, t, j) < capacity
  }

  /** Shape of one batch row: k choices per token, each naming an expert, and one probability per expert. */
  predicate ValidRow(choices: seq<seq<int>>, probs: seq<seq<int>>, k: nat, numExperts: nat)
  {
    && |probs| == |choices|
    && (forall t :: 0 <= t < |choices| ==> |choices[t]| == k && |probs[t]| == numExperts)
    && (forall t, j :: 0 <= t < |choices| && 0 <= j < |choices[t]| ==> 0 <= choices[t][j] < numExperts)
  }

  /** One of the first `m` choices of token `t` names expert `e` and holds slot `c`. */
  predicate HoldsBefore(choices: seq<seq<int>>, t: nat, e: int, c: nat, m: nat)
    requires t < |choices| && m <= |choices[t]|
  {
    m > 0 && (HoldsBefore(choices, t, e, c, m - 1) || (choices[t][m - 1] == e && Slot(choices, t, m - 1) == c))
  }

  /** Token `t` occupies slot `c` of expert `e`. */
  predicate Holds(choices: seq<seq<int>>, t: nat, e: int, c: nat)
    requires t < |choices|
  {
    HoldsBefore(choices, t, e, c, |choices[t]|)
  }

  /**
   * Combine-mask entry [t, e, c] of the row: the token's own probability for
   * the expert where the token holds that slot, zero elsewhere. Only slots below
   * the capacity exist in the mask, so a dropped choice leaves no entry.
   */
  function CombineAt(choices: seq<seq<int>>, probs: seq<seq<int>>, t: nat, e: nat, c: nat): int
    requires |probs| == |choices| && t < |choices| && e < |probs[t]|
  {
    if Holds(choices, t, e, c) then probs[t][e] else 0
  }

  /** Dispatch-mask entry [t, e, c]: the combine-mask entry is nonzero. */
  predicate DispatchAt(choices: seq<seq<int>>, probs: seq<seq<int>>, t: nat, e: nat, c: nat)
    requires |probs| == |choices| && t < |choices| && e < |probs[t]|
  {
    CombineAt(choices, probs, t, e, c) != 0
  }

  /**
   * Number of entries of `s` that name `e` and arrive while fewer than
   * `capacity` earlier entries named `e`: the tokens expert `e` accepts.
   */
  function AcceptedOf(s: seq<int>, e: int, capacity: nat): nat
  {
    if s == [] then 0
    else AcceptedOf(s[..|s| - 1], e, capacity)
         + (if s[|s| - 1] == e && CountOf(s[..|s| - 1], e) < capacity then 1 else 0)
  }

  /** Accepted choices naming `e` among the first `m` choices of token `t`. */
  function AcceptedInToken(choices: seq<seq<int>>, e: int, capacity: nat, t: nat, m: nat): nat
    requires t < |choices| && m <= |choices[t]|
  {
    if m == 0 then 0
    else AcceptedInToken(choices, e, capacity, t, m - 1)
         + (if choices[t][m - 1] == e && Accepted(choices, t, m - 1, capacity) then 1 else 0)
  }

  /** Accepted choices naming `e` among all choices of the first `t` tokens of the row. */
  function AcceptedChoices(choices: seq<seq<int>>, e: int, capacity: nat, t: nat): nat
    requires t <= |choices|
  {
    if t == 0 then 0
    else AcceptedChoices(choices, e, capacity, t - 1) + AcceptedInToken(choices, e, capacity, t - 1, |choices[t - 1]|)
  }

  /**
   * Expert capacity of a batch row: tokens_per_batch / num_experts * capacity_factor,
   * with tokens_per_batch = seq_len * k. Only an exact division is covered.
   */
  function ExpertCapacity(seqLen: nat, k: nat, numExperts: nat, capacityFactor: nat): (c: nat)
    requires numExperts > 0 && (seqLen * k) % numExperts == 0
    ensures c * numExperts == seqLen * k * capacityFactor
  {
    var perExpert := (seqLen * k) / numExperts;
    assert perExpert * numExperts == seqLen * k;
    assert perExpert * capacityFactor * numExperts == perExpert * numExperts * capacityFactor;
    perExpert * capacityFactor
  }

  // ---------------------------------------------------------------------------
  // Sequence facts

  lemma CountOfSnoc(s: seq<int>, x: int, e: int)
    ensures CountOf(s + [x], e) == CountOf(s, e) + (if x == e then 1 else 0)
  {
    assert (s + [x])[..|s|] == s;
  }

  lemma {:induction false} CountOfMonotone(a: seq<int>, b: seq<int>, e: int)
    requires a <= b
    ensures CountOf(a, e) <= CountOf(b, e)
  {
    if |a| < |b| {
      assert a <= b[..|b| - 1];
      CountOfMonotone(a, b[..|b| - 1], e);
    } else {
      assert a == b;
    }
  }

  lemma FlattenSnoc(rows: seq<seq<int>>, t: nat)
    requires t < |rows|
    ensures Flatten(rows[..t + 1]) == Flatten(rows[..t]) + rows[t]
  {
    assert rows[..t + 1][..t] == rows[..t];
  }

  lemma {:induction false} FlattenMonotone(rows: seq<seq<int>>, t: nat, u: nat)
    requires t <= u <= |rows|
    ensures Flatten(rows[..t]) <= Flatten(rows[..u])
  {
    if t < u {
      FlattenMonotone(rows, t, u - 1);
      FlattenSnoc(rows, u - 1);
    }
  }

  lemma PrefixSnoc(choices: seq<seq<int>>, t: nat, j: nat)
    requires t < |choices| && j < |choices[t]|
    ensures Prefix(choices, t, j + 1) == Prefix(choices, t, j) + [choices[t][j]]
  {
    assert choices[t][..j + 1] == choices[t][..j] + [choices[t][j]];
  }

  lemma PrefixWhole(choices: seq<seq<int>>, t: nat)
    requires t < |choices|
    ensures Prefix(choices, t, |choices[t]|) == Flatten(choices[..t + 1])
  {
    FlattenSnoc(choices, t);
    assert choices[t][..|choices[t]|] == choices[t];
  }

  /** Occurrences in a concatenation add up. */
  lemma {:induction false} CountOfAppend(a: seq<int>, b: seq<int>, e: int)
    ensures CountOf(a + b, e) == CountOf(a, e) + CountOf(b, e)
  {
    if b != [] {
      CountOfAppend(a, b[..|b| - 1], e);
      assert (a + b)[..|a + b| - 1] == a + b[..|b| - 1];
    } else {
      assert a + b == a;
    }
  }

  /** A choice and everything before it come before any later choice. */
  lemma PrefixPrecedes(choices: seq<seq<int>>, t1: nat, j1: nat, t2: nat, j2: nat)
    requires t1 < |choices| && j1 < |choices[t1]|
    requires t2 < |choices| && j2 < |choices[t2]|
    requires t1 < t2 || (t1 == t2 && j1 < j2)
    ensures Prefix(choices, t1, j1) + [choices[t1][j1]] <= Prefix(choices, t2, j2)
  {
    PrefixSnoc(choices, t1, j1);
    var p1 := Prefix(choices, t1, j1 + 1);
    if t1 == t2 {
      assert choices[t1][..j1 + 1] <= choices[t1][..j2];
    } else {
      PrefixWhole(choices, t1);
      assert p1 <= Prefix(choices, t1, |choices[t1]|);
      FlattenMonotone(choices, t1 + 1, t2);
      assert Flatten(choices[..t2]) <= Prefix(choices, t2, j2);
    }
  }

  /** Token `t` holds slot `c` of expert `e` through one of its first `m` choices. */
  lemma {:induction false} HoldsBeforeWitness(choices: seq<seq<int>>, t: nat, e: int, c: nat, m: nat)
    requires t < |choices| && m <= |choices[t]|
    ensures HoldsBefore(choices, t, e, c, m)
            <==> exists j :: 0 <= j < m && choices[t][j] == e && Slot(choices, t, j) == c
  {
    if m > 0 {
      HoldsBeforeWitness(choices, t, e, c, m - 1);
    }
  }

  // ---------------------------------------------------------------------------
  // Slot allocation

  /**
   * Slots of one expert are handed out in token-major order: of two choices
   * naming the same expert, the earlier one (lower token, or same token and
   * earlier in its list) gets the strictly lower slot.
   */
  lemma SlotsFollowTokenMajorOrder(choices: seq<seq<int>>, t1: nat, j1: nat, t2: nat, j2: nat)
    requires t1 < |choices| && j1 < |choices[t1]|
    requires t2 < |choices| && j2 < |choices[t2]|
    requires t1 < t2 || (t1 == t2 && j1 < j2)
    requires choices[t1][j1] == choices[t2][j2]
    ensures Slot(choices, t1, j1) < Slot(choices, t2, j2)
  {
    var e := choices[t1][j1];
    PrefixPrecedes(choices, t1, j1, t2, j2);
    CountOfSnoc(Prefix(choices, t1, j1), e, e);
    CountOfMonotone(Prefix(choices, t1, j1) + [e], Prefix(choices, t2, j2), e);
  }

  /** The first choice naming an expert gets slot 0. */
  lemma FirstChoiceGetsSlotZero(choices: seq<seq<int>>, t: nat, j: nat)
    requires t < |choices| && j < |choices[t]|
    requires forall u, i :: 0 <= u < |choices| && 0 <= i < |choices[u]| && (u < t || (u == t && i < j))
               ==> choices[u][i] != choices[t][j]
    ensures Slot(choices, t, j) == 0
  {
    var e := choices[t][j];
    var p := Prefix(choices, t, j);
    var before := Flatten(choices[..t]);
    forall n | 0 <= n < |p|
      ensures p[n] != e
    {
      if n < |before| {
        var u, i := FlatIndex(choices, t, n);
      } else {
        assert p[n] == choices[t][n - |before|];
      }
    }
  }

  /** Position `n` of the flattened first `t` rows is choice `i` of some token `u < t`. */
  lemma {:induction false} FlatIndex(choices: seq<seq<int>>, t: nat, n: nat) returns (u: nat, i: nat)
    requires t <= |choices| && n < |Flatten(choices[..t])|
    ensures u < t && i < |choices[u]| && Flatten(choices[..t])[n] == choices[u][i]
  {
    FlattenSnoc(choices, t - 1);
    var before := Flatten(choices[..t - 1]);
    if n < |before| {
      u, i := FlatIndex(choices, t - 1, n);
    } else {
      u, i := t - 1, n - |before|;
    }
  }

  /**
   * No slot holds two choices: two distinct choices that name the same expert
   * never get the same slot.
   */
  lemma SlotsInjective(choices: seq<seq<int>>, t1: nat, j1: nat, t2: nat, j2: nat)
    requires t1 < |choices| && j1 < |choices[t1]|
    requires t2 < |choices| && j2 < |choices[t2]|
    requires choices[t1][j1] == choices[t2][j2]
    requires Slot(choices, t1, j1) == Slot(choices, t2, j2)
    ensures t1 == t2 && j1 == j2
  {
    if t1 < t2 || (t1 == t2 && j1 < j2) {
      SlotsFollowTokenMajorOrder(choices, t1, j1, t2, j2);
    } else if t2 < t1 || (t1 == t2 && j2 < j1) {
      SlotsFollowTokenMajorOrder(choices, t2, j2, t1, j1);
    }
  }

  /** Each (expert, slot) of the mask belongs to at most one token. */
  lemma SlotHeldByOneToken(choices: seq<seq<int>>, t1: nat, t2: nat, e: int, c: nat)
    requires t1 < |choices| && t2 < |choices|
    requires Holds(choices, t1, e, c) && Holds(choices, t2, e, c)
    ensures t1 == t2
  {
    HoldsBeforeWitness(choices, t1, e, c, |choices[t1]|);
    HoldsBeforeWitness(choices, t2, e, c, |choices[t2]|);
    var j1 :| 0 <= j1 < |choices[t1]| && choices[t1][j1] == e && Slot(choices, t1, j1) == c;
    var j2 :| 0 <= j2 < |choices[t2]| && choices[t2][j2] == e && Slot(choices, t2, j2) == c;
    SlotsInjective(choices, t1, j1, t2, j2);
  }

  /**
   * An expert accepts exactly min(demand, capacity) of the choices naming it:
   * never more than its capacity, and it refuses nothing while it has room.
   */
  lemma {:induction false} AcceptedIsCappedDemand(s: seq<int>, e: int, capacity: nat)
    ensures AcceptedOf(s, e, capacity) == if CountOf(s, e) < capacity then CountOf(s, e) else capacity
  {
    if s != [] {
      AcceptedIsCappedDemand(s[..|s| - 1], e, capacity);
    }
  }

  lemma AcceptedOfSnoc(s: seq<int>, x: int, e: int, capacity: nat)
    ensures AcceptedOf(s + [x], e, capacity)
            == AcceptedOf(s, e, capacity) + (if x == e && CountOf(s, e) < capacity then 1 else 0)
  {
    assert (s + [x])[..|s|] == s;
  }

  lemma {:induction false} AcceptedOfPrefix(choices: seq<seq<int>>, e: int, capacity: nat, t: nat, m: nat)
    requires t < |choices| && m <= |choices[t]|
    ensures AcceptedOf(Prefix(choices, t, m), e, capacity)
            == AcceptedOf(Flatten(choices[..t]), e, capacity) + AcceptedInToken(choices, e, capacity, t, m)
  {
    if m == 0 {
      assert Prefix(choices, t, 0) == Flatten(choices[..t]) by { assert choices[t][..0] == []; }
    } else {
      AcceptedOfPrefix(choices, e, capacity, t, m - 1);
      PrefixSnoc(choices, t, m - 1);
      AcceptedOfSnoc(Prefix(choices, t, m - 1), choices[t][m - 1], e, capacity);
    }
  }

  /**
   * The running acceptance count over the flattened axis is the number of
   * choices naming the expert that get a slot below the capacity.
   */
  lemma {:induction false} AcceptedOfCountsAcceptedChoices(choices: seq<seq<int>>, e: int, capacity: nat, t: nat)
    requires t <= |choices|
    ensures AcceptedOf(Flatten(choices[..t]), e, capacity) == AcceptedChoices(choices, e, capacity, t)
  {
    if t == 0 {
      assert choices[..0] == [];
    } else {
      AcceptedOfCountsAcceptedChoices(choices, e, capacity, t - 1);
      AcceptedOfPrefix(choices, e, capacity, t - 1, |choices[t - 1]|);
      PrefixWhole(choices, t - 1);
    }
  }

  /**
   * The per-row capacity bound: an expert accepts at most `capacity` of the
   * row's choices, counted choice by choice or over the flattened axis.
   */
  lemma ExpertNeverOverCapacity(choices: seq<seq<int>>, e: int, capacity: nat)
    ensures AcceptedOf(Flatten(choices), e, capacity) <= capacity
    ensures AcceptedChoices(choices, e, capacity, |choices|) <= capacity
  {
    AcceptedIsCappedDemand(Flatten(choices), e, capacity);
    AcceptedOfCountsAcceptedChoices(choices, e, capacity, |choices|);
    assert choices[..|choices|] == choices;
  }

  // ---------------------------------------------------------------------------
  // The masks

  /**
   * An accepted choice puts its own probability, unchanged, at its slot of its
   * expert; when the token names each expert once, that is its only entry for
   * the expert, whatever happened to the token's other choices (no
   * renormalisation after a drop).
   */
  lemma AcceptedChoiceKeepsWeight(choices: seq<seq<int>>, probs: seq<seq<int>>, k: nat, numExperts: nat,
                                  capacity: nat, t: nat, j: nat)
    requires ValidRow(choices, probs, k, numExperts)
    requires t < |choices| && j < k
    requires forall i :: 0 <= i < k && i != j ==> choices[t][i] != choices[t][j]
    requires Accepted(choices, t, j, capacity)
    ensures CombineAt(choices, probs, t, choices[t][j], Slot(choices, t, j)) == probs[t][choices[t][j]]
    ensures forall c :: 0 <= c < capacity && c != Slot(choices, t, j) ==> CombineAt(choices, probs, t, choices[t][j], c) == 0
  {
    var e := choices[t][j];
    assert forall i :: 0 <= i < k && choices[t][i] == e ==> i == j;
    forall c | 0 <= c < capacity
      ensures Holds(choices, t, e, c) <==> c == Slot(choices, t, j)
    {
      HoldsBeforeWitness(choices, t, e, c, k);
    }
  }

  /**
   * A choice that arrives after its expert is full is dropped: when the token
   * names the expert once, its row for that expert is zero in both masks.
   */
  lemma DroppedChoiceHasZeroRow(choices: seq<seq<int>>, probs: seq<seq<int>>, k: nat, numExperts: nat,
                                capacity: nat, t: nat, j: nat)
    requires ValidRow(choices, probs, k, numExperts)
    requires t < |choices| && j < k
    requires forall i :: 0 <= i < k && i != j ==> choices[t][i] != choices[t][j]
    requires !Accepted(choices, t, j, capacity)
    ensures forall c :: 0 <= c < capacity ==> CombineAt(choices, probs, t, choices[t][j], c) == 0
    ensures forall c :: 0 <= c < capacity ==> !DispatchAt(choices, probs, t, choices[t][j], c)
  {
    var e := choices[t][j];
    assert forall i :: 0 <= i < k && choices[t][i] == e ==> i == j;
    forall c | 0 <= c < capacity
      ensures !Holds(choices, t, e, c)
    {
      HoldsBeforeWitness(choices, t, e, c, k);
    }
  }

  /** A nonzero combine entry is the token's own probability for one of its chosen experts. */
  lemma CombineOnlyAtChosenExperts(choices: seq<seq<int>>, probs: seq<seq<int>>, t: nat, e: nat, c: nat)
    requires |probs| == |choices| && t < |choices| && e < |probs[t]|
    requires CombineAt(choices, probs, t, e, c) != 0
    ensures e in choices[t]
    ensures CombineAt(choices, probs, t, e, c) == probs[t][e]
  {
    HoldsBeforeWitness(choices, t, e, c, |choices[t]|);
    var j :| 0 <= j < |choices[t]| && choices[t][j] == e && Slot(choices, t, j) == c;
  }
}

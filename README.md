# MoE routing: capacity-limited masks and grouped top-k routing

A Dafny model of the two routing components of MaxText's Mixture-of-Experts
layer that `MaxText/tests/moe_test.py` pins down with full input and
expected-output tensors:

- **Token dropping** (`generate_masks`, `TokenDroppingTest`). Each batch row
  has a per-expert capacity. Within the row, every (token, choice) pair takes
  the next free slot of its expert, in token-major order: token 0's choices in
  list order, then token 1's, and so on. A choice whose expert is full is
  dropped. The combine mask holds the choice's probability at
  `[b, token, expert, slot]`; the dispatch mask is the combine mask read as
  booleans.
  - `TokenDropping.dfy` defines that allocation as functions and proves its
    properties.
  - `MaskGeneration.dfy` fills the masks imperatively, with one array of
    per-expert counters per row, and is proved to produce those functions.
- **Grouped top-k routing** (`deepseek_routing`, `DeepSeekRoutingTest`). This
  part is pure.
  - Experts are split into contiguous groups, and each group is scored by the
    sum of its two best gate scores.
  - The best groups are kept and every other expert is masked to minus
    infinity.
  - The token's experts are the top k of the masked scores: descending, with
    an equal score going to the lower index.
  - The weights are read from the separate pre-bias logits at those indices.
  - `Selection.dfy` defines top-k selection and proves it is unique.
    `GroupedRouting.dfy` builds the router on it.

Scores, probabilities and logits are integers in hundredths (0.20 is 20).
The pre-bias logits of the test, `gate_logits - 0.5`, become the gate scores
minus 50. `MaskExamples.dfy` and `RoutingExamples.dfy` state the test's
tensors as lemmas.

The expected masks fix the allocation order. An alternative order, all
first choices of the batch and then all second choices, is ruled out by the
data, and the model follows the data:

- In row 2 (moe_test.py:141-142), token 0 names expert 2 second and token 1
  names it first. Token 0 still gets slot 0 and token 1 gets slot 1.
- Capacity is counted per batch row: expert 0, full in row 0, hands out
  slot 0 again in rows 1 and 3.

One comment of the test disagrees with its data. The comment at
moe_test.py:207 gives 0.7 as the top-2 sum of `[0.20, 0.10, 0.05, 0.10]`.
The two largest entries sum to 0.30, which is what the model computes
(`RoutingExamples.Token0GroupScores`). The group is not kept either way, so
the expected indices are unaffected.

## Model

| member | source | states |
|---|---|---|
| TokenDropping.ExpertCapacity | MaxText/tests/moe_test.py:68-69 | when num_experts divides seq_len * k, the capacity is the per-expert share times the factor: c * num_experts == seq_len * k * capacity_factor |
| TokenDropping.CountOfAppend | MaxText/tests/moe_test.py:125-150 | the running count of an expert over concatenated choice lists is the sum of the counts |
| TokenDropping.SlotsFollowTokenMajorOrder | MaxText/tests/moe_test.py:141-142 | of two choices naming the same expert, the earlier one in token-major order (lower token, or same token and earlier in its list) gets a strictly lower slot |
| TokenDropping.FirstChoiceGetsSlotZero | MaxText/tests/moe_test.py:125-150 | the first choice in the row naming an expert gets slot 0 |
| TokenDropping.SlotsInjective | MaxText/tests/moe_test.py:125-150 | two choices naming the same expert with the same slot are the same choice: no slot holds two choices |
| TokenDropping.SlotHeldByOneToken | MaxText/tests/moe_test.py:125-150 | each (expert, slot) entry of a row's masks belongs to at most one token |
| TokenDropping.AcceptedIsCappedDemand | MaxText/tests/moe_test.py:107-123 | an expert accepts exactly min(number of choices naming it, capacity) of a choice sequence |
| TokenDropping.ExpertNeverOverCapacity | MaxText/tests/moe_test.py:68-69 | no expert accepts more than its capacity: neither the count over the row's flattened axis nor the number of accepted (token, choice) pairs naming it exceeds it |
| TokenDropping.AcceptedOfCountsAcceptedChoices | MaxText/tests/moe_test.py:107-123 | the accepted count of an expert over the flattened choices of the first t tokens equals the number of those tokens' choices that name it and are accepted |
| TokenDropping.AcceptedChoiceKeepsWeight | MaxText/tests/moe_test.py:107-123 | an accepted choice puts its own probability, unchanged, at its slot; the token's other slots for that expert are 0 (no renormalisation) |
| TokenDropping.DroppedChoiceHasZeroRow | MaxText/tests/moe_test.py:107-123 | a choice arriving after its expert is full leaves that expert's row zero in the combine mask and false in the dispatch mask |
| TokenDropping.CombineOnlyAtChosenExperts | MaxText/tests/moe_test.py:126-152 | a nonzero combine entry lies at one of the token's chosen experts and equals its probability there |
| MaskGeneration.GenerateMasks | MaxText/tests/moe_test.py:155-158 | returns two newly allocated masks of shape batch x seq_len x experts x capacity; combine[b,t,e,c] is the row-b allocation's entry (counted per row), dispatch[b,t,e,c] is combine[b,t,e,c] != 0 |
| MaskGeneration.FillRow | MaxText/tests/moe_test.py:125-150 | with fresh per-expert counters, fills row b of the combine mask with that row's allocation and leaves every other row unchanged |
| MaskGeneration.FillToken | MaxText/tests/moe_test.py:125-150 | walks one token's choices in list order: counters advance by the token's choices, and its entries become the allocation's entries |
| MaskGeneration.TakeChoice | MaxText/tests/moe_test.py:125-150 | a choice takes its expert's count as its slot, writes its probability there if the slot is below capacity, and advances the count |
| MaskExamples.TestCapacity | MaxText/tests/moe_test.py:68-69 | 4 tokens, 2 choices, 8 experts and factor 2 give capacity 2 |
| MaskExamples.PairHolds | MaxText/tests/moe_test.py:125-150 | a token with two choices holds exactly the two (expert, slot) pairs its choices request |
| MaskExamples.Row0Slots | MaxText/tests/moe_test.py:129-132 | row 0: slots 0,0 / 1,0 / 0,2 / 0,1 for the choices of tokens 0-3 (expert 0 reaches slot 2 at token 2) |
| MaskExamples.Row0Drops | MaxText/tests/moe_test.py:107-111 | row 0: only token 2's second choice (expert 0) is dropped |
| MaskExamples.Row0Masks | MaxText/tests/moe_test.py:129-132 | row 0: every combine entry [t, e, c] equals the expected tensor, 0.68 at expert 0 slot 1 for token 1 and at expert 5 slot 1 for token 3 included |
| MaskExamples.Row1Slots | MaxText/tests/moe_test.py:135-138 | row 1: slots 0,0 / 0,1 / 0,0 / 0,2 (counting restarts, and expert 1 reaches slot 2 at token 3) |
| MaskExamples.Row1Drops | MaxText/tests/moe_test.py:112-115 | row 1: only token 3's second choice (expert 1) is dropped |
| MaskExamples.Row1Masks | MaxText/tests/moe_test.py:135-138 | row 1: every combine entry equals the expected tensor, 0.79 at expert 1 slot 1 for token 1 included; token 3 keeps 0.89 at expert 7 alone |
| MaskExamples.Row2Slots | MaxText/tests/moe_test.py:141-144 | row 2: slots 0,0 / 1,0 / 0,2 / 0,3 (expert 2 hands out slots 0-3 in token order) |
| MaskExamples.Row2Drops | MaxText/tests/moe_test.py:116-119 | row 2: only the second choices of tokens 2 and 3 (expert 2) are dropped |
| MaskExamples.Row2Masks | MaxText/tests/moe_test.py:141-144 | row 2: every combine entry equals the expected tensor; tokens 2 and 3 have zero expert 2 rows |
| MaskExamples.Row3Slots | MaxText/tests/moe_test.py:147-150 | row 3: slots 0,0 / 0,0 / 0,1 / 1,1 (second arrivals take slot 1) |
| MaskExamples.Row3Drops | MaxText/tests/moe_test.py:120-123 | row 3: no choice is dropped; with rows 0-2 that makes the test's four dropped choices (1 + 1 + 2 + 0) |
| MaskExamples.Row3Masks | MaxText/tests/moe_test.py:147-150 | row 3: every combine entry equals the expected tensor, tokens 0 and 1 included |
| Selection.Insert | MaxText/tests/moe_test.py:218-219 | inserting an index into a ranked list keeps it ranked and adds exactly that index |
| Selection.RankOrder | MaxText/tests/moe_test.py:218-219 | the first n indices listed in decreasing rank, each once |
| Selection.TopK | MaxText/tests/moe_test.py:218-219 | k indices in descending score, an equal score going to the lower index, and every other index ranking behind all of them |
| Selection.TopKUnique | MaxText/tests/moe_test.py:218-219 | any k indices that are ranked and dominate the rest are exactly TopK: the selection is fully determined, ties included |
| Selection.RankedByValues | MaxText/tests/moe_test.py:218-219 | where the scores are finite values, a top-k list orders and beats the other indices by those values |
| GroupedRouting.Group | MaxText/tests/moe_test.py:206-216 | group g is the contiguous slice of group-size experts starting at g * group size |
| GroupedRouting.ExpertInItsGroup | MaxText/tests/moe_test.py:206-216 | expert i sits at position i % group size of group i / group size, the group masking reads off its index |
| GroupedRouting.Top2SumIsLargestPair | MaxText/tests/moe_test.py:206-216 | a group's score is the largest sum of two distinct entries: no pair exceeds it and some pair reaches it |
| GroupedRouting.GroupScores | MaxText/tests/moe_test.py:206-216 | one score per group, each its top-2 sum |
| GroupedRouting.KeptGroups | MaxText/tests/moe_test.py:206-216 | topk_routing_group distinct groups, each in range |
| GroupedRouting.KeptGroupsAreBest | MaxText/tests/moe_test.py:206-216 | the kept groups are listed by descending group score (ties to the lower group), and every group left out scores no more than any kept one |
| GroupedRouting.MaskedScores | MaxText/tests/moe_test.py:206-218 | experts in kept groups keep their gate score; all others become minus infinity |
| GroupedRouting.RouteToken | MaxText/tests/moe_test.py:219-221 | k indices, the top k of the masked scores, chosen without looking at the pre-bias logits; weight a is pre_bias[indices[a]] |
| GroupedRouting.MembersOfGroups | MaxText/tests/moe_test.py:206-216 | distinct groups hold |groups| * group-size distinct experts, each in one of those groups |
| GroupedRouting.EligibleExperts | MaxText/tests/moe_test.py:206-216 | the kept groups hold topk_routing_group * group-size distinct eligible experts |
| GroupedRouting.IneligibleNeedsRoom | MaxText/tests/moe_test.py:218-219 | a masked-out expert is selected only when every expert of the kept groups is selected, so only when k exceeds their number |
| GroupedRouting.SelectedFromKeptGroups | MaxText/tests/moe_test.py:218-219 | when the kept groups hold at least k experts, every selected expert lies in a kept group |
| GroupedRouting.SelectionRanksRawScores | MaxText/tests/moe_test.py:218-219 | then the selection is the top k of the kept groups by raw gate score: descending, ties to the lower index, every unselected eligible expert behind |
| RoutingExamples.Token0GroupScores | MaxText/tests/moe_test.py:206-210 | token 0's group scores are 30, 90, 81, 100 |
| RoutingExamples.Token0KeptGroups | MaxText/tests/moe_test.py:206-210 | token 0 keeps groups 3 and 1 |
| RoutingExamples.Token0Masked | MaxText/tests/moe_test.py:206-210 | token 0's masked scores: experts 4-7 and 12-15 keep their scores, the rest are minus infinity |
| RoutingExamples.Token0Routing | MaxText/tests/moe_test.py:219-220 | token 0 routes to experts 13, 5, 6, 14 with weights 30, 10, -20, -30 |
| RoutingExamples.Token1GroupScores | MaxText/tests/moe_test.py:212-216 | token 1's group scores are 88, 42, 85, 42 |
| RoutingExamples.Token1KeptGroups | MaxText/tests/moe_test.py:212-216 | token 1 keeps groups 0 and 2 |
| RoutingExamples.Token1Masked | MaxText/tests/moe_test.py:212-216 | token 1's masked scores: experts 0-3 and 8-11 keep their scores, the rest are minus infinity |
| RoutingExamples.Token1Routing | MaxText/tests/moe_test.py:219-220 | token 1 routes to experts 0, 8, 1, 9 (1 and 9 tie at 20; the lower index first) with weights 18, 15, -30, -30 |
| RoutingExamples.DeepSeekRoutingExample | MaxText/tests/moe_test.py:194-227 | the whole test: kept groups {3, 1} and {0, 2}, indices [13, 5, 6, 14] and [0, 8, 1, 9], weights gathered from gate - 50 |

## Left out

- `moe.RoutedMoE.generate_masks` and `deepseek_routing` themselves live in `MaxText/layers/moe.py`, which is not part of this model. The model is built from the behaviour the tests fix, and nothing beyond it is invented.
- TokenDropping.ExpertCapacity: defined only when num_experts divides seq_len * k, as in the test (8 choices over 8 experts). How a non-integral per-expert share is rounded, and a fractional capacity factor, are not modelled.
- Floating point: probabilities, logits and scores are exact integers in hundredths, so the `allclose` tolerances (moe_test.py:159, 223-226) and the bfloat16/float32 dtypes are not modelled.
- The softmax that produces `softmax_probs` and the bias added to the gate logits come from code outside the test. Both matrices are inputs here.
- TokenDropping.AcceptedChoiceKeepsWeight and TokenDropping.DroppedChoiceHasZeroRow require the token to name the expert once, as in every test row. For a token listing an expert twice, the masks are still defined by `CombineAt`, but these two lemmas say nothing about it.
- Configuration errors (groups not dividing the experts, fewer than two experts per group, more kept groups than groups, k above the number of experts) are preconditions (`ValidConfig`), not modelled error results. The test never reaches them.
- GroupedRouting.SelectedFromKeptGroups and SelectionRanksRawScores assume the kept groups hold at least k experts, as in the test (8 experts for k = 4). With fewer, `IneligibleNeedsRoom` states only that a masked-out expert is selected after every expert of the kept groups. That the masked-out experts then come in index order follows from `TopK`'s tie rule on their equal minus-infinity scores; no separate lemma states it.
- `test_random_routing` depends on the JAX PRNG and checks only a statistical balance.
- `MoeLoopBlock`, the megablox, ragged-dot, dense and expert-parallel tests, `pyconfig`, device meshes and initialisers are neural-network forward passes, kernels and configuration, outside the routing core.
- The batch and sequence axes of `deepseek_routing` are not modelled as a tensor function. Routing is per token (`RouteToken`), and the test's one batch row of two tokens is stated token by token.
- Slot assignment and the masks are modelled on unbounded integers. No counter or index overflows.

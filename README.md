# Bluff candidates on the flop

A model, in Dafny, of the bluffing rules of pypokertools
(`src/pypokertools/examples/bluffing.py`). A pair of hole cards is a *bluff candidate*
on a flop when it has no pair the hole cards take part in, no two pair or better among
the five cards, and both hole cards in a three-card flush draw and in a three-card
straight draw. The scanner walks a range of hole cards, or the canonical starting hands
when no range is given, and yields the candidates in order. It skips any hand whose
cards conflict with the flop.

- `cards.dfy` (module `Cards`): cards, hole cards and flops as values. It also holds the
  five-card hand (hole cards first, then the flop) and the "no conflicting cards"
  condition that the card library's `five_cards` decorator checks.
- `bluffing.dfy` (module `Bluffing`): the collaborators as a `Library` value, the bluff
  test `IsBluffCandidate`, the scanner `GetBluffCandidates` (a loop), its specification
  `Candidates`, and the lemmas about them.

The hand evaluators `is_onepair`, `is_twopair_or_better`, `is_3flush` and `is_3straight`,
and the table `CANONICAL_HOLECARDS`, live in modules that are not part of this model.
They are fields of the `Library` datatype: function values and a sequence that the model
leaves uninterpreted. Every result holds for every choice of them. The conflict that
`five_cards` raises as the `ConflictingCards` exception becomes the `ConflictingCards`
case of the `Verdict` result type.

The decorator rejects a repeated card among all five cards. So a pair of identical hole
cards, or a flop with a repeated card, also counts as a conflict, not only a hole card
that lies on the flop. The model follows the code here. `HoleOnFlopIsTheOnlyConflict`
shows that the narrower reading agrees with the code whenever the hole cards and the flop
are each free of repeats. `RepeatedFlopFindsNothing` shows the consequence for a flop with a
repeated card: nothing is found.

## Model

| member | source | states |
|---|---|---|
| `Cards.Hand` | src/pypokertools/examples/bluffing.py:33 | the hand given to the two-pair check has five cards: the two hole cards first, then the three flop cards, in the order given |
| `Cards.HoleCards.Cards` | src/pypokertools/examples/bluffing.py:33 | the hole-card tuple that `chain` reads first: the two hole cards, in the order given |
| `Cards.Flop.Cards` | src/pypokertools/examples/bluffing.py:33 | the flop tuple that `chain` reads second: the three flop cards, in the order given |
| `Cards.Distinct` | src/pypokertools/examples/bluffing.py:16 | no card occurs twice in the sequence: the repeated-card check that `five_cards` performs (its meaning is proved by the two lemmas below) |
| `Cards.HandKeepsEveryCard` | src/pypokertools/examples/bluffing.py:33 | building the hand drops no card and adds none: its multiset is the hole cards' plus the flop's |
| `Cards.DistinctIffNoRepeat` | src/pypokertools/examples/bluffing.py:16 | the conflict check passes exactly when no two positions of the hand hold the same (rank, suit) card |
| `Cards.DistinctIffSingleOccurrences` | src/pypokertools/examples/bluffing.py:16 | the conflict check passes exactly when every card occurs at most once, so it does not depend on card order |
| `Cards.HoleOnFlopIsTheOnlyConflict` | src/pypokertools/examples/bluffing.py:16-17 | when the hole cards differ from each other and the flop has no repeat, a conflict arises exactly when a hole card lies on the flop |
| `Bluffing.IsBluffCandidate` | src/pypokertools/examples/bluffing.py:16-39 | the result is `ConflictingCards` exactly when the five-card hand repeats a card; otherwise it is true exactly when `is_onepair(hole, flop, exclude_board=True)` is false, `is_twopair_or_better(hand)` is false, `is_3flush(hole, flop, 2)` holds and `is_3straight(hole, flop, 2)` holds (2 is `RequiredHoleCards`) |
| `Bluffing.ConflictIffRepeatedCard` | src/pypokertools/examples/bluffing.py:16-17 | the bluff test fails with `ConflictingCards` exactly when two of the five positions (two hole cards, three flop cards) hold the same card |
| `Bluffing.VerdictIgnoresCardOrder` | src/pypokertools/examples/bluffing.py:33-39 | reordering the hole cards or the flop cards leaves the outcome unchanged, conflict included, when the four evaluators answer the same on both orderings |
| `Bluffing.Candidates` | src/pypokertools/examples/bluffing.py:43-48 | the scanner's specification yields at most as many hands as it scans |
| `Bluffing.CandidatesSound` | src/pypokertools/examples/bluffing.py:43-46 | every yielded hand comes from the scanned range, does not conflict with the flop and passes the bluff test |
| `Bluffing.CandidatesComplete` | src/pypokertools/examples/bluffing.py:43-46 | every scanned hand that passes the bluff test without conflict is yielded |
| `Bluffing.CandidatesExactly` | src/pypokertools/examples/bluffing.py:43-48 | a hand is yielded if and only if it is in the scanned range and the bluff test returns true; a conflicting hand, or one outside the range, is never yielded |
| `Bluffing.CandidatesKeepOrder` | src/pypokertools/examples/bluffing.py:43-46 | the output is the scanned range restricted to an increasing list of positions, and those positions are exactly the ones whose hand passes the bluff test |
| `Bluffing.CandidatesOfConcat` | src/pypokertools/examples/bluffing.py:43-48 | scanning one range after another yields the first range's candidates followed by the second's |
| `Bluffing.ConflictIsSkipped` | src/pypokertools/examples/bluffing.py:44-48 | a conflicting hand is dropped without ending the scan: the hands after it are still examined and yielded |
| `Bluffing.RepeatedFlopFindsNothing` | src/pypokertools/examples/bluffing.py:42-48 | on a flop that repeats a card, every hand conflicts, so nothing is yielded |
| `Bluffing.GetBluffCandidates` | src/pypokertools/examples/bluffing.py:42-48 | the loop's output equals `Candidates` of the given range when that range is present and non-empty, and `Candidates` of the canonical hole cards when the range is absent or empty |

## Left out

- The bodies of `is_onepair`, `is_twopair_or_better`, `is_3flush` and `is_3straight`: their modules are not part of this model. They are uninterpreted fields of `Library`, so no flush or straight semantics is assumed.
- The contents and order of `CANONICAL_HOLECARDS`: the table is not part of this model. `Library.canonicalHoleCards` stands for its values in the table's iteration order.
- The docstring examples (`Qd Jd` on `Kc 2d 2h` and the two others): they depend on the evaluators above and on card parsing, so they cannot be stated over uninterpreted evaluators.
- Card string parsing (`holecards('Qd Jd')`, `flop(...)`) and the decorator machinery itself. Only their effect, the repeated-card check, is modelled.
- Generator laziness: the scanner returns the whole finite sequence that the generator would yield. Stopping the iteration early is not modelled.
- Failures other than `ConflictingCards`, for instance an evaluator raising: the evaluators are total functions here, so such failures cannot arise.
- Python truthiness of `range`: it is modelled as `Option<seq<HoleCards>>`, and absent or empty means falsy. An iterator or generator passed as `range` is always truthy, even when it yields nothing, so the Python code then scans nothing rather than the canonical table. That case is not modelled.
- Rank encoding: the rank is an integer from 2 to 14 and the suit one of four values. The library's own card representation is not part of this model; only card equality matters to the code modelled.
- VerdictIgnoresCardOrder: requires that the four evaluators answer the same on both orderings, because their code is not part of this model; only the conflict check's order-independence is proved outright.

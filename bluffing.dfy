/** Bluff candidates: hands with no made value from the hole cards but with both hole
    cards in a three-card flush draw and a three-card straight draw on the flop.

    The hand-property evaluators and the table of canonical starting hands belong to the
    card library, whose code is not part of this model; they are passed in as a `Library`
    value whose fields are left uninterpreted. */
module Bluffing {
  import opened Cards

  datatype Option<T> = None | Some(value: T)

  /** The collaborators of the bluffing rules, as the card library exposes them. */
  datatype Library = Library(
    /** is_onepair(holecards, flop, exclude_board) */
    isOnePair: (HoleCards, Flop, bool) -> bool,
    /** is_twopair_or_better(hand) on the five-card hand */
    isTwoPairOrBetter: seq<Card> -> bool,
    /** is_3flush(holecards, flop, required_holecards) */
    is3Flush: (HoleCards, Flop, nat) -> bool,
    /** is_3straight(holecards, flop, required_holecards) */
    is3Straight: (HoleCards, Flop, nat) -> bool,
    /** the values of CANONICAL_HOLECARDS, in the table's order */
    canonicalHoleCards: seq<HoleCards>)

  /** Both hole cards must take part in the flush draw and in the straight draw. */
  const RequiredHoleCards: nat := 2

  /** Outcome of the bluff test: a verdict, or the card library's conflicting-cards failure. */
  datatype Verdict = Ok(isCandidate: bool) | ConflictingCards

  /** Two hands hold the same cards, whatever their order. */
  predicate SameCards(a: seq<Card>, b: seq<Card>)
  {
    multiset(a) == multiset(b)
  }

  /** The bluff test of one pair of hole cards against a flop. The five cards are first
      checked for a repeated card; otherwise the hand is a bluff candidate when it has no
      pair the hole cards take part in, no two pair or better among all five cards, and
      both hole cards in a three-card flush draw and a three-card straight draw. */
  function IsBluffCandidate(lib: Library, hole: HoleCards, flop: Flop): (v: Verdict)
    ensures v == ConflictingCards <==> !Distinct(Hand(hole, flop))
    ensures v.Ok? ==>
              (v.isCandidate <==>
                 && !lib.isOnePair(hole, flop, true)
                 && !lib.isTwoPairOrBetter(Hand(hole, flop))
                 && lib.is3Flush(hole, flop, RequiredHoleCards)
                 && lib.is3Straight(hole, flop, RequiredHoleCards))
  {
    var hand := Hand(hole, flop);
    if !Distinct(hand) then
      ConflictingCards
    else
      Ok(
        && !lib.isOnePair(hole, flop, true)
        && !lib.isTwoPairOrBetter(hand)
        && lib.is3Flush(hole, flop, RequiredHoleCards)
        && lib.is3Straight(hole, flop, RequiredHoleCards))
  }

  /** The bluff test fails with conflicting cards exactly when some card occurs twice
      among the two hole cards and the three flop cards. */
  lemma ConflictIffRepeatedCard(lib: Library, hole: HoleCards, flop: Flop)
    ensures IsBluffCandidate(lib, hole, flop) == ConflictingCards <==>
              exists i, j :: 0 <= i < j < 5 && Hand(hole, flop)[i] == Hand(hole, flop)[j]
  {
    DistinctIffNoRepeat(Hand(hole, flop));
  }

  /** Reordering the hole cards or the flop cards never changes the outcome when the four
      evaluators give the same answers on both orderings: the conflict check itself depends
      only on which cards are present. */
  lemma VerdictIgnoresCardOrder(lib: Library, h1: HoleCards, f1: Flop, h2: HoleCards, f2: Flop)
    requires SameCards(h1.Cards(), h2.Cards()) && SameCards(f1.Cards(), f2.Cards())
    requires lib.isOnePair(h1, f1, true) == lib.isOnePair(h2, f2, true)
    requires lib.isTwoPairOrBetter(Hand(h1, f1)) == lib.isTwoPairOrBetter(Hand(h2, f2))
    requires lib.is3Flush(h1, f1, RequiredHoleCards) == lib.is3Flush(h2, f2, RequiredHoleCards)
    requires lib.is3Straight(h1, f1, RequiredHoleCards) == lib.is3Straight(h2, f2, RequiredHoleCards)
    ensures IsBluffCandidate(lib, h1, f1) == IsBluffCandidate(lib, h2, f2)
  {
    var hand1, hand2 := Hand(h1, f1), Hand(h2, f2);
    HandKeepsEveryCard(h1, f1);
    HandKeepsEveryCard(h2, f2);
    assert SameCards(hand1, hand2);
    DistinctIffSingleOccurrences(hand1);
    DistinctIffSingleOccurrences(hand2);
  }

  /** The scanner's specification: the candidates of `scanned` that pass the bluff test,
      in the order they are scanned. A candidate whose cards conflict with the flop is
      passed over, like one that fails the test. */
  function Candidates(lib: Library, flop: Flop, scanned: seq<HoleCards>): (found: seq<HoleCards>)
    ensures |found| <= |scanned|
  {
    if scanned == [] then
      []
    else
      var last := scanned[|scanned| - 1];
      Candidates(lib, flop, scanned[..|scanned| - 1])
        + (if IsBluffCandidate(lib, last, flop) == Ok(true) then [last] else [])
  }

  /** Every found candidate was scanned and passes the bluff test. */
  lemma {:induction false} CandidatesSound(lib: Library, flop: Flop, scanned: seq<HoleCards>, hole: HoleCards)
    requires hole in Candidates(lib, flop, scanned)
    ensures hole in scanned && IsBluffCandidate(lib, hole, flop) == Ok(true)
  {
    var init := scanned[..|scanned| - 1];
    if hole in Candidates(lib, flop, init) {
      CandidatesSound(lib, flop, init, hole);
      assert init <= scanned;
    }
  }

  /** Every scanned candidate that passes the bluff test is found. */
  lemma {:induction false} CandidatesComplete(lib: Library, flop: Flop, scanned: seq<HoleCards>, hole: HoleCards)
    requires hole in scanned
    requires IsBluffCandidate(lib, hole, flop) == Ok(true)
    ensures hole in Candidates(lib, flop, scanned)
  {
    var init := scanned[..|scanned| - 1];
    if hole != scanned[|scanned| - 1] {
      assert scanned == init + [scanned[|scanned| - 1]];
      CandidatesComplete(lib, flop, init, hole);
    }
  }

  /** Found candidates are exactly the scanned candidates that pass the bluff test; in
      particular a candidate that conflicts with the flop, or one outside the scanned
      range, is never found. */
  lemma CandidatesExactly(lib: Library, flop: Flop, scanned: seq<HoleCards>, hole: HoleCards)
    ensures hole in Candidates(lib, flop, scanned) <==>
              hole in scanned && IsBluffCandidate(lib, hole, flop) == Ok(true)
  {
    if hole in scanned && IsBluffCandidate(lib, hole, flop) == Ok(true) {
      CandidatesComplete(lib, flop, scanned, hole);
    }
    if hole in Candidates(lib, flop, scanned) {
      CandidatesSound(lib, flop, scanned, hole);
    }
  }

  /** The found candidates are an ordered selection of the scanned ones: `positions`
      lists, in increasing order, the positions of exactly those scanned candidates that
      pass the bluff test, and the found candidates are what stands there. */
  lemma {:induction false} CandidatesKeepOrder(lib: Library, flop: Flop, scanned: seq<HoleCards>)
    returns (positions: seq<nat>)
    ensures |positions| == |Candidates(lib, flop, scanned)|
    ensures forall k :: 0 <= k < |positions| ==>
              && positions[k] < |scanned|
              && Candidates(lib, flop, scanned)[k] == scanned[positions[k]]
              && IsBluffCandidate(lib, scanned[positions[k]], flop) == Ok(true)
    ensures forall k, l :: 0 <= k < l < |positions| ==> positions[k] < positions[l]
    ensures forall i :: 0 <= i < |scanned| && IsBluffCandidate(lib, scanned[i], flop) == Ok(true) ==>
              i in positions
  {
    if scanned == [] {
      positions := [];
    } else {
      var n := |scanned| - 1;
      var init := scanned[..n];
      var before := CandidatesKeepOrder(lib, flop, init);
      assert forall i :: 0 <= i < n ==> scanned[i] == init[i];
      if IsBluffCandidate(lib, scanned[n], flop) == Ok(true) {
        assert Candidates(lib, flop, scanned) == Candidates(lib, flop, init) + [scanned[n]];
        positions := before + [n];
      } else {
        assert Candidates(lib, flop, scanned) == Candidates(lib, flop, init);
        positions := before;
      }
    }
  }

  /** Scanning one range after another finds the candidates of the first range followed
      by those of the second. */
  lemma {:induction false} CandidatesOfConcat(lib: Library, flop: Flop, a: seq<HoleCards>, b: seq<HoleCards>)
    ensures Candidates(lib, flop, a + b) == Candidates(lib, flop, a) + Candidates(lib, flop, b)
  {
    if b != [] {
      var n := |b| - 1;
      assert (a + b)[..|a + b| - 1] == a + b[..n];
      CandidatesOfConcat(lib, flop, a, b[..n]);
    } else {
      assert a + b == a;
    }
  }

  /** A conflicting candidate is skipped without ending the scan: the candidates after it
      are still examined and found. */
  lemma ConflictIsSkipped(lib: Library, flop: Flop, before: seq<HoleCards>, hole: HoleCards, after: seq<HoleCards>)
    requires IsBluffCandidate(lib, hole, flop) == ConflictingCards
    ensures Candidates(lib, flop, before + [hole] + after)
              == Candidates(lib, flop, before) + Candidates(lib, flop, after)
  {
    assert [hole][..0] == [];
    assert Candidates(lib, flop, [hole]) == [];
    CandidatesOfConcat(lib, flop, before, [hole]);
    var skipped := Candidates(lib, flop, before + [hole]);
    assert skipped == Candidates(lib, flop, before);
    CandidatesOfConcat(lib, flop, before + [hole], after);
  }

  /** A flop with a repeated card conflicts with every candidate, so nothing is found. */
  lemma {:induction false} RepeatedFlopFindsNothing(lib: Library, flop: Flop, scanned: seq<HoleCards>)
    requires !Distinct(flop.Cards())
    ensures Candidates(lib, flop, scanned) == []
  {
    if scanned != [] {
      var hole := scanned[|scanned| - 1];
      DistinctIffNoRepeat(flop.Cards());
      var i, j :| 0 <= i < j < 3 && flop.Cards()[i] == flop.Cards()[j];
      assert Hand(hole, flop)[i + 2] == Hand(hole, flop)[j + 2];
      DistinctIffNoRepeat(Hand(hole, flop));
      RepeatedFlopFindsNothing(lib, flop, scanned[..|scanned| - 1]);
    }
  }

  /** get_bluffcandidates: scans `range`, or the canonical hole cards when `range` is
      absent or empty, and collects, in order, each candidate the bluff test accepts;
      candidates whose cards conflict with the flop are passed over. */
  method GetBluffCandidates(lib: Library, flop: Flop, range: Option<seq<HoleCards>>)
    returns (found: seq<HoleCards>)
    ensures range == None || range == Some([]) ==>
              found == Candidates(lib, flop, lib.canonicalHoleCards)
    ensures range.Some? && range.value != [] ==>
              found == Candidates(lib, flop, range.value)
  {
    var scanned := if range.Some? && range.value != [] then range.value else lib.canonicalHoleCards;
    found := [];
    var i := 0;
    while i < |scanned|
      invariant 0 <= i <= |scanned|
      invariant found == Candidates(lib, flop, scanned[..i])
    {
      var hole := scanned[i];
      assert scanned[..i + 1][..i] == scanned[..i];
      match IsBluffCandidate(lib, hole, flop) {
        case ConflictingCards =>
          // the conflict is swallowed and the scan goes on
        case Ok(isCandidate) =>
          if isCandidate {
            found := found + [hole];
          }
      }
      i := i + 1;
    }
    assert scanned[..i] == scanned;
  }
}

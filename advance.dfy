/**
 * The round advancer's pairing: the winners of a completed round, in ledger
 * order, are paired consecutively into the next round's matches; an odd
 * last winner gets a bye that is won in advance.
 */
module Advance {
  import opened Wrappers
  import opened Matches
  import opened SeqFacts

  /** `winners[i + 1] || "Bye"`: a missing or empty second name reads as a bye. */
  function Opponent(w: seq<string>, i: nat): string {
    if i < |w| && w[i] != "" then w[i] else BYE
  }

  /** Next-round match `slot`: winners `2 * slot` and `2 * slot + 1`, won in advance when it is a bye. */
  function Pairing(w: seq<string>, round: int, slot: nat): Match
    requires 2 * slot < |w|
  {
    var team2 := Opponent(w, 2 * slot + 1);
    Match(MatchId(round + 1, slot), w[2 * slot], team2, None, None, if team2 == BYE then Some(w[2 * slot]) else None)
  }

  /** The ledger `advanceWinners` builds from the winners `w` of round `round`. */
  function NextRound(w: seq<string>, round: int): (r: seq<Match>)
    ensures |r| == (|w| + 1) / 2
  {
    seq((|w| + 1) / 2, j requires 0 <= j < (|w| + 1) / 2 => Pairing(w, round, j))
  }

  /** Winners that are real names: not empty (falsy) and not the bye sentinel. */
  predicate ProperNames(w: seq<string>) {
    forall i :: 0 <= i < |w| ==> w[i] != "" && w[i] != BYE
  }

  /**
   * The shape of the next round: `ceil(w / 2)` matches with ids
   * `(round + 1)-j`, no scores; all contested except, for an odd number of
   * winners, the last, which is a bye already won by the last winner.
   */
  lemma NextRoundShape(w: seq<string>, round: int)
    requires ProperNames(w)
    ensures var ms := NextRound(w, round);
      2 * |ms| == |w| + |w| % 2 &&
      (|w| >= 2 ==> |ms| < |w|) &&
      forall j :: 0 <= j < |ms| ==>
        ms[j].id == MatchId(round + 1, j) && ms[j].team1 == w[2 * j] &&
        ms[j].score1.None? && ms[j].score2.None? &&
        (IsBye(ms[j]) <==> 2 * j + 1 == |w|) &&
        (IsBye(ms[j]) ==> ms[j].winner == Some(w[2 * j])) &&
        (!IsBye(ms[j]) ==> ms[j].team2 == w[2 * j + 1] && ms[j].winner.None?)
  {
  }

  /** A next-round match seats its two winners, or only the first when it is a bye. */
  lemma PairingSides(w: seq<string>, round: int, j: nat)
    requires ProperNames(w) && 2 * j < |w|
    ensures Sides(Pairing(w, round, j)) == if 2 * j + 1 < |w| then [w[2 * j], w[2 * j + 1]] else [w[2 * j]]
  {
  }

  /** The first `k` next-round matches seat the first `min(2k, |w|)` winners, in order. */
  lemma {:induction false} EntrantsOfPairings(w: seq<string>, round: int, k: nat)
    requires ProperNames(w) && k <= (|w| + 1) / 2
    ensures Entrants(NextRound(w, round)[..k]) == w[..if 2 * k <= |w| then 2 * k else |w|]
  {
    if k > 0 {
      var ms := NextRound(w, round);
      var a := 2 * (k - 1);
      var prev, last := ms[..k - 1], ms[k - 1];
      EntrantsOfPairings(w, round, k - 1);
      assert Entrants(prev) == w[..a];
      assert last == Pairing(w, round, k - 1);
      PairingSides(w, round, k - 1);
      TakeOne(ms, k - 1);
      EntrantsSnoc(prev, last);
      assert Entrants(ms[..k]) == w[..a] + Sides(last);
      if a + 1 < |w| {
        TakeTwo(w, a);
        assert Entrants(ms[..k]) == w[..a + 2];
      } else {
        TakeOne(w, a);
        assert Entrants(ms[..k]) == w[..a + 1];
      }
    }
  }

  /**
   * Pairing keeps the winners' relative order and seats each of them exactly
   * once: reading the next round's teams back, match by match, gives `w`.
   */
  lemma NextRoundEntrants(w: seq<string>, round: int)
    requires ProperNames(w)
    ensures Entrants(NextRound(w, round)) == w
  {
    var ms := NextRound(w, round);
    EntrantsOfPairings(w, round, |ms|);
    TakeAll(ms);
    TakeAll(w);
  }

  /** A next-round match is decided in advance exactly when it is the odd last winner's bye. */
  lemma PairingWinner(w: seq<string>, round: int, j: nat)
    requires ProperNames(w) && 2 * j < |w|
    ensures WinnerOf(Pairing(w, round, j)) == if 2 * j + 1 == |w| then Some(w[2 * j]) else None
  {
  }

  /** The first `k` next-round matches yield no winner except a bye among them. */
  lemma {:induction false} WinnersOfPairings(w: seq<string>, round: int, k: nat)
    requires ProperNames(w) && k <= (|w| + 1) / 2
    ensures Winners(NextRound(w, round)[..k]) == if |w| % 2 == 1 && k == (|w| + 1) / 2 then [w[|w| - 1]] else []
  {
    if k > 0 {
      var ms := NextRound(w, round);
      var prev, last := ms[..k - 1], ms[k - 1];
      WinnersOfPairings(w, round, k - 1);
      assert Winners(prev) == [];
      PairingWinner(w, round, k - 1);
      TakeOne(ms, k - 1);
      WinnersSnoc(prev, last);
      if 2 * k - 1 == |w| {
        assert WinnerOf(last) == Some(w[|w| - 1]);
      } else {
        assert WinnerOf(last) == None;
      }
    }
  }

  /**
   * A freshly built round is unresolved, except that an odd last winner's
   * bye already counts as won: its winner is the only one the new round
   * yields before any match is played.
   */
  lemma NextRoundWinners(w: seq<string>, round: int)
    requires ProperNames(w)
    ensures Winners(NextRound(w, round)) == if |w| % 2 == 1 then [w[|w| - 1]] else []
  {
    var ms := NextRound(w, round);
    WinnersOfPairings(w, round, |ms|);
    TakeAll(ms);
  }

  /**
   * A completed round of `m` matches, none with an empty winner name, yields
   * `m` winners and so a next round of `ceil(m / 2)` matches.
   */
  lemma CompletedRoundHalves(ms: seq<Match>, round: int)
    requires AllScoresEntered(ms)
    requires forall i :: 0 <= i < |ms| ==> ms[i].winner != Some("")
    ensures |Winners(ms)| == |ms|
    ensures |NextRound(Winners(ms), round)| == (|ms| + 1) / 2
  {
    AllScoresEnteredIffAllWin(ms);
  }
}

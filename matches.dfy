/**
 * The match record, its string id, and the match ledger: entering scores,
 * finishing a match, the "all matches resolved" query, collecting the
 * winners of a round and the display filter on the live round.
 */
module Matches {
  import opened Wrappers
  import opened Validation
  import opened Text
  import opened SeqFacts

  /** The sentinel opponent of a team that advances without playing. */
  const BYE: string := "Bye"

  /** A match id `"<round>-<slot>"`, kept as the pair it is printed from. */
  datatype MatchId = MatchId(round: int, slot: nat)

  datatype Match = Match(
    id: MatchId,
    team1: string,
    team2: string,
    score1: Option<int>,
    score2: Option<int>,
    winner: Option<string>)

  /** The id exactly as the template literal `${round}-${slot}` prints it. */
  function IdString(id: MatchId): (s: string)
    ensures var p := IntToString(id.round);
      |p| < |s| && s[..|p|] == p && s[|p|] == '-' &&
      (forall k :: 0 < k < |p| ==> s[k] != '-') &&
      (forall k :: |p| < k < |s| ==> IsDigit(s[k]))
  {
    IntToString(id.round) + "-" + NatToString(id.slot)
  }

  /** Comparing printed ids with `===` is comparing the pairs. */
  lemma IdStringInjective(a: MatchId, b: MatchId)
    ensures IdString(a) == IdString(b) ==> a == b
  {
    var x, y := IntToString(a.round), IntToString(b.round);
    var sa, sb := IdString(a), IdString(b);
    if |x| < |y| {
      assert sa[|x|] == '-' && sb[|x|] == y[|x|] != '-';
    } else if |y| < |x| {
      assert sb[|y|] == '-' && sa[|y|] == x[|y|] != '-';
    } else if x != y {
      assert sa[..|x|] == x && sb[..|y|] == y;
      assert sa != sb;
    } else {
      assert NatToString(a.slot) == sa[|x| + 1..];
      assert NatToString(b.slot) == sb[|y| + 1..];
      IntToStringInjective(a.round, b.round);
      NatToStringInjective(a.slot, b.slot);
    }
  }

  /** A bye is recognised by the name of the second team alone. */
  predicate IsBye(m: Match) {
    m.team2 == BYE
  }

  /** A match between two named teams, with no scores and no winner yet. */
  function Contested(id: MatchId, team1: string, team2: string): Match {
    Match(id, team1, team2, None, None, None)
  }

  /**
   * `updateScore`: every match carrying the id gets the two scores; nothing
   * else about any match changes.
   */
  function UpdateScore(ms: seq<Match>, id: MatchId, s1: Option<int>, s2: Option<int>): (r: seq<Match>)
    ensures |r| == |ms|
    ensures forall i :: 0 <= i < |ms| ==>
      r[i].id == ms[i].id && r[i].team1 == ms[i].team1 && r[i].team2 == ms[i].team2 && r[i].winner == ms[i].winner
    ensures forall i :: 0 <= i < |ms| ==>
      if ms[i].id == id then r[i].score1 == s1 && r[i].score2 == s2 else r[i] == ms[i]
  {
    seq(|ms|, i requires 0 <= i < |ms| => if ms[i].id == id then ms[i].(score1 := s1, score2 := s2) else ms[i])
  }

  /** `Array.prototype.find` by id: the position of the first match with that id. */
  function FindMatch(ms: seq<Match>, id: MatchId): (r: Option<nat>)
    ensures r.None? ==> forall i :: 0 <= i < |ms| ==> ms[i].id != id
    ensures r.Some? ==> r.value < |ms| && ms[r.value].id == id && forall j :: 0 <= j < r.value ==> ms[j].id != id
  {
    if ms == [] then None
    else if ms[0].id == id then Some(0)
    else match FindMatch(ms[1..], id)
      case None => None
      case Some(k) => Some(k + 1)
  }

  /** The team with the strictly higher score; the team2 side when score1 is not higher. */
  function Leader(m: Match): string
    requires m.score1.Some? && m.score2.Some?
  {
    if m.score1.value > m.score2.value then m.team1 else m.team2
  }

  /**
   * `handleMatchFinish`, on the matches alone. The first match with the id
   * decides: an unknown id changes nothing; a bye is confirmed (winner its
   * first team, scores cleared); a missing score or a tie is rejected;
   * otherwise the higher scorer wins. The new value is written to every
   * match with that id.
   */
  function FinishMatch(ms: seq<Match>, id: MatchId): (r: Result<seq<Match>, ValidationError>)
    ensures FindMatch(ms, id).None? ==> r == Ok(ms)
    ensures r.Err? ==> FindMatch(ms, id).Some?
    ensures r.Err? ==>
      var m := ms[FindMatch(ms, id).value];
      !IsBye(m) && r.error == (if m.score1.None? || m.score2.None? then MissingScores else TieGame)
    ensures r.Ok? ==> |r.value| == |ms| && forall i :: 0 <= i < |ms| && ms[i].id != id ==> r.value[i] == ms[i]
    ensures r.Ok? ==> forall i :: 0 <= i < |ms| && ms[i].id == id ==>
      r.value[i].id == id && r.value[i].team1 == ms[i].team1 && r.value[i].team2 == ms[i].team2 && r.value[i].winner.Some?
    ensures FindMatch(ms, id).Some? && IsBye(ms[FindMatch(ms, id).value]) ==>
      r.Ok? && forall i :: 0 <= i < |ms| && ms[i].id == id ==>
        r.value[i].winner == Some(ms[i].team1) && r.value[i].score1.None? && r.value[i].score2.None?
    ensures FindMatch(ms, id).Some? && !IsBye(ms[FindMatch(ms, id).value]) ==>
      var m := ms[FindMatch(ms, id).value];
      (r.Ok? <==> m.score1.Some? && m.score2.Some? && m.score1.value != m.score2.value) &&
      (r.Ok? ==> forall i :: 0 <= i < |ms| && ms[i].id == id ==>
        r.value[i] == ms[i].(winner := Some(if m.score1.value > m.score2.value then m.team1 else m.team2)))
  {
    match FindMatch(ms, id)
    case None => Ok(ms)
    case Some(k) =>
      var m := ms[k];
      if IsBye(m) then
        Ok(seq(|ms|, i requires 0 <= i < |ms| =>
          if ms[i].id == id then ms[i].(winner := Some(ms[i].team1), score1 := None, score2 := None) else ms[i]))
      else if m.score1.None? || m.score2.None? then Err(MissingScores)
      else if m.score1.value == m.score2.value then Err(TieGame)
      else
        var w := Leader(m);
        Ok(seq(|ms|, i requires 0 <= i < |ms| => if ms[i].id == id then ms[i].(winner := Some(w)) else ms[i]))
  }

  /** Finishing a match a second time, with its scores untouched, changes nothing. */
  lemma FinishMatchIdempotent(ms: seq<Match>, id: MatchId)
    requires FinishMatch(ms, id).Ok?
    ensures FinishMatch(FinishMatch(ms, id).value, id) == FinishMatch(ms, id)
  {
    var ms' := FinishMatch(ms, id).value;
    match FindMatch(ms, id)
    case None =>
    case Some(k) =>
      assert FindMatch(ms', id) == Some(k) by {
        FindMatchSameIds(ms, ms', id);
      }
      if IsBye(ms[k]) {
        assert ms' == seq(|ms'|, i requires 0 <= i < |ms'| =>
          if ms'[i].id == id then ms'[i].(winner := Some(ms'[i].team1), score1 := None, score2 := None) else ms'[i]);
      } else {
        assert ms'[k].score1 == ms[k].score1 && ms'[k].score2 == ms[k].score2;
        var w := Leader(ms[k]);
        assert Leader(ms'[k]) == w;
        assert ms' == seq(|ms'|, i requires 0 <= i < |ms'| => if ms'[i].id == id then ms'[i].(winner := Some(w)) else ms'[i]);
      }
  }

  /** Two ledgers with the same ids in the same places find the same match. */
  lemma FindMatchSameIds(a: seq<Match>, b: seq<Match>, id: MatchId)
    requires |a| == |b| && forall i :: 0 <= i < |a| ==> a[i].id == b[i].id
    ensures FindMatch(a, id) == FindMatch(b, id)
  {
    match FindMatch(a, id)
    case None =>
    case Some(k) =>
  }

  /** `allScoresEntered`: every match is a bye or has a winner. */
  predicate AllScoresEntered(ms: seq<Match>)
    ensures AllScoresEntered(ms) <==>
      forall i :: 0 <= i < |ms| ==> WinnerOf(ms[i]).Some? || ms[i].winner == Some("")
  {
    forall i :: 0 <= i < |ms| ==> IsBye(ms[i]) || ms[i].winner.Some?
  }

  /**
   * What one match contributes to the next round: the first team of a bye,
   * the winner of a resolved match (an empty name is falsy and is skipped),
   * nothing otherwise.
   */
  function WinnerOf(m: Match): Option<string> {
    if IsBye(m) then Some(m.team1)
    else if m.winner.Some? && m.winner.value != "" then m.winner
    else None
  }

  /** The winners of a round, in the order of their matches. */
  function Winners(ms: seq<Match>): (w: seq<string>)
    ensures |w| <= |ms|
  {
    if ms == [] then []
    else
      var last := ms[|ms| - 1];
      Winners(ms[..|ms| - 1]) + (match WinnerOf(last) case Some(t) => [t] case None => [])
  }

  lemma WinnersSnoc(ms: seq<Match>, m: Match)
    ensures Winners(ms + [m]) == Winners(ms) + (match WinnerOf(m) case Some(t) => [t] case None => [])
  {
    assert (ms + [m])[..|ms|] == ms;
  }

  /** A round yields one winner per match exactly when every match yields a winner. */
  lemma {:induction false} WinnersAllResolved(ms: seq<Match>)
    ensures |Winners(ms)| == |ms| <==> forall i :: 0 <= i < |ms| ==> WinnerOf(ms[i]).Some?
  {
    if ms != [] {
      var init := ms[..|ms| - 1];
      WinnersAllResolved(init);
      assert forall i :: 0 <= i < |init| ==> init[i] == ms[i];
    }
  }

  /**
   * With no winner recorded as the empty name, a round is complete exactly
   * when every one of its matches yields a winner.
   */
  lemma {:induction false} AllScoresEnteredIffAllWin(ms: seq<Match>)
    requires forall i :: 0 <= i < |ms| ==> ms[i].winner != Some("")
    ensures AllScoresEntered(ms) <==> |Winners(ms)| == |ms|
  {
    if ms != [] {
      var init := ms[..|ms| - 1];
      AllScoresEnteredIffAllWin(init);
      assert AllScoresEntered(ms) <==> AllScoresEntered(init) && (IsBye(ms[|ms| - 1]) || ms[|ms| - 1].winner.Some?);
    }
  }

  /** Entering scores never resolves a match: the winners of the round stay as they were. */
  lemma {:induction false} UpdateScoreKeepsWinners(ms: seq<Match>, id: MatchId, s1: Option<int>, s2: Option<int>)
    ensures Winners(UpdateScore(ms, id, s1, s2)) == Winners(ms)
  {
    if ms != [] {
      var r := UpdateScore(ms, id, s1, s2);
      UpdateScoreKeepsWinners(ms[..|ms| - 1], id, s1, s2);
      assert r[..|r| - 1] == UpdateScore(ms[..|ms| - 1], id, s1, s2);
      assert WinnerOf(r[|r| - 1]) == WinnerOf(ms[|ms| - 1]);
    }
  }

  /** Nor does it complete a round: the completeness check looks at byes and winners only. */
  lemma UpdateScoreKeepsCompleteness(ms: seq<Match>, id: MatchId, s1: Option<int>, s2: Option<int>)
    ensures AllScoresEntered(UpdateScore(ms, id, s1, s2)) == AllScoresEntered(ms)
  {
    var r := UpdateScore(ms, id, s1, s2);
    assert forall i :: 0 <= i < |ms| ==> IsBye(r[i]) == IsBye(ms[i]) && r[i].winner == ms[i].winner;
  }

  /** The teams a match seats: both sides, or just the first team of a bye. */
  function Sides(m: Match): seq<string> {
    if IsBye(m) then [m.team1] else [m.team1, m.team2]
  }

  /** Every team seated in a ledger, match by match, in ledger order. */
  function Entrants(ms: seq<Match>): seq<string> {
    if ms == [] then [] else Entrants(ms[..|ms| - 1]) + Sides(ms[|ms| - 1])
  }

  lemma EntrantsSnoc(ms: seq<Match>, m: Match)
    ensures Entrants(ms + [m]) == Entrants(ms) + Sides(m)
  {
    assert (ms + [m])[..|ms|] == ms;
  }

  lemma {:induction false} EntrantsConcat(a: seq<Match>, b: seq<Match>)
    ensures Entrants(a + b) == Entrants(a) + Entrants(b)
  {
    if b != [] {
      assert (a + b)[..|a + b| - 1] == a + b[..|b| - 1];
      EntrantsConcat(a, b[..|b| - 1]);
    } else {
      assert a + b == a;
    }
  }

  /** The test `currentMatches` applies: the printed id starts with the printed live round. */
  function ShownIn(round: int): Match -> bool {
    (m: Match) => StartsWith(IdString(m.id), IntToString(round))
  }

  /**
   * `currentMatches`: the matches whose printed id starts with the printed
   * live round. The test is a string prefix, not an equality of rounds.
   */
  function CurrentMatches(ms: seq<Match>, round: int): (r: seq<Match>)
    ensures |r| <= |ms|
    ensures forall m :: m in r <==> m in ms && StartsWith(IdString(m.id), IntToString(round))
  {
    Filter(ms, ShownIn(round))
  }

  /**
   * `filter` keeps ledger order: filtering a concatenation filters each part
   * and concatenates the results, so the shown matches appear in the order
   * of the ledger, each as often as it occurs there.
   */
  lemma CurrentMatchesConcat(a: seq<Match>, b: seq<Match>, round: int)
    ensures CurrentMatches(a + b, round) == CurrentMatches(a, round) + CurrentMatches(b, round)
  {
    FilterConcat(a, b, ShownIn(round));
  }

  /** The prefix test on a printed id is the prefix test on its printed round. */
  lemma IdPrefix(id: MatchId, round: int)
    ensures StartsWith(IdString(id), IntToString(round)) <==> StartsWith(IntToString(id.round), IntToString(round))
  {
    var p, x := IntToString(round), IntToString(id.round);
    if |p| <= |x| {
      assert IdString(id)[..|p|] == x[..|p|];
    } else if |p| <= |IdString(id)| {
      assert IdString(id)[..|p|][|x|] == '-' != p[|x|];
    }
  }

  /** If one decimal numeral is a proper prefix of another, the longer one is at least ten times larger. */
  lemma {:induction false} NumeralPrefix(a: nat, b: nat)
    requires StartsWith(NatToString(b), NatToString(a)) && a != b
    ensures b >= 10 && b >= 10 * a
  {
    var sa, sb := NatToString(a), NatToString(b);
    if |sa| == |sb| {
      assert sa == sb;
      NatToStringInjective(a, b);
    }
    assert b >= 10;
    assert sb[..|sb| - 1] == NatToString(b / 10);
    assert |sa| <= |sb| - 1;
    if a != b / 10 {
      assert NatToString(b / 10)[..|sa|] == sa;
      NumeralPrefix(a, b / 10);
    }
  }

  /**
   * In a ledger that only holds ids of the live round and of the round after
   * it (the only ledgers the tournament builds), the prefix filter keeps
   * exactly the live round.
   */
  lemma CurrentMatchesExact(ms: seq<Match>, round: int)
    requires round >= 0
    requires forall m :: m in ms ==> m.id.round == round || m.id.round == round + 1
    ensures forall m :: m in CurrentMatches(ms, round) <==> m in ms && m.id.round == round
  {
    forall m | m in ms && m.id.round == round + 1
      ensures m !in CurrentMatches(ms, round)
    {
      IdPrefix(m.id, round);
      if StartsWith(NatToString(round + 1), NatToString(round)) {
        NumeralPrefix(round, round + 1);
      }
    }
  }

  /** The prefix filter also keeps ids of later rounds: the live round 1 shows a match `10-0`. */
  lemma CurrentMatchesPrefixQuirk(m: Match)
    requires m.id == MatchId(10, 0)
    ensures CurrentMatches([m], 1) == [m]
  {
    assert NatToString(10) == "10";
    assert IdString(m.id)[..1] == "1";
  }
}

/**
 * The tournament component's state and its handlers: one object whose
 * fields are the roster, the live ledger, the round counters and the
 * history of earlier ledgers, updated in place by each user action.
 */
module Tournament {
  import opened Wrappers
  import opened Validation
  import opened Text
  import opened Powers
  import opened Matches
  import Roster
  import opened Bracket
  import opened Advance
  import opened SeqFacts

  /** What advancing reports: a new round was built, or the one winner left was announced. */
  datatype AdvanceOutcome = NextRoundStarted | TournamentWon(winner: string)

  /**
   * `len < Math.pow(2, e)`. For a negative exponent the power lies strictly
   * between 0 and 1, so only an empty roster is below it.
   */
  predicate BelowPowerOfTwo(len: nat, e: int)
    ensures len == 0 ==> BelowPowerOfTwo(len, e)
    ensures len >= 1 ==> (BelowPowerOfTwo(len, e) <==> FloorLog2(len) < e)
  {
    if e < 0 then len == 0
    else if len == 0 then len < Pow2(e)
    else FloorLog2Spec(len, e); len < Pow2(e)
  }

  /**
   * The collection loop of `advanceWinners`: a bye's team, otherwise a
   * recorded non-empty winner, in ledger order.
   */
  method CollectWinners(current: seq<Match>) returns (winners: seq<string>)
    ensures winners == Winners(current)
  {
    winners := [];
    var i := 0;
    while i < |current|
      invariant 0 <= i <= |current|
      invariant winners == Winners(current[..i])
    {
      var m := current[i];
      TakeOne(current, i);
      WinnersSnoc(current[..i], m);
      if m.team2 == BYE {
        winners := winners + [m.team1];
      } else if m.winner.Some? && m.winner.value != "" {
        winners := winners + [m.winner.value];
      }
      i := i + 1;
    }
    TakeAll(current);
  }

  /**
   * The pairing loop of `advanceWinners`: winners two by two into round
   * `round + 1`, an odd or empty partner replaced by a bye.
   */
  method PairWinners(winners: seq<string>, round: int) returns (nextRoundMatches: seq<Match>)
    ensures nextRoundMatches == NextRound(winners, round)
  {
    nextRoundMatches := [];
    ghost var next := NextRound(winners, round);
    var i := 0;
    ghost var half := 0;
    while i < |winners|
      invariant i == 2 * half && 0 <= half <= |next|
      invariant nextRoundMatches == next[..half]
    {
      var team1 := winners[i];
      var team2 := if i + 1 < |winners| && winners[i + 1] != "" then winners[i + 1] else BYE;
      TakeOne(next, half);
      assert i / 2 == half;
      nextRoundMatches := nextRoundMatches +
        [Match(MatchId(round + 1, i / 2), team1, team2, None, None, if team2 == BYE then Some(team1) else None)];
      i, half := i + 2, half + 1;
    }
    TakeAll(next);
  }

  class KnockoutTournament {
    var teams: seq<string>
    var matches: seq<Match>
    var round: int
    var completedRounds: int
    var history: seq<seq<Match>>

    /**
     * The counters agree with the history: as many completed rounds as
     * snapshots, and the live round is the completed count.
     */
    predicate Synced()
      reads this
    {
      0 <= round && round == completedRounds && completedRounds == |history|
    }

    /** A fresh component: nothing saved, everything empty. */
    constructor ()
      ensures teams == [] && matches == [] && round == 0 && completedRounds == 0 && history == []
      ensures Synced()
    {
      teams, matches, round, completedRounds, history := [], [], 0, 0, [];
    }

    /** `handleAddTeam`: a rejected name leaves the roster as it was. */
    method HandleAddTeam(input: string) returns (error: Option<ValidationError>)
      modifies this`teams
      ensures match Roster.AddTeam(old(teams), input)
        case Ok(t) => teams == t && error == None
        case Err(e) => teams == old(teams) && error == Some(e)
      ensures old(Roster.ValidRoster(teams)) ==> Roster.ValidRoster(teams)
    {
      match Roster.AddTeam(teams, input)
      case Ok(t) =>
        if Roster.ValidRoster(teams) {
          Roster.AddKeepsRosterValid(teams, input);
        }
        teams := t;
        error := None;
      case Err(e) =>
        error := Some(e);
    }

    /** `handleSaveTeam(index)`: a rejected name leaves the roster as it was. */
    method HandleSaveTeam(index: nat, input: string) returns (error: Option<ValidationError>)
      requires index < |teams|
      modifies this`teams
      ensures match Roster.SaveTeam(old(teams), index, input)
        case Ok(t) => teams == t && error == None
        case Err(e) => teams == old(teams) && error == Some(e)
      ensures old(Roster.ValidRoster(teams)) ==> Roster.ValidRoster(teams)
    {
      match Roster.SaveTeam(teams, index, input)
      case Ok(t) =>
        if Roster.ValidRoster(teams) {
          Roster.SaveKeepsRosterValid(teams, index, input);
        }
        teams := t;
        error := None;
      case Err(e) =>
        error := Some(e);
    }

    /**
     * `handleDeleteTeam(index)`: the team goes; when fewer than
     * `2^(completedRounds + 1)` teams remain, the whole bracket is dropped.
     */
    method HandleDeleteTeam(index: int)
      modifies this
      ensures teams == Roster.RemoveTeam(old(teams), index)
      ensures BelowPowerOfTwo(|teams|, old(completedRounds) + 1) ==>
        matches == [] && round == 0 && completedRounds == 0 && history == []
      ensures !BelowPowerOfTwo(|teams|, old(completedRounds) + 1) ==>
        matches == old(matches) && round == old(round) && completedRounds == old(completedRounds) && history == old(history)
      ensures old(Synced()) ==> Synced()
      ensures old(Roster.ValidRoster(teams)) ==> Roster.ValidRoster(teams)
    {
      if Roster.ValidRoster(teams) {
        Roster.RemoveKeepsRosterValid(teams, index);
      }
      var newTeams := Roster.RemoveTeam(teams, index);
      teams := newTeams;
      if BelowPowerOfTwo(|newTeams|, completedRounds + 1) {
        matches := [];
        round := 0;
        completedRounds := 0;
        history := [];
      }
    }

    /**
     * `startTournament`: with at least two teams, the bracket replaces the
     * ledger, the history is cleared and the live round is 0 (the first
     * match's id always starts with "0").
     */
    method StartTournament() returns (error: Option<ValidationError>)
      modifies this`matches, this`round, this`completedRounds, this`history
      ensures |teams| < 2 ==>
        error == Some(TooFewTeams) && matches == old(matches) && round == old(round) &&
        completedRounds == old(completedRounds) && history == old(history)
      ensures |teams| >= 2 ==>
        error == None && matches == InitialMatches(teams) && round == 0 && completedRounds == 0 && history == []
      ensures |teams| >= 2 ==> Synced()
    {
      if |teams| < 2 {
        return Some(TooFewTeams);
      }
      var initialMatches := GenerateInitialMatches(teams);
      BracketOpensRoundZero(teams);
      matches := initialMatches;
      round := if |initialMatches| > 0 && StartsWith(IdString(initialMatches[0].id), "0") then 0 else 1;
      completedRounds := 0;
      history := [];
      error := None;
    }

    /** `updateScore`: the ledger after the score entry; nothing else changes. */
    method UpdateScore(id: MatchId, score1: Option<int>, score2: Option<int>)
      modifies this`matches
      ensures matches == Matches.UpdateScore(old(matches), id, score1, score2)
    {
      matches := Matches.UpdateScore(matches, id, score1, score2);
    }

    /** `handleMatchFinish`: a rejected finish leaves the ledger as it was. */
    method HandleMatchFinish(id: MatchId) returns (error: Option<ValidationError>)
      modifies this`matches
      ensures match FinishMatch(old(matches), id)
        case Ok(ms) => matches == ms && error == None
        case Err(e) => matches == old(matches) && error == Some(e)
    {
      match FinishMatch(matches, id)
      case Ok(ms) =>
        matches := ms;
        error := None;
      case Err(e) =>
        error := Some(e);
    }

    /**
     * `advanceWinners`: the ledger is pushed onto the history, the winners
     * are collected in ledger order; one winner ends the tournament and
     * nothing else changes, otherwise they are paired into round
     * `round + 1`, which becomes the live round.
     */
    method AdvanceWinners() returns (outcome: AdvanceOutcome)
      modifies this
      ensures history == old(history) + [old(matches)] && teams == old(teams)
      ensures |Winners(old(matches))| == 1 ==>
        outcome == TournamentWon(Winners(old(matches))[0]) &&
        matches == old(matches) && round == old(round) && completedRounds == old(completedRounds)
      ensures |Winners(old(matches))| != 1 ==>
        outcome == NextRoundStarted && matches == NextRound(Winners(old(matches)), old(round)) &&
        round == old(round) + 1 && completedRounds == old(completedRounds) + 1
    {
      var current := matches;
      history := history + [current];
      var winners := CollectWinners(current);
      if |winners| == 1 {
        return TournamentWon(winners[0]);
      }
      matches := PairWinners(winners, round);
      round := round + 1;
      completedRounds := completedRounds + 1;
      outcome := NextRoundStarted;
    }

    /** `resetTournament`: every field back to empty. */
    method ResetTournament()
      modifies this
      ensures teams == [] && matches == [] && round == 0 && completedRounds == 0 && history == []
      ensures Synced()
    {
      teams := [];
      matches := [];
      round := 0;
      completedRounds := 0;
      history := [];
    }

    /**
     * `goToPreviousRound`: with a snapshot, the last one becomes the ledger
     * again and both counters drop by one; with none, nothing happens.
     */
    method GoToPreviousRound()
      modifies this
      ensures teams == old(teams)
      ensures old(history) == [] ==>
        matches == old(matches) && round == old(round) && completedRounds == old(completedRounds) && history == []
      ensures old(history) != [] ==>
        matches == old(history)[|old(history)| - 1] && history == old(history)[..|old(history)| - 1] &&
        round == old(round) - 1 && completedRounds == old(completedRounds) - 1
      ensures old(Synced()) ==> Synced()
    {
      if |history| > 0 {
        matches := history[|history| - 1];
        round := round - 1;
        completedRounds := completedRounds - 1;
        history := history[..|history| - 1];
      }
    }

    /**
     * Advancing and then stepping back restores the ledger and the history
     * exactly. The counters come back too after a new round was built; after
     * the announcement of a winner, which moved neither counter, the step
     * back still lowers both by one.
     */
    method AdvanceThenUndo() returns (outcome: AdvanceOutcome)
      modifies this
      ensures matches == old(matches) && history == old(history) && teams == old(teams)
      ensures outcome.NextRoundStarted? ==> round == old(round) && completedRounds == old(completedRounds)
      ensures outcome.TournamentWon? ==> round == old(round) - 1 && completedRounds == old(completedRounds) - 1
    {
      outcome := AdvanceWinners();
      GoToPreviousRound();
    }

    /**
     * The evidently intended advance: announcing the winner takes no
     * snapshot, so the counters stay in step with the history and no later
     * step back can drive them below zero.
     */
    method AdvanceWinnersCorrected() returns (outcome: AdvanceOutcome)
      modifies this
      ensures teams == old(teams)
      ensures |Winners(old(matches))| == 1 ==>
        outcome == TournamentWon(Winners(old(matches))[0]) && matches == old(matches) &&
        round == old(round) && completedRounds == old(completedRounds) && history == old(history)
      ensures |Winners(old(matches))| != 1 ==>
        outcome == NextRoundStarted && matches == NextRound(Winners(old(matches)), old(round)) &&
        history == old(history) + [old(matches)] &&
        round == old(round) + 1 && completedRounds == old(completedRounds) + 1
      ensures old(Synced()) ==> Synced()
    {
      var winners := Winners(matches);
      if |winners| == 1 {
        return TournamentWon(winners[0]);
      }
      outcome := AdvanceWinners();
    }
  }

  /** The two entries of the scenario below are accepted. */
  lemma EnterTwoTeams()
    ensures Roster.AddTeam([], "A") == Ok(["A"])
    ensures Roster.AddTeam(["A"], "B") == Ok(["A", "B"])
  {
    assert !IsWhitespace('A') && !IsWhitespace('B');
    TrimOfTrimmed("A");
    TrimOfTrimmed("B");
    assert !AllWhitespace("A") && !AllWhitespace("B");
    assert "B" != "A";
    assert "B" !in ["A"];
    assert Roster.AddTeam([], "A").Ok?;
    assert Roster.AddTeam([], "A").value == [] + ["A"];
    assert [] + ["A"] == ["A"];
    assert Roster.AddTeam(["A"], "B").Ok?;
    assert ["A"] + ["B"] == ["A", "B"];
  }

  /** Scoring and finishing the one match of the scenario below. */
  lemma PlayOnlyMatch()
    ensures Matches.UpdateScore([Contested(MatchId(0, 0), "A", "B")], MatchId(0, 0), Some(3), Some(1))
      == [Match(MatchId(0, 0), "A", "B", Some(3), Some(1), None)]
    ensures FinishMatch([Match(MatchId(0, 0), "A", "B", Some(3), Some(1), None)], MatchId(0, 0))
      == Ok([Match(MatchId(0, 0), "A", "B", Some(3), Some(1), Some("A"))])
    ensures Winners([Match(MatchId(0, 0), "A", "B", Some(3), Some(1), Some("A"))]) == ["A"]
  {
    var played := Match(MatchId(0, 0), "A", "B", Some(3), Some(1), None);
    var finished := played.(winner := Some("A"));
    assert FindMatch([played], MatchId(0, 0)) == Some(0);
    assert !IsBye(played) && Leader(played) == "A";
    var r := FinishMatch([played], MatchId(0, 0));
    assert r.Ok? && |r.value| == 1 && r.value[0] == finished;
    assert r.value == [finished];
    assert [finished][..0] == [];
  }

  /**
   * Three teams after A has beaten B in the pre-round: the winners are read
   * in ledger order, so the second round is A against C.
   */
  lemma ThreeTeamsSecondRound()
    ensures var ledger := [Match(MatchId(0, 0), "A", "B", Some(2), Some(1), Some("A")), ByeMatch(0, "C")];
      Winners(ledger) == ["A", "C"] && NextRound(Winners(ledger), 0) == [Contested(MatchId(1, 0), "A", "C")]
  {
    var played := Match(MatchId(0, 0), "A", "B", Some(2), Some(1), Some("A"));
    var ledger := [played, ByeMatch(0, "C")];
    assert ledger[..1] == [played] && [played][..0] == [];
    assert Winners([played]) == ["A"];
    assert Pairing(["A", "C"], 0, 0) == Contested(MatchId(1, 0), "A", "C");
  }

  /** A fresh component with teams A and B entered and the tournament started. */
  method StartTwoTeams() returns (t: KnockoutTournament)
    ensures fresh(t)
    ensures t.matches == [Contested(MatchId(0, 0), "A", "B")]
    ensures t.round == 0 && t.completedRounds == 0 && t.history == []
  {
    EnterTwoTeams();
    TwoTeams();
    t := new KnockoutTournament();
    var error := t.HandleAddTeam("A");
    error := t.HandleAddTeam("B");
    error := t.StartTournament();
  }

  /** The one match of `t` scored 3-1 and finished: A has won it. */
  method PlayFinal(t: KnockoutTournament)
    requires t.matches == [Contested(MatchId(0, 0), "A", "B")]
    modifies t
    ensures Winners(t.matches) == ["A"]
    ensures t.round == old(t.round) && t.completedRounds == old(t.completedRounds) && t.history == old(t.history)
  {
    PlayOnlyMatch();
    t.UpdateScore(MatchId(0, 0), Some(3), Some(1));
    var error := t.HandleMatchFinish(MatchId(0, 0));
  }

  /**
   * Two teams, one match won 3-1 by A, the winner announced, then one step
   * back: the live round and the completed-round count both end at -1.
   */
  method UndoAfterTournamentWon() returns (outcome: AdvanceOutcome, round: int, completedRounds: int)
    ensures outcome == TournamentWon("A") && round == -1 && completedRounds == -1
  {
    var t := StartTwoTeams();
    PlayFinal(t);
    outcome := t.AdvanceWinners();
    t.GoToPreviousRound();
    round, completedRounds := t.round, t.completedRounds;
  }
}

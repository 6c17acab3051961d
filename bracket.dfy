/**
 * The bracket builder: the first ledger of a tournament, built from the
 * roster. A roster whose size is a power of two is paired off in order;
 * otherwise a pre-round of contested matches comes first and byes of the
 * round after it follow.
 */
module Bracket {
  import opened Wrappers
  import opened Powers
  import opened Matches
  import opened SeqFacts

  /** `xs[i] || ""`: a missing entry reads as the empty name. */
  function At(t: seq<string>, i: nat): string {
    if i < |t| then t[i] else ""
  }

  /** `xs.shift() || ""`: the first entry, or the empty name, and what is left. */
  function Shift(t: seq<string>): (string, seq<string>) {
    if t == [] then ("", []) else (t[0], t[1..])
  }

  /** Shifting the unconsumed tail `t[i..]` yields entry `i` and the tail `t[i + 1..]`. */
  lemma ShiftTail(t: seq<string>, i: nat)
    ensures Shift(Tail(t, i)) == (At(t, i), Tail(t, i + 1))
  {
  }

  /** What is left of `t` after `i` shifts. */
  function Tail(t: seq<string>, i: nat): seq<string> {
    if i <= |t| then t[i..] else []
  }

  /** Round-0 matches pairing the teams `2j` and `2j + 1` of `t`, for `j < count`. */
  function PreRound(t: seq<string>, count: nat): seq<Match> {
    seq(count, j requires 0 <= j < count => Contested(MatchId(0, j), At(t, 2 * j), At(t, 2 * j + 1)))
  }

  lemma PreRoundSnoc(t: seq<string>, count: nat)
    ensures PreRound(t, count + 1) == PreRound(t, count) + [Contested(MatchId(0, count), At(t, 2 * count), At(t, 2 * count + 1))]
  {
  }

  /** A bye recorded in round 1; its winner is `teamsArr[i] || null`. */
  function ByeMatch(slot: nat, team: string): Match {
    Match(MatchId(1, slot), team, BYE, None, None, if team != "" then Some(team) else None)
  }

  /** Round-1 byes for the first `count` entries of `rest`. */
  function ByeBlock(rest: seq<string>, count: nat): seq<Match> {
    seq(count, i requires 0 <= i < count => ByeMatch(i, At(rest, i)))
  }

  lemma ByeBlockSnoc(rest: seq<string>, count: nat)
    ensures ByeBlock(rest, count + 1) == ByeBlock(rest, count) + [ByeMatch(count, At(rest, count))]
  {
  }

  /** `numTeams - Math.pow(2, Math.floor(Math.log2(numTeams)))`. */
  function PreRoundPlayers(n: nat): nat
    requires n >= 1
  {
    n - FloorPow2(n)
  }

  /** How many round-0 matches the pre-round loop `for (i = 0; i < pre; i += 2)` creates. */
  function PreRoundMatches(n: nat): nat
    requires n >= 1
  {
    (PreRoundPlayers(n) + 1) / 2
  }

  /** `k - numTeams`: how far the roster is from the next power of two. */
  function ByeCount(n: nat): nat
    requires n >= 1
  {
    CeilPow2(n) - n
  }

  /** The matches `generateInitialMatches` returns for a roster, as written. */
  function InitialMatches(t: seq<string>): (r: seq<Match>)
    ensures |t| < 2 ==> r == []
    ensures |t| >= 2 ==> |r| < |t|
  {
    var n := |t|;
    if n < 2 then []
    else if ByeCount(n) == 0 then PreRound(t, n / 2)
    else
      var c := PreRoundMatches(n);
      NoByesIffPowerOfTwo(n);
      UnevenCounts(n);
      PreRound(t, c) + ByeBlock(Tail(t, 2 * c), ByeCount(n))
  }

  /** No team carries the sentinel name, so only real byes read as byes. */
  predicate NoByeNames(t: seq<string>) {
    forall i :: 0 <= i < |t| ==> t[i] != BYE
  }

  lemma {:induction false} EntrantsPreRound(t: seq<string>, count: nat)
    requires 2 * count <= |t| && NoByeNames(t)
    ensures Entrants(PreRound(t, count)) == t[..2 * count]
  {
    if count > 0 {
      var k := count - 1;
      var a := 2 * k;
      EntrantsPreRound(t, k);
      PreRoundSnoc(t, k);
      var m := Contested(MatchId(0, k), At(t, a), At(t, a + 1));
      EntrantsSnoc(PreRound(t, k), m);
      assert t[a + 1] != BYE && t[a] != BYE;
      calc {
        Entrants(PreRound(t, count));
        Entrants(PreRound(t, k) + [m]);
        Entrants(PreRound(t, k)) + Sides(m);
        t[..a] + [t[a], t[a + 1]];
        { TakeTwo(t, a); }
        t[..2 * count];
      }
    }
  }

  lemma {:induction false} EntrantsByeBlock(rest: seq<string>, count: nat)
    requires count <= |rest|
    ensures Entrants(ByeBlock(rest, count)) == rest[..count]
  {
    if count > 0 {
      EntrantsByeBlock(rest, count - 1);
      ByeBlockSnoc(rest, count - 1);
      EntrantsSnoc(ByeBlock(rest, count - 1), ByeMatch(count - 1, At(rest, count - 1)));
      TakeOne(rest, count - 1);
    }
  }

  /** A roster needs no byes exactly when its size is a power of two. */
  lemma NoByesIffPowerOfTwo(n: nat)
    requires n >= 1
    ensures ByeCount(n) == 0 <==> IsPow2(n)
  {
    if IsPow2(n) {
      CeilOfPow2(n);
    } else {
      CeilIsTwiceFloor(n);
    }
  }

  /** Off a power of two: the pre-round is not empty and the byes never run past the teams left. */
  lemma UnevenCounts(n: nat)
    requires n >= 2 && !IsPow2(n)
    ensures PreRoundPlayers(n) >= 1 && PreRoundMatches(n) >= 1
    ensures ByeCount(n) == 2 * FloorPow2(n) - n
    ensures 2 * PreRoundMatches(n) + ByeCount(n) + 2 * (PreRoundPlayers(n) / 2) == n
  {
    CeilIsTwiceFloor(n);
  }

  /** A power of two of at least two is even and needs no byes. */
  lemma PowerOfTwoCounts(n: nat)
    requires n >= 2 && IsPow2(n)
    ensures n % 2 == 0 && ByeCount(n) == 0
  {
    NoByesIffPowerOfTwo(n);
    assert FloorLog2(n) >= 1;
  }

  /**
   * A roster of 2, 4, 8, ... teams is paired off in order: match `j` is
   * `0-j` between teams `2j` and `2j + 1`, with no scores and no winner.
   */
  lemma PowerOfTwoBracket(t: seq<string>)
    requires |t| >= 2 && IsPow2(|t|)
    ensures |t| % 2 == 0 && |InitialMatches(t)| == |t| / 2
    ensures forall j :: 0 <= j < |t| / 2 ==>
      InitialMatches(t)[j] == Match(MatchId(0, j), t[2 * j], t[2 * j + 1], None, None, None)
  {
    PowerOfTwoCounts(|t|);
  }

  /** ... and every team of such a roster plays exactly once, in roster order. */
  lemma PowerOfTwoEntrants(t: seq<string>)
    requires |t| >= 2 && IsPow2(|t|) && NoByeNames(t)
    ensures Entrants(InitialMatches(t)) == t
  {
    PowerOfTwoCounts(|t|);
    EntrantsPreRound(t, |t| / 2);
    TakeAll(t);
  }

  /**
   * Any other roster of at least two teams: first `ceil(pre / 2)` contested
   * round-0 matches over the first teams, then `byes` round-1 byes over the
   * teams that follow, each won in advance by its team. Every seat is a
   * real roster entry: the bye block never runs past the remaining teams.
   */
  lemma UnevenBracket(t: seq<string>)
    requires |t| >= 2 && !IsPow2(|t|)
    ensures var c, b := PreRoundMatches(|t|), ByeCount(|t|);
      c >= 1 && 2 * c + b <= |t| && |InitialMatches(t)| == c + b &&
      (forall j :: 0 <= j < c ==>
        InitialMatches(t)[j] == Match(MatchId(0, j), t[2 * j], t[2 * j + 1], None, None, None)) &&
      (forall i :: 0 <= i < b ==>
        InitialMatches(t)[c + i] == Match(MatchId(1, i), t[2 * c + i], BYE, None, None,
                                          if t[2 * c + i] == "" then None else Some(t[2 * c + i])))
  {
    var n := |t|;
    UnevenCounts(n);
    NoByesIffPowerOfTwo(n);
    var c, b := PreRoundMatches(n), ByeCount(n);
    assert InitialMatches(t) == PreRound(t, c) + ByeBlock(Tail(t, 2 * c), b);
    UnevenLayout(t, c, b);
  }

  /** The pre-round block followed by the bye block over the teams after it, seat by seat. */
  lemma UnevenLayout(t: seq<string>, c: nat, b: nat)
    requires 2 * c + b <= |t|
    ensures var ms := PreRound(t, c) + ByeBlock(Tail(t, 2 * c), b);
      |ms| == c + b &&
      (forall j :: 0 <= j < c ==>
        ms[j] == Match(MatchId(0, j), t[2 * j], t[2 * j + 1], None, None, None)) &&
      (forall i :: 0 <= i < b ==>
        ms[c + i] == Match(MatchId(1, i), t[2 * c + i], BYE, None, None,
                           if t[2 * c + i] == "" then None else Some(t[2 * c + i])))
  {
    var pre, byes := PreRound(t, c), ByeBlock(Tail(t, 2 * c), b);
    forall i | 0 <= i < b
      ensures (pre + byes)[c + i] == Match(MatchId(1, i), t[2 * c + i], BYE, None, None,
                                           if t[2 * c + i] == "" then None else Some(t[2 * c + i]))
    {
      assert (pre + byes)[c + i] == byes[i];
      assert At(Tail(t, 2 * c), i) == t[2 * c + i];
    }
  }

  /** Off a power of two, the bracket seats the first `2c + b` teams: `c` pre-round pairs, then `b` byes. */
  lemma UnevenEntrants(t: seq<string>)
    requires |t| >= 2 && !IsPow2(|t|) && NoByeNames(t)
    ensures 2 * PreRoundMatches(|t|) + ByeCount(|t|) <= |t|
    ensures Entrants(InitialMatches(t)) == t[..2 * PreRoundMatches(|t|) + ByeCount(|t|)]
  {
    UnevenCounts(|t|);
    NoByesIffPowerOfTwo(|t|);
    var c, b := PreRoundMatches(|t|), ByeCount(|t|);
    var pre, byes := PreRound(t, c), ByeBlock(Tail(t, 2 * c), b);
    assert InitialMatches(t) == pre + byes;
    EntrantsConcat(pre, byes);
    EntrantsPreRound(t, c);
    EntrantsByeBlock(Tail(t, 2 * c), b);
    TakeSplit(t, 2 * c, b);
  }

  /**
   * Which teams the initial bracket seats: a prefix of the roster, in roster
   * order. It falls short of the whole roster by `2 * floor(pre / 2)` teams,
   * so with distinct names no team is seated twice, and every team is
   * seated exactly when the roster is a power of two or one more than one.
   */
  lemma InitialEntrants(t: seq<string>)
    requires |t| >= 2 && NoByeNames(t)
    ensures var e := Entrants(InitialMatches(t));
      |e| <= |t| && e == t[..|e|] &&
      |t| - |e| == (if IsPow2(|t|) then 0 else 2 * (PreRoundPlayers(|t|) / 2))
  {
    if IsPow2(|t|) {
      PowerOfTwoEntrants(t);
    } else {
      UnevenCounts(|t|);
      UnevenEntrants(t);
    }
  }


  /** Six teams, as written: one pre-round match, then byes for C and D. */
  lemma SixTeamsBracket()
    ensures InitialMatches(["A", "B", "C", "D", "E", "F"]) ==
      [Contested(MatchId(0, 0), "A", "B"), ByeMatch(0, "C"), ByeMatch(1, "D")]
  {
    SixTeamsCounts();
    var t := ["A", "B", "C", "D", "E", "F"];
    assert InitialMatches(t) == PreRound(t, 1) + ByeBlock(Tail(t, 2), 2);
    assert PreRound(t, 1) == [Contested(MatchId(0, 0), "A", "B")];
    assert ByeBlock(t[2..], 2) == [ByeMatch(0, "C"), ByeMatch(1, "D")];
  }

  /** The as-written builder leaves teams out: of six teams, E and F are seated nowhere. */
  lemma SixTeamsDropTwo()
    ensures InitialMatches(["A", "B", "C", "D", "E", "F"]) ==
      [Contested(MatchId(0, 0), "A", "B"), ByeMatch(0, "C"), ByeMatch(1, "D")]
    ensures Entrants(InitialMatches(["A", "B", "C", "D", "E", "F"])) == ["A", "B", "C", "D"]
  {
    SixTeamsBracket();
    var ab, c, d := Contested(MatchId(0, 0), "A", "B"), ByeMatch(0, "C"), ByeMatch(1, "D");
    assert Sides(ab) == ["A", "B"] && Sides(c) == ["C"] && Sides(d) == ["D"];
    var e1 := Entrants([ab]);
    EntrantsSnoc([], ab);
    assert [] + [ab] == [ab];
    assert e1 == ["A", "B"];
    var e2 := Entrants([ab, c]);
    EntrantsSnoc([ab], c);
    assert [ab] + [c] == [ab, c];
    assert e2 == ["A", "B", "C"];
    EntrantsSnoc([ab, c], d);
    assert [ab, c] + [d] == [ab, c, d];
    assert Entrants([ab, c, d]) == e2 + ["D"];
  }

  /** Six teams: two pre-round players, so one pre-round match, and two byes. */
  lemma SixTeamsCounts()
    ensures PreRoundMatches(6) == 1 && ByeCount(6) == 2
  {
    assert FloorLog2(6) == 2 && FloorPow2(6) == 4;
    assert CeilLog2(6) == 3 && CeilPow2(6) == 8;
  }

  /** Two teams: one round-0 match and no byes. */
  lemma TwoTeams()
    ensures InitialMatches(["A", "B"]) == [Match(MatchId(0, 0), "A", "B", None, None, None)]
  {
    assert FloorLog2(2) == 1 && FloorPow2(2) == 2;
    assert CeilLog2(2) == 1 && CeilPow2(2) == 2;
  }

  /** Three teams: `A` plays `B` in the pre-round and `C` has the bye `1-0`, won in advance. */
  lemma ThreeTeams()
    ensures InitialMatches(["A", "B", "C"]) ==
      [Match(MatchId(0, 0), "A", "B", None, None, None), Match(MatchId(1, 0), "C", BYE, None, None, Some("C"))]
  {
    var t := ["A", "B", "C"];
    assert FloorLog2(3) == 1 && FloorPow2(3) == 2;
    assert CeilLog2(3) == 2 && CeilPow2(3) == 4;
    assert PreRound(t, 1) == [Contested(MatchId(0, 0), "A", "B")];
    assert ByeBlock(t[2..], 1) == [ByeMatch(0, "C")];
  }

  /**
   * The bracket of any startable roster opens with the match `0-0`, so the
   * start handler's test `id.startsWith("0")` always picks round 0.
   */
  lemma BracketOpensRoundZero(t: seq<string>)
    requires |t| >= 2
    ensures |InitialMatches(t)| >= 1 && InitialMatches(t)[0].id == MatchId(0, 0)
  {
    if IsPow2(|t|) {
      PowerOfTwoBracket(t);
    } else {
      UnevenBracket(t);
    }
  }

  /** Every seat of the initial bracket is a round-0 match or a round-1 bye. */
  lemma InitialRounds(t: seq<string>)
    requires |t| >= 2
    ensures var ms := InitialMatches(t);
      forall k :: 0 <= k < |ms| ==> ms[k].id.round == 0 || (ms[k].id.round == 1 && ms[k].team2 == BYE)
  {
    var ms := InitialMatches(t);
    if IsPow2(|t|) {
      PowerOfTwoBracket(t);
    } else {
      UnevenBracket(t);
      var c := PreRoundMatches(|t|);
      forall k | c <= k < |ms|
        ensures ms[k].id.round == 1 && ms[k].team2 == BYE
      {
        assert ms[c + (k - c)] == ms[k];
      }
    }
  }

  /**
   * The bracket holds only round-0 matches and round-1 byes, so at the start
   * (live round 0) the display filter shows exactly the round-0 matches.
   */
  lemma InitialLiveRound(t: seq<string>)
    requires |t| >= 2
    ensures forall m :: m in InitialMatches(t) ==> m.id.round == 0 || (m.id.round == 1 && m.team2 == BYE)
    ensures forall m :: m in CurrentMatches(InitialMatches(t), 0) <==> m in InitialMatches(t) && m.id.round == 0
  {
    var ms := InitialMatches(t);
    InitialRounds(t);
    assert forall m :: m in ms ==> m.id.round == 0 || (m.id.round == 1 && m.team2 == BYE);
    CurrentMatchesExact(ms, 0);
  }

  /**
   * The evidently intended builder: `pre` contested round-0 matches (two
   * players each) instead of `ceil(pre / 2)`, then the byes.
   */
  function CorrectedInitialMatches(t: seq<string>): seq<Match> {
    var n := |t|;
    if n < 2 then []
    else if IsPow2(n) then PreRound(t, n / 2)
    else
      var pre := PreRoundPlayers(n);
      PreRound(t, pre) + ByeBlock(Tail(t, 2 * pre), ByeCount(n))
  }

  /** The corrected builder seats every team exactly once, in roster order. */
  lemma CorrectedSeatsEveryTeam(t: seq<string>)
    requires |t| >= 2 && NoByeNames(t)
    ensures Entrants(CorrectedInitialMatches(t)) == t
  {
    var n := |t|;
    if IsPow2(n) {
      PowerOfTwoCounts(n);
      EntrantsPreRound(t, n / 2);
      TakeAll(t);
    } else {
      UnevenCounts(n);
      var pre, b := PreRoundPlayers(n), ByeCount(n);
      EntrantsConcat(PreRound(t, pre), ByeBlock(Tail(t, 2 * pre), b));
      EntrantsPreRound(t, pre);
      EntrantsByeBlock(Tail(t, 2 * pre), b);
      TakeSplit(t, 2 * pre, b);
      TakeAll(t);
    }
  }

  /**
   * Each match of the corrected bracket yields one winner, and there are a
   * power of two of them: the next round is a full bracket.
   */
  lemma CorrectedFieldIsPowerOfTwo(t: seq<string>)
    requires |t| >= 2
    ensures IsPow2(|CorrectedInitialMatches(t)|)
  {
    var n := |t|;
    var e := FloorLog2(n);
    var size := |CorrectedInitialMatches(t)|;
    assert FloorPow2(n) == Pow2(e);
    if IsPow2(n) {
      assert size == |PreRound(t, n / 2)| == n / 2;
      assert e >= 1;
      var half := Pow2(e - 1);
      assert n == 2 * half;
      assert size == half;
      Pow2IsPow2(e - 1);
    } else {
      var pre := PreRoundPlayers(n);
      UnevenCounts(n);
      assert size == |PreRound(t, pre)| + |ByeBlock(Tail(t, 2 * pre), ByeCount(n))|;
      assert size == Pow2(e);
      Pow2IsPow2(e);
    }
  }

  /** The doubling loop `k = 1; while (k < numTeams) k *= 2`. */
  method SmallestPowerOfTwo(numTeams: nat) returns (k: nat)
    requires numTeams >= 1
    ensures k == CeilPow2(numTeams)
  {
    k := 1;
    ghost var e := 0;
    while k < numTeams
      invariant k == Pow2(e) && e <= CeilLog2(numTeams)
    {
      CeilLog2Spec(numTeams, e);
      k := k * 2;
      e := e + 1;
    }
    CeilLog2Spec(numTeams, e);
    if e > 0 {
      CeilLog2Spec(numTeams, e - 1);
    }
  }

  /** `while (teamsArr.length > 1)`: shift two teams at a time into round-0 matches. */
  method PairOff(teams: seq<string>) returns (matches: seq<Match>)
    ensures matches == PreRound(teams, |teams| / 2)
  {
    matches := [];
    var teamsArr := teams;
    while |teamsArr| > 1
      invariant 2 * |matches| + |teamsArr| == |teams|
      invariant teamsArr == Tail(teams, 2 * |matches|)
      invariant matches == PreRound(teams, |matches|)
    {
      ShiftTail(teams, 2 * |matches|);
      ShiftTail(teams, 2 * |matches| + 1);
      var team1, team2;
      team1, teamsArr := Shift(teamsArr).0, Shift(teamsArr).1;
      team2, teamsArr := Shift(teamsArr).0, Shift(teamsArr).1;
      PreRoundSnoc(teams, |matches|);
      matches := matches + [Contested(MatchId(0, |matches|), team1, team2)];
    }
  }

  /**
   * `for (i = 0; i < teamsToPlayInPreRound; i += 2)`: one round-0 match per
   * step, shifting two teams each time; also returns the unconsumed teams.
   */
  method PlayPreRound(teams: seq<string>, teamsToPlay: nat) returns (matches: seq<Match>, teamsArr: seq<string>)
    ensures matches == PreRound(teams, (teamsToPlay + 1) / 2)
    ensures teamsArr == Tail(teams, 2 * ((teamsToPlay + 1) / 2))
  {
    matches, teamsArr := [], teams;
    var i := 0;
    ghost var half := 0;
    while i < teamsToPlay
      invariant i == 2 * half && 0 <= i <= teamsToPlay + 1
      invariant teamsArr == Tail(teams, i)
      invariant matches == PreRound(teams, half)
    {
      ShiftTail(teams, i);
      ShiftTail(teams, i + 1);
      var team1, team2;
      team1, teamsArr := Shift(teamsArr).0, Shift(teamsArr).1;
      team2, teamsArr := Shift(teamsArr).0, Shift(teamsArr).1;
      PreRoundSnoc(teams, half);
      assert i / 2 == half;
      matches := matches + [Contested(MatchId(0, i / 2), team1, team2)];
      i, half := i + 2, half + 1;
    }
  }

  /** `for (i = 0; i < byesCount; i++)`: a round-1 bye for each of the next teams. */
  method AssignByes(matches: seq<Match>, teamsArr: seq<string>, byesCount: nat) returns (result: seq<Match>)
    ensures result == matches + ByeBlock(teamsArr, byesCount)
  {
    result := matches;
    var i := 0;
    while i < byesCount
      invariant 0 <= i <= byesCount
      invariant result == matches + ByeBlock(teamsArr, i)
    {
      ByeBlockSnoc(teamsArr, i);
      result := result + [ByeMatch(i, At(teamsArr, i))];
      i := i + 1;
    }
  }

  /** `generateInitialMatches`. */
  method GenerateInitialMatches(initialTeams: seq<string>) returns (matches: seq<Match>)
    ensures matches == InitialMatches(initialTeams)
  {
    var numTeams := |initialTeams|;
    if numTeams < 2 {
      return [];
    }
    var k := SmallestPowerOfTwo(numTeams);
    var byesCount := k - numTeams;
    assert byesCount == ByeCount(numTeams);
    if byesCount == 0 {
      matches := PairOff(initialTeams);
    } else {
      var teamsToPlayInPreRound := numTeams - FloorPow2(numTeams);
      assert (teamsToPlayInPreRound + 1) / 2 == PreRoundMatches(numTeams);
      var teamsArr;
      matches, teamsArr := PlayPreRound(initialTeams, teamsToPlayInPreRound);
      matches := AssignByes(matches, teamsArr, byesCount);
    }
  }
}

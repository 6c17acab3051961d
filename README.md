# Knockout tournament generator, modelled in Dafny

This project models the tournament logic of the `KnockoutTournamentGenerator`
component (`components/Knockout.js`), a single-elimination bracket manager. The
model covers:

- **Roster.** Add a team, rename a team, delete a team (which can also drop the
  whole bracket).
- **Bracket builder.** Pads an uneven roster with a pre-round and byes up to
  the next power of two.
- **Match ledger.** Entering scores, finishing a match, and the
  "all matches resolved" query.
- **Round advancer.** Collects the winners, pairs them into the next round, and
  announces a champion.
- **Undo and reset.** Undo restores the previous ledger from a history stack;
  reset clears every field.
- **Display filter.** Shows the matches of the live round.

The component's state becomes the class `Tournament.KnockoutTournament`. It has
the fields `teams`, `matches`, `round`, `completedRounds` and `history`, and one
method per handler. Each method states the new value of every field it may
change.

The loops of the bracket builder and the round advancer are methods with loop
invariants. Each is proved equal to a specification function:

- `Bracket.InitialMatches` for the bracket builder;
- `Matches.Winners` and `Advance.NextRound` for the round advancer.

The `map`/`filter`/`every` expressions are functions (`Matches.UpdateScore`,
`Matches.FinishMatch`, `Matches.AllScoresEntered`, `Matches.CurrentMatches`), and
so are the roster checks (`Roster.AddTeam`, `Roster.SaveTeam`,
`Roster.RemoveTeam`).

## How the model represents the program

- A match id `"<round>-<slot>"` is kept as the pair `MatchId(round, slot)`.
  `Matches.IdString` prints it as the template literal does.
  `Matches.IdStringInjective` proves that comparing printed ids with `===` is the
  same as comparing the pairs.
- `null` scores and winners are `None`.
- The JavaScript falsy tests are kept exactly:
  - `shift() || ""` and `teamsArr[i] || ""` read a missing team as the empty name.
  - `teamsArr[i] || null` makes a bye with an empty name have no winner.
  - `winners[i + 1] || "Bye"` turns an empty partner into a bye.
  - `else if (match.winner)` skips an empty winner name.
- `trim` removes the ECMAScript WhiteSpace and LineTerminator code points.
- `Math.log2`/`Math.pow` become exact integer powers of two (`Powers.FloorPow2`,
  `Powers.CeilPow2`).
- The delete guard `length < Math.pow(2, completedRounds + 1)` is
  `Tournament.BelowPowerOfTwo`. For a negative exponent the power lies between 0
  and 1, so only an empty roster is below it.
- `round` and `completedRounds` are unbounded integers, not naturals. The
  program can drive both to -1; see Findings.
- Validation messages become `Validation.ValidationError` values. A handler that
  rejects its input returns the error and leaves the state unchanged.
- The `alert` announcing the champion becomes the outcome
  `TournamentWon(winner)`.

## Two facts about the bracket and the advancer

- **Leftover teams.** `components/Knockout.js` never seats the teams left over
  after the bye block, so they are dropped (see Findings). Another variant
  of the component, `components/KncokoutStandalone latest working version.js`
  lines 177-189, pairs them off into matches with round-1 ids
  (`${roundNumber + 1}-${matches.length}`). That variant is not part of this
  model; the model follows `components/Knockout.js`.
- **Order of the second round.** Winners are collected in ledger order, so the
  pre-round winner comes before the bye. With three teams and A beating B, the
  second round is A against C (`Tournament.ThreeTeamsSecondRound`).

## Model

| member | source | states |
|---|---|---|
| Roster.AddTeam | components/Knockout.js:83-95 | Rejects an all-whitespace name as `EmptyName` and a trimmed name already on the roster as `DuplicateName`, each exactly in that case; otherwise appends the trimmed name |
| Roster.AddKeepsRosterValid | components/Knockout.js:83-95 | Adding keeps every name non-empty, trimmed and distinct |
| Tournament.KnockoutTournament.HandleAddTeam | components/Knockout.js:83-95 | The roster becomes the accepted one or stays unchanged, with the error returned; roster validity is preserved |
| Roster.IndexOf | components/Knockout.js:118-121 | `indexOf`: -1 exactly when the name is absent; otherwise the first position holding it |
| Roster.SaveTeam | components/Knockout.js:113-130 | Rejects an empty name, and a name found at an index other than the edited one; on success only the edited slot changes, to the trimmed name |
| Roster.SaveTeamDuplicate | components/Knockout.js:118-124 | On a valid roster, the rename is rejected as duplicate exactly when the trimmed name belongs to another team |
| Roster.SaveTeamOwnName | components/Knockout.js:118-127 | Renaming a team to its current name is accepted and changes nothing |
| Roster.SaveKeepsRosterValid | components/Knockout.js:113-130 | Renaming keeps every name non-empty, trimmed and distinct |
| Tournament.KnockoutTournament.HandleSaveTeam | components/Knockout.js:113-130 | The roster becomes the renamed one or stays unchanged, with the error returned; roster validity is preserved |
| Roster.RemoveTeam | components/Knockout.js:133 | The filter drops exactly the entry at the index, keeping the others in order; an index outside the roster changes nothing |
| Roster.RemoveKeepsRosterValid | components/Knockout.js:133 | Deleting keeps the roster valid |
| Tournament.KnockoutTournament.HandleDeleteTeam | components/Knockout.js:132-141 | The team is removed; the matches, both counters and the history are reset exactly when fewer than `2^(completedRounds+1)` teams remain, otherwise left untouched; counters in step with the history stay so |
| Tournament.BelowPowerOfTwo | components/Knockout.js:135 | An empty roster is always below the power; a non-empty one of size `len` is below `2^e` exactly when `floor(log2 len) < e` |
| Powers.FloorLog2Spec | components/Knockout.js:176 | `2^e <= n` exactly when `e <= floor(log2 n)` |
| Powers.CeilLog2Spec | components/Knockout.js:155-158 | `n <= 2^e` exactly when `ceil(log2 n) <= e` |
| Powers.CeilPow2 | components/Knockout.js:155-158 | The power of two reached by doubling lies in `[n, 2n)` |
| Powers.FloorPow2 | components/Knockout.js:176 | `2^floor(log2 n)` lies in `(n/2, n]` |
| Powers.CeilIsTwiceFloor | components/Knockout.js:155-176 | Off a power of two, the next power is twice the previous one |
| Bracket.SmallestPowerOfTwo | components/Knockout.js:155-158 | The doubling loop ends at the smallest power of two not below the roster size |
| Bracket.PairOff | components/Knockout.js:163-172 | The `shift`-two loop yields round-0 match `j` between teams `2j` and `2j+1`, for every full pair |
| Bracket.PlayPreRound | components/Knockout.js:175-186 | The step-2 pre-round loop yields `ceil(pre/2)` round-0 matches over the first teams and leaves exactly the unshifted teams |
| Bracket.AssignByes | components/Knockout.js:188-198 | The bye loop appends bye `1-i` for each of the next `byes` teams, won in advance by a non-empty name |
| Bracket.GenerateInitialMatches | components/Knockout.js:143-201 | The builder's result equals the bracket specification `InitialMatches` for every roster, including no matches below two teams |
| Bracket.InitialMatches | components/Knockout.js:143-201 | The bracket specification: no matches below two teams; from two teams on, fewer matches than teams |
| Bracket.NoByesIffPowerOfTwo | components/Knockout.js:159-161 | The bye count is 0 exactly when the roster size is a power of two |
| Bracket.UnevenCounts | components/Knockout.js:174-198 | Off a power of two, the pre-round is non-empty, and the seats used plus the teams dropped add up to the roster |
| Bracket.PowerOfTwoBracket | components/Knockout.js:161-172 | For 2, 4, 8, … teams: `n/2` matches, match `j` is `0-j` between teams `2j` and `2j+1`, with no scores and no winner |
| Bracket.PowerOfTwoEntrants | components/Knockout.js:161-172 | Such a bracket seats every team exactly once, in roster order |
| Bracket.UnevenBracket | components/Knockout.js:173-199 | Otherwise: `ceil(pre/2)` contested `0-j` matches over the first teams, then `byes` matches `1-i` against "Bye" with the team as winner; the byes never run past the roster |
| Bracket.InitialEntrants | components/Knockout.js:143-201 | The seated teams are a prefix of the roster in order, so no team is seated twice; the bracket falls short of the roster by `2*floor(pre/2)` teams |
| Bracket.UnevenEntrants | components/Knockout.js:173-199 | Off a power of two, the bracket seats exactly the first `2*ceil(pre/2) + byes` teams, in roster order |
| Bracket.InitialLiveRound | components/Knockout.js:143-215 | The bracket holds only round-0 matches and round-1 byes, so at the start the display filter shows exactly the round-0 matches |
| Bracket.TwoTeams | components/Knockout.js:161-172 | Two teams give the single match `0-0` between them |
| Bracket.ThreeTeams | components/Knockout.js:173-199 | Three teams give A–B as `0-0` and bye `1-0` for C, already won by C |
| Bracket.BracketOpensRoundZero | components/Knockout.js:210-212 | The bracket of any startable roster opens with match `0-0` |
| Tournament.KnockoutTournament.StartTournament | components/Knockout.js:203-215 | Fewer than two teams is rejected with nothing changed; otherwise the ledger is the bracket, the live round 0, the completed count 0 and the history empty |
| Matches.UpdateScore | components/Knockout.js:217-223 | Only the two scores of matches carrying the id change, to the given values |
| Matches.UpdateScoreKeepsWinners | components/Knockout.js:217-223 | Entering scores does not change the winners of the round |
| Matches.UpdateScoreKeepsCompleteness | components/Knockout.js:217-223 | Entering scores does not change whether every match of the round is complete |
| Tournament.KnockoutTournament.UpdateScore | components/Knockout.js:217-223 | The ledger becomes the score update of the old ledger |
| Matches.FindMatch | components/Knockout.js:263 | `find` by id: the first match carrying it, or none |
| Matches.FinishMatch | components/Knockout.js:262-293 | Unknown id: no change. A bye: its team wins and the scores are cleared. A missing score: `MissingScores`. Equal scores: `TieGame`. Otherwise the strictly higher scorer wins on the matches with that id, and nothing else changes |
| Matches.FinishMatchIdempotent | components/Knockout.js:262-293 | Finishing the same match again with the scores untouched gives the same ledger |
| Tournament.KnockoutTournament.HandleMatchFinish | components/Knockout.js:262-293 | A rejected finish returns its error and leaves the ledger unchanged |
| Matches.AllScoresEnteredIffAllWin | components/Knockout.js:295-297 | With no empty winner name, the round is complete exactly when every match yields a winner |
| Matches.AllScoresEntered | components/Knockout.js:295-297 | The round is complete exactly when every match either yields a winner to the advancer or carries an empty winner name |
| Matches.Winners | components/Knockout.js:232-238 | A round yields at most one winner per match |
| Matches.WinnersAllResolved | components/Knockout.js:232-238 | A round yields one winner per match exactly when every match yields a winner |
| Matches.IdStringInjective | components/Knockout.js:165-191 | Distinct ids print differently |
| Matches.IdString | components/Knockout.js:165-191 | The printed id is the printed round, then `-`, then digits only; no `-` follows the first character of the round |
| Matches.CurrentMatches | components/Knockout.js:330-332 | A match is shown exactly when it is in the ledger and its printed id starts with the printed live round; the result is no longer than the ledger |
| Matches.CurrentMatchesConcat | components/Knockout.js:330-332 | Filtering a concatenation is concatenating the filtered parts, so the filter keeps ledger order and repeated entries |
| Matches.CurrentMatchesExact | components/Knockout.js:330-332 | In a ledger holding only the live round and the next, the filter keeps exactly the live round |
| Matches.CurrentMatchesPrefixQuirk | components/Knockout.js:330-332 | The prefix test also shows a match `10-0` in live round 1 |
| Advance.NextRoundEntrants | components/Knockout.js:245-256 | The next round seats every winner exactly once, in the order collected |
| Advance.NextRoundWinners | components/Knockout.js:245-256 | A freshly built round yields no winner except the odd last winner's bye |
| Advance.NextRound | components/Knockout.js:245-256 | The next round has `ceil(w/2)` matches for `w` winners |
| Advance.NextRoundShape | components/Knockout.js:245-256 | `ceil(w/2)` matches, fewer than the winners once there are two; ids `(round+1)-j`, winners `2j` and `2j+1` in match `j`, no scores; all contested except, for an odd count, the last, a bye already won by the last winner |
| Advance.CompletedRoundHalves | components/Knockout.js:232-256 | A complete round of `m` matches yields `m` winners and a next round of `ceil(m/2)` matches |
| Tournament.CollectWinners | components/Knockout.js:232-238 | The collection loop returns the winners in ledger order: a bye's team, a non-empty recorded winner, nothing for an unresolved match |
| Tournament.PairWinners | components/Knockout.js:245-256 | The pairing loop builds match `(round+1)-j` between winners `2j` and `2j+1`, or a pre-won bye for an odd last winner |
| Tournament.KnockoutTournament.AdvanceWinners | components/Knockout.js:225-260 | The history gains the old ledger. With one winner: that winner is announced and the ledger and counters stay. Otherwise the ledger becomes the next round and both counters rise by one |
| Tournament.ThreeTeamsSecondRound | components/Knockout.js:232-256 | With three teams and A winning the pre-round, the second round is A against C |
| Tournament.KnockoutTournament.ResetTournament | components/Knockout.js:300-309 | Every field is emptied or zeroed |
| Tournament.KnockoutTournament.GoToPreviousRound | components/Knockout.js:320-328 | No-op on an empty history; otherwise the last snapshot becomes the ledger and is popped, and both counters drop by one; counters in step with the history stay so |
| Tournament.KnockoutTournament.AdvanceThenUndo | components/Knockout.js:320-328 | Advancing then undoing restores the ledger and the history exactly, and the counters too after a new round; after a champion is announced both counters end one lower |
| Tournament.UndoAfterTournamentWon | components/Knockout.js:240-243 | Two teams, A wins, champion announced, one undo: both counters end at -1 |
| Tournament.KnockoutTournament.AdvanceWinnersCorrected | components/Knockout.js:240-243 | Announcing the champion takes no snapshot, so counters in step with the history stay so |
| Bracket.SixTeamsDropTwo | components/Knockout.js:174-198 | Six teams give A–B, byes for C and D, and seat E and F nowhere |
| Bracket.CorrectedSeatsEveryTeam | components/Knockout.js:174-198 | The corrected builder seats every team exactly once, in roster order |
| Bracket.CorrectedFieldIsPowerOfTwo | components/Knockout.js:174-198 | The corrected bracket has a power-of-two number of matches, so the next round is a full bracket |
| Text.Trim | components/Knockout.js:84 | The result is the input minus its leading and trailing whitespace runs; it is empty exactly when the input is all whitespace |
| Text.TrimIdempotent | components/Knockout.js:84-92 | Trimming twice is trimming once |
| Text.NatToStringInjective | components/Knockout.js:165 | Distinct slot numbers print differently |
| Text.IntToStringInjective | components/Knockout.js:249 | Distinct round numbers print differently |

## Left out

- JSX rendering, the round labels, animation, icons and title editing are presentation only. `resetTournament`'s title and form-state resets belong to this presentation layer.
- Loading and saving the state in `localStorage` is I/O. The component is modelled as starting empty.
- The `inputError` text and the editing and input form state are not modelled. Errors are returned as `ValidationError` values.
- Parsing score text with `parseInt` is not modelled, and neither is the `NaN` it can produce. Scores are optional integers.
- `Math.log2` and `Math.pow` are floating point. They are replaced by exact integer powers of two, which agree with them for every roster size a browser can hold.
- React's batching of state updates and its functional updaters are not modelled. Each handler is one atomic transition over the state it read.
- `Bracket.GenerateInitialMatches`: the branch for fewer than two teams also sets an error message. That message is not modelled, because the start handler rejects such rosters first.
- `Tournament.KnockoutTournament.HandleSaveTeam`: requires the index of an existing team. The edit control is only offered on listed teams. Assigning past the end of a JavaScript array is not modelled.
- A team actually named "Bye" is indistinguishable from the bye sentinel in the program. The entrant lemmas therefore assume no such name (`Bracket.NoByeNames`, `Advance.ProperNames`).
- The UI components (button and input class mapping) and the application shell only mount or style the component. They are not part of this model.

## Findings

| source | as written | input that shows it | evidently intended | confidence | as-written member | corrected member |
|---|---|---|---|---|---|---|
| components/Knockout.js:174-198 | The pre-round creates `ceil(pre/2)` matches, consuming only as many teams as it shifts. The byes then go to the next `byes` teams, and the teams after them are never seated. | Six teams A–F: A–B, a bye for C, a bye for D. E and F are dropped, and the field of three winners is no power of two. | `pre` pre-round matches seating `2*pre` teams, then byes for the rest. Every team plays, and the next round has a power-of-two field. | high (proved; not executed) | Bracket.SixTeamsDropTwo | Bracket.CorrectedSeatsEveryTeam |
| components/Knockout.js:225-243 | When a single winner remains, the ledger is pushed onto the history but neither counter is raised. A later undo pops that snapshot and lowers both counters. | Two teams, A beats B, advance (champion A), then go back one round: `round` and `completedRounds` are both -1. | Announcing the champion takes no snapshot, so the counters stay equal to the history length and never go negative. | high (proved; not executed) | Tournament.UndoAfterTournamentWon | Tournament.KnockoutTournament.AdvanceWinnersCorrected |

# moneyball rating engine

A Dafny model of the rating engine in `app/tasks.py` (moneyball_app). A match has two teams, winners and losers. Two ratings are kept per player:

- an elo rating;
- a TrueSkill rating, stored as a mean and a deviation.

Every rating change is appended to a single timeline of rating records: user, kind, value, timestamp, and the match that caused it. A player's current value of a kind is the value of that player's last record of that kind.

A match counts only once both sides have approved it. Approving a match, deleting one, or recalculating directly rebuilds the whole timeline:

1. Capture each user's earliest elo timestamp.
2. Wipe the timeline.
3. Reseed every user at that timestamp with elo 1500, mean 25 and deviation 8.333.
4. Replay the fully approved matches in timestamp order.

For each match, the replay does two things. First, it appends a mean and a deviation record for each player, rated by TrueSkill. Then it moves every winner's elo up and every loser's elo down by the same change:

`importance * (1 - Qw / (Qw + Ql))`, where `Q = 10^(avg / 400)` of each team's average elo.

The model is in these modules:

- `Wrappers`: `Option` and `Result`.
- `RatingRecords`: records, the current value of a kind (`Latest`), seeding, and the earliest elo timestamp.
- `Matches`: matches, the user–match links, the teams derived from the links, and approval. It also holds match creation and deletion, and the eligible matches in timestamp order.
- `Elo`: the expected-win fraction, the elo change, and the two append passes of `update_elo_by_match`.
- `TrueSkill`: `update_trueskill_by_match`, with `ts.rate` as a parameter.
- `Replay`: `update_match_ratings` as a step function, and the replay as a fold over the eligible matches. It also holds `recalculate_ratings` as a function, and the properties of the rebuilt timeline.
- `RatingStore`: the database as a class `Store`.
  - Its fields are users, matches, links, the rating timeline, and the next match id.
  - Each function of `app/tasks.py` is a method of it, with two exceptions. `get_match_elo_change` is the function `Elo.GetMatchEloChange`. The password functions are left out.
  - Each method is proved against the functions above.

### Behaviour of the code worth noting

- The elo change falls as the winners' margin over the losers grows. An underdog win moves more points (`Elo.EloDeltaFallsWithMargin`).
- Every successful approval recomputes the ratings, including one that leaves the match only half approved (`RatingStore.Store.ApproveMatch`).
- Creating a match never rates it. At most one side is approved at creation, because the code uses `elif` over winners then losers (`RatingStore.Store.MakeNewMatch`).
- Team validation is missing: `make_new_match` accepts empty or overlapping teams. If a fully approved match has an empty team, `ts.rate` raises during the replay (the `EmptyTeam` fault).
- A recalculation that raises midway keeps what it had already written. The model returns the partial timeline together with the fault.
- There is no fallback to the account creation time. A user with no elo record makes `.first()` return None, so the capture loop raises before the wipe (the `NoEloHistory` fault). The timeline is then unchanged.

## Model

| member | source | states |
|---|---|---|
| RatingRecords.LatestIsLast | app/tasks.py:75 | the current value of a kind is the value of some record of that user and kind with no later record of the same user and kind |
| RatingRecords.LatestAppendOthers | app/tasks.py:73-82 | appending records of other users or kinds leaves a user's current value unchanged |
| RatingRecords.Seeds | app/tasks.py:27-32 | seeding yields exactly three records: elo 1500, mean 25, deviation 8.333, all at the given time and none tied to a match |
| RatingRecords.SeedsCurrent | app/tasks.py:24-34 | seeding keeps every earlier record and makes 1500, 25 and 8.333 the user's current values |
| RatingRecords.EarliestElo | app/tasks.py:42-46 | the result exists exactly when the user has an elo record; it is the timestamp of one of them and no elo record of the user is earlier |
| Matches.NewMatchTeams | app/tasks.py:160-171 | after appending the winner links and then the loser links of a fresh id, the derived winning and losing teams are exactly the given lists, in order |
| Matches.Approve | app/tasks.py:132-139 | approval succeeds exactly when the approver is on a team; a winner (checked first) sets only the winners' flag, a loser only the losers' flag; nothing else of the match changes |
| Matches.ApproveMonotone | app/tasks.py:132-139 | approval never clears a flag, and once a match is fully approved it stays so |
| Matches.NewMatch | app/tasks.py:146-156 | a creator on the winners approves only the winners' side; else a creator on the losers approves only the losers' side; else neither; a new match is never fully approved |
| Matches.Without | app/tasks.py:60 | deletion keeps exactly the matches with another id and preserves distinct ids |
| Matches.SortByTime | app/tasks.py:55 | the result is ordered by timestamp and is a permutation of the input |
| Matches.EligibleInOrder | app/tasks.py:52-55 | the replayed matches are ordered by timestamp; they are exactly the fully approved matches of the store, as a multiset and by membership, with distinct ids kept |
| Elo.ExpectedWin | app/tasks.py:125-128 | the expected win fraction lies strictly between 0 and 1 and is one half for equal averages |
| Elo.ExpectedWinComplement | app/tasks.py:128 | the two teams' expected fractions add up to 1 |
| Elo.ExpectedWinMonotone | app/tasks.py:125-128 | a higher winners' average gives a strictly higher expected fraction |
| Elo.EloDelta | app/tasks.py:129 | for positive importance the change lies strictly between 0 and the importance, and is half the importance for equal averages |
| Elo.EloDeltaIsLoserExpectation | app/tasks.py:128-129 | the change is the importance times the losers' expected fraction |
| Elo.EloDeltaGrowsWithImportance | app/tasks.py:129 | for fixed averages the change is strictly increasing in the importance |
| Elo.EloDeltaFallsWithMargin | app/tasks.py:121-129 | for positive importance the change strictly decreases as the winners' average rises over the losers' |
| Elo.TeamAverageConstant | app/tasks.py:123-124 | a team whose members all have the same current elo averages to that elo |
| Elo.GetMatchEloChange | app/tasks.py:118-130 | for positive importance the match's change lies strictly between 0 and the importance; it is half the importance when the team averages are equal |
| Elo.EloPass | app/tasks.py:73-77 | one record per player, in team order, each of kind elo, tied to the match and stamped with its timestamp |
| Elo.EloPassValues | app/tasks.py:73-77 | with no repeated player, each player's record carries that player's elo before the pass plus the change |
| Elo.EloPassesValues | app/tasks.py:73-82 | with disjoint teams and no repeats, each winner gains the change on their old elo and each loser loses it |
| Elo.EloUpdate | app/tasks.py:71-83 | one elo record per winner and then per loser, each tied to the match and stamped with its timestamp |
| Elo.EloUpdateValues | app/tasks.py:71-83 | with no player repeated, every winner's new elo is their old elo plus the match's change, and every loser's is their old elo minus the same change |
| Elo.EvenPairChange | app/tasks.py:118-130 | two players with equal elo give a change of half the importance |
| Elo.EvenMatchExample | app/tasks.py:71-83 | one 1500 player beats another at importance 30: the winner moves to 1515 and the loser to 1485 |
| Elo.EloUpdateAttributed | app/tasks.py:71-83 | the elo records tied to the match are exactly one per winner then per loser; no other match gets any |
| TrueSkill.CurrentSkills | app/tasks.py:86-94 | one current (mean, deviation) pair per player, in team order |
| TrueSkill.Zip | app/tasks.py:100 | pairs players with new ratings up to the shorter of the two lists, dropping the rest |
| TrueSkill.SkillRecords | app/tasks.py:100-116 | two records per zipped pair, each tied to the match and stamped with its timestamp |
| TrueSkill.SkillRecordsAt | app/tasks.py:100-116 | the records at 2i and 2i+1 are the mean and then the deviation of the i-th pair's player |
| TrueSkill.TrueskillUpdate | app/tasks.py:85-116 | the update fails exactly when a team is empty, with the EmptyTeam fault of that match; otherwise it appends only mean and deviation records of the match |
| TrueSkill.TrueskillUpdatePairs | app/tasks.py:96-116 | a successful update writes, per zipped player, the mean and deviation that the rater returned for that position |
| TrueSkill.SkillRecordsAttributed | app/tasks.py:100-116 | the mean (and deviation) records tied to the match are the zipped players in order; none is tied to another match |
| TrueSkill.TrueskillUpdatePlayers | app/tasks.py:96-116 | whatever the rater returns, records are written only for players of the two teams, since the zip never runs past the player list |
| TrueSkill.TrueskillUpdateAttributed | app/tasks.py:85-116 | with a rater that keeps the group shape, the records tied to the match are one per winner then per loser of each kind |
| Replay.MatchUpdate | app/tasks.py:64-69 | a match not fully approved adds nothing; a fully approved one fails exactly when a team is empty, with the EmptyTeam fault; otherwise it adds only records tied to the match and stamped with its timestamp |
| Replay.MatchUpdateParticipants | app/tasks.py:64-69 | a successful step writes records only for players of the match it rates |
| Replay.MatchUpdateAttributed | app/tasks.py:64-69 | a successful step ties one record of each kind per participant to the match if it is fully approved, and none to any other match |
| Replay.Step | app/tasks.py:56-57 | a step never drops a record and keeps every linked player rated; once a fault has occurred further steps change nothing |
| Replay.StepCases | app/tasks.py:56-57 | a step without an earlier fault appends exactly the update's records, or reports its fault and leaves the timeline unchanged |
| Replay.ReplayFrom | app/tasks.py:56-57 | the replay extends the starting timeline and keeps every linked player rated |
| Replay.ReplaySplit | app/tasks.py:56-57 | replaying a list of matches equals replaying a prefix and then the rest from where the prefix stopped |
| Replay.ReplayReadsEarlier | app/tasks.py:56-57 | unfolds the replay by one match: replaying the first j + 1 matches is one step on the replay of the first j. This is the form the loop invariant of `RatingStore.Store.ReplayMatches` uses |
| Replay.PrefixCompletes | app/tasks.py:56-57 | a replay that completes completes on every prefix |
| Replay.FaultStops | app/tasks.py:56-57 | once a prefix raises, the later matches change nothing |
| Replay.ReplayProvenance | app/tasks.py:56-57 | every appended record is tied to a fully approved replayed match and stamped with its timestamp |
| Replay.ReplayByParticipants | app/tasks.py:56-57 | every appended record is tied to a match and belongs to one of that match's players |
| Replay.ReplayCompletes | app/tasks.py:56-57 | the replay completes exactly when no fully approved match in it has an empty team |
| Replay.ReplayFirstFault | app/tasks.py:56-57 | a replay that raises stopped at some match whose prefix completed and whose own step raised |
| Replay.ReplayAttributed | app/tasks.py:56-57 | a completed replay ties to each match id exactly the participants of the fully approved matches with that id, in replay order |
| Replay.CapturedTimestamps | app/tasks.py:38-46 | the capture succeeds exactly when every user has an elo record, giving each user's earliest elo timestamp; otherwise it names a user without one |
| Replay.CaptureStops | app/tasks.py:39-46 | once a user lacks an elo record, the users after it do not change the outcome |
| Replay.AllSeeds | app/tasks.py:49-50 | the reseeded timeline is each user's three seed records at their timestamp, in user order |
| Replay.AllSeedsRated | app/tasks.py:49-50 | after reseeding every user has a record of each kind |
| Replay.RecalculatePastCapture | app/tasks.py:36-57 | past the capture, the recalculation is the replay of the eligible matches, in order, from the reseeded timeline |
| Replay.RecalculateCompletes | app/tasks.py:36-57 | the recalculation completes exactly when every user has elo history and every fully approved match has both teams; a user without history makes it raise for the first such user, with the timeline untouched |
| Replay.RecalculateSeeds | app/tasks.py:39-50 | the rebuilt timeline starts with each user's three seed records, stamped with that user's earliest elo timestamp from before the wipe |
| Replay.RecalculateOnlyApproved | app/tasks.py:36-57 | every rebuilt record is a seed of its user or is tied to a fully approved match of the store and stamped with that match's timestamp, even when a bad match stops the replay |
| Replay.RecalculateNothingUnapproved | app/tasks.py:36-57 | no rebuilt record is tied to a match of the store that is not fully approved |
| Replay.RecalculatePerParticipant | app/tasks.py:36-57 | after a completed recalculation each match has one record of each kind per participant, winners first, if it is fully approved, and none otherwise |
| Replay.RecalculateForgetsDeleted | app/tasks.py:59-62 | after deleting a match and recalculating, no record is tied to the deleted match |
| Replay.SeedsStayEarliest | app/tasks.py:39-57 | after reseeding at the captured timestamps and replaying, a user's earliest elo record is still at the captured timestamp, provided none of the user's replayed matches is stamped earlier |
| Replay.RecalculateIdempotent | app/tasks.py:36-57 | recalculating a second time gives the same timeline and outcome as the first run, including runs that raise. The proof assumes that no fully approved match is stamped before the earliest elo record of one of its players |
| RatingStore.Upper | app/tasks.py:15 | upper-casing keeps the length, maps each lower-case letter to its capital and leaves every other character alone |
| RatingStore.UpperIdempotent | app/tasks.py:7 | an upper-cased name has no lower-case letter, and upper-casing it again changes nothing |
| RatingStore.CreateKeepsUnique | app/tasks.py:6-17 | adding a user whose names pass both checks keeps the shortnames and the nicknames distinct |
| RatingStore.UpdateKeepsUnique | app/tasks.py:179-183 | renaming a user keeps names distinct exactly when the new names clash with no other user |
| RatingStore.Store.InitRatings | app/tasks.py:24-34 | appends the user's three seed records and changes nothing else |
| RatingStore.Store.AppendEloPass | app/tasks.py:73-77 | the loop appends exactly the records of the elo pass, reading each current elo from the growing timeline |
| RatingStore.Store.ApplyEloUpdate | app/tasks.py:72-83 | the two loops append exactly the elo update of the match |
| RatingStore.Store.UpdateEloByMatch | app/tasks.py:71-83 | raises EmptyTeam, with nothing written, exactly when a team is empty; otherwise appends the elo update |
| RatingStore.Store.ReadSkills | app/tasks.py:88-94 | reads each player's current (mean, deviation) in team order |
| RatingStore.Store.AppendSkillRecords | app/tasks.py:100-116 | the loop appends exactly the mean and deviation records of each zipped pair |
| RatingStore.Store.ApplyTrueskillUpdate | app/tasks.py:85-116 | fails, with nothing written, exactly as the TrueSkill update fails; otherwise appends its records |
| RatingStore.Store.UpdateTrueskillByMatch | app/tasks.py:85-116 | the TrueSkill update over the match's derived teams |
| RatingStore.Store.UpdateMatchRatings | app/tasks.py:64-69 | rates exactly the fully approved matches, TrueSkill first and then elo; the result is the step of the replay |
| RatingStore.Store.CaptureTimestamps | app/tasks.py:37-46 | the loop computes the captured earliest elo timestamps or the first user's fault |
| RatingStore.Store.Reseed | app/tasks.py:47-50 | the timeline becomes exactly the reseeded timeline |
| RatingStore.Store.ReplayMatches | app/tasks.py:56-57 | the loop ends in the state and fault of the replay of the given matches |
| RatingStore.Store.RecalculateRatings | app/tasks.py:36-57 | the timeline and fault are those of the recalculation, so every Recalculate lemma applies to the store |
| RatingStore.Store.DeleteMatch | app/tasks.py:59-62 | removes the match with that id and leaves the store recalculated |
| RatingStore.Store.ApproveMatch | app/tasks.py:132-142 | a non-participant gets the refusal message with nothing changed; otherwise the flag is set and the store recalculated, replying approved or with the fault |
| RatingStore.Store.MakeNewMatch | app/tasks.py:144-176 | adds the new match with the creator's side approved and the links of both teams, whose derived teams are the given lists; the timeline is unchanged |
| RatingStore.Store.AddMatch | app/tasks.py:151-158 | stores the match under a fresh id that no link uses yet |
| RatingStore.Store.AddSide | app/tasks.py:160-171 | appends one link per player of the side, in order |
| RatingStore.Store.CreateUser | app/tasks.py:6-22 | fails with the shortname message if the upper-cased shortname is taken, else with the nickname message if that is taken; otherwise adds the user and seeds them; distinct names are kept |
| RatingStore.Store.UpdateUser | app/tasks.py:179-183 | replaces the user's shortname, upper-cased, and nickname, and changes nothing else |

## Left out

- `app/routes.py` (the web layer) is not part of this model. That includes its copy of the elo change at app/routes.py:120-130.
- The database migrations are not part of this model.
- `app/models.py` is not part of this model.
  - A team is derived from the links in link order.
  - A current value is the last record of its kind.
  - Match ids come from a counter and are never reused.
  - Deleting a match keeps its links, which the engine then ignores.
- The TrueSkill mathematics of `ts.rate` is a parameter of the model, named `rate`. The properties hold for every rater.
  - The per-participant lemmas assume only that the rater returns groups of the same sizes.
  - An empty team is taken to make it raise.
- Floating point is modelled as real arithmetic.
- `10 ** (avg / 400)` is a parameter `q`, assumed positive and strictly increasing. Rounding and overflow are not modelled.
- `set_password` and `update_password` are left out: password hashing is outside the rating engine.
- `datetime.now()` is a parameter. It is the time `CreateUser` passes to the seeding, as `init_ratings` does at app/tasks.py:25-26 when it gets no timestamp.
- `make_new_match` never sets a timestamp; the match's time is a column default of the models layer. The `now` parameter of `MakeNewMatch` stands for that default.
- Replay.RecalculateIdempotent: idempotence is proved only when no fully approved match is stamped before the earliest elo record of one of its players. Without that condition, a second run can reseed a player at an earlier match's time and give a different timeline. The match time comes from that column default, so whether the condition always holds is not settled here.
- Database sessions, commits, flushes and concurrent requests are not modelled.
  - Each method acts on the store atomically, except that a recalculation which raises keeps its partial timeline.
- Matches with equal timestamps are replayed in the order the model's insertion sort gives them. The database leaves that order unspecified, so the model fixes one of the orders it may choose.
- RatingStore.Upper: only ASCII letters are upper-cased. Python's `str.upper` covers all of Unicode.
- RatingStore.Store.UpdateMatchRatings answers `rated == true` where the source returns None. It answers `false` where the source returns False.
- RatingStore.Store.ApproveMatch takes the position of the match in the store rather than the match object.
- RatingStore.Store.CreateUser returns the error message where the source raises AssertionError with that message.
- RatingStore.Store.DeleteMatch, ApproveMatch and RecalculateRatings report a fault named `EmptyTeam` or `NoEloHistory` where the source propagates an exception.

# El Clásico goals tracker — a Dafny model

El Clásico is a React application for a weekly five-a-side group. It tracks
the goals of every player, both per calendar month and all time. It also
logs matches between two teams picked from the players, keeps the monthly
pitch payments, and shows a dashboard: the monthly leaderboard, the top
scorer, and the team of the month.

The repository holds two variants of the app:

- **The simpler variant** (`src/App.jsx`). Anyone may edit. Deletions ask no
  confirmation. A logged match carries no score.
- **The richer variant** (`football-goals-tracker/src/App.jsx`).
  - Every change is gated on an administrator being signed in.
  - Deletions are confirmed.
  - A logged match carries a score that can be edited later.
  - Each player also keeps a tally of goals per *match period*: the goals
    scored since the player's last logged match.

This project models the handlers and derived values of both variants, plus
five components:

- the team divider (`src/components/TeamDivider.jsx`);
- the team of the month;
- the payment reminder banner;
- the player details modal;
- the custom teams panel.

## Layout

| module | file | what it models |
|---|---|---|
| `Domain` | `domain.dfy` | players, matches and payments as values; the `x \|\| 0` reading of missing or null fields |
| `Sorting` | `sorting.dfy` | `filter`, `reduce` with `+`, and the stable `Array.prototype.sort` with a comparator |
| `Ledger` | `ledger.dfy` | one player's record under a goal added or removed and a match logged; the counter invariant |
| `Roster` | `roster.dfy` | removing and replacing records by id; the selection toggle |
| `Ranking` | `ranking.dfy` | the leaderboard, top scorer, statistics, consecutive-scoring count and current match-period tally |
| `ClasicoApp` | `clasico_app.dfy` | the richer variant's state as the class `League`, with one method per handler |
| `TrackerApp` | `tracker_app.dfy` | the simpler variant's state as the class `Tracker` |
| `TeamDivider` | `team_divider.dfy` | balanced and shuffled team division; the class `Divider` holds the two teams |
| `IdOrder` | `id_order.dfy` | the default (string) order of `ids.sort()` |
| `TeamOfTheMonth` | `team_of_month.dfy` | grouping scored matches by roster and ranking the groups |
| `PaymentDue` | `payment_due.dfy` | the due date, the days left and the banner; the class `Banner` |
| `PlayerDetails` | `player_details.dfy` | match history, the "on fire" run and the W/D/L rows of the details modal |
| `CustomTeams` | `custom_team.dfy` | name trimming, team totals; the class `Panel` |

### How the model works

**React state.** The state each app keeps with `useState` is a class with
one field per piece of state. Every handler is a method whose `ensures`
states the whole new state as a pure function of the old one. The
per-player update a handler maps over the roster is the function it names,
for example `PeriodGoalAdder(today, month)`.

**What the app classes keep.** `League.Valid` is the ledger invariant
`Ledger.Wellformed` for every player:

- no counter is negative;
- the all-time total never exceeds the sum of the monthly tallies.

`Tracker.Valid` is that invariant together with `TrackerApp.Plain`: no
player of the simpler variant has match-period tallies, a last match date,
assists or MVPs.

`League.PeriodsAgree` says that each player's `lastMatchDate` names the
player's newest logged match. Each method states which of these it keeps.

**Clocks and dialogs.**
- Every `Date.now()` or `new Date()` reading is a parameter: an id, a day
  number, a month, or a millisecond time.
- Every `window.confirm` answer is a `confirmed` parameter.
- Every `alert` on a refused action is a `false` or `None` result.

**What the model follows.** The model follows the code, not its comments.
One such place is the all-time total: the code does not keep it equal to
the sum of the monthly tallies. `removeGoal` lowers the total even when the
current month's entry is already 0, so only "at most" holds.
`Ledger.RevokeInEmptyMonth` exhibits the case.

## Model

| member | source | states |
|---|---|---|
| Sorting.SortStable | football-goals-tracker/src/App.jsx:359-364 | sorting with a consistent comparator keeps every tie class in input order |
| Sorting.SortPermutationInvariant | football-goals-tracker/src/components/TeamOfTheMonth.jsx:11-12 | under a total order the sorted result depends only on the elements, not their input order |
| Sorting.SortDescending | football-goals-tracker/src/App.jsx:359-364 | a sort by a two-key descending comparator never puts a higher-ranked element behind a lower one |
| Ledger.NewPlayerIsBlank | football-goals-tracker/src/App.jsx:85-102 | a new player satisfies the ledger invariant with every monthly tally empty |
| Ledger.Increment | football-goals-tracker/src/App.jsx:137-138 | the entry at the key rises by one (a missing entry counting 0), every other entry is unchanged, and the key is added |
| Ledger.Decrement | football-goals-tracker/src/App.jsx:176-179 | a positive entry falls by one; a zero, negative or missing entry leaves the map unchanged; other entries are untouched |
| Ledger.ScoreGoalKeepsLedger | football-goals-tracker/src/App.jsx:128-166 | adding a goal, with or without the match-period tally, keeps the invariant and raises the monthly sum by exactly one |
| Ledger.RevokeGoalKeepsLedger | football-goals-tracker/src/App.jsx:168-195 | removing a goal, with or without the match-period tally, keeps every counter non-negative and the total within the monthly sum |
| Ledger.StartPeriodKeepsLedger | football-goals-tracker/src/App.jsx:226-240 | logging a match for a participant, in either variant, keeps the invariant |
| Ledger.UpdatesKeepLedger | football-goals-tracker/src/App.jsx:121-240 | every per-player update a handler maps over the roster keeps a consistent player consistent |
| Ledger.UpdateWhereKeepsLedger | football-goals-tracker/src/App.jsx:226-240 | mapping such an update over the roster keeps every player consistent |
| Ledger.RevokeAfterScore | football-goals-tracker/src/App.jsx:128-195 | a goal added then removed on the same day restores the total and both tallies, but not the streak or the last goal date |
| Ledger.RevokeInEmptyMonth | src/App.jsx:101-119 | removing a goal in a month with no entry lowers only the total, so the total can fall below the monthly sum |
| Ledger.ReplayKeepsLedger | football-goals-tracker/src/App.jsx:128-254 | any sequence of goals added, goals removed and matches logged keeps the invariant |
| Ledger.FreshPlayerLedger | football-goals-tracker/src/App.jsx:85-254 | from a new player no sequence of events makes the total negative or larger than the monthly sum |
| Ledger.FlipTwice | football-goals-tracker/src/App.jsx:121-126 | toggling a player's type twice gives back the original roster |
| Ledger.StreakCountsDays | football-goals-tracker/src/App.jsx:148-155 | after goals on non-decreasing days, the streak is the number of days in the final run of consecutive days |
| Roster.WithoutPlayer | football-goals-tracker/src/App.jsx:109-119 | the remaining players are exactly those whose id differs |
| Roster.WithoutMatch | football-goals-tracker/src/App.jsx:261-266 | the remaining matches are exactly those whose id differs |
| Roster.WithoutPayment | football-goals-tracker/src/App.jsx:296-301 | the remaining payments are exactly those whose id differs |
| Roster.ReplaceMatchKeepsOthers | football-goals-tracker/src/App.jsx:256-259 | replacing by id keeps the length and ids, and every match other than the edit was there before with another id |
| Roster.Toggle | football-goals-tracker/src/App.jsx:197-208 | the id changes membership and no other id does |
| Roster.ToggleTwice | football-goals-tracker/src/App.jsx:197-208 | toggling the same id twice restores the selection |
| Roster.PlayerIds | football-goals-tracker/src/App.jsx:210-213 | the selection holds every player's id and nothing else |
| Roster.Participants | football-goals-tracker/src/App.jsx:223 | an id participates exactly when it is on Team A or Team B |
| Ranking.LeaderboardOrder | football-goals-tracker/src/App.jsx:359-364 | the leaderboard is a permutation of the players, ordered by month goals, then all-time goals, larger first |
| Ranking.LeaderboardStable | src/App.jsx:207-213 | players tied on both keys keep their roster order |
| Ranking.TopScorerIsBest | football-goals-tracker/src/App.jsx:366-368 | there is a top scorer exactly when there are players; no player has more month goals; the banner shows exactly when someone scored this month |
| Ranking.UpdateWhereSum | football-goals-tracker/src/App.jsx:372-374 | an update shifting a figure by a fixed amount shifts its sum over the roster by that amount per updated player |
| Ranking.AddGoalStatistics | football-goals-tracker/src/App.jsx:371-376 | adding a goal raises the month and all-time totals by one per player with that id; the player and match counts stay |
| Ranking.ConsecutiveScoring | football-goals-tracker/src/App.jsx:269-285 | the count is the length of the leading run of scored history in which the player's side scored |
| Ranking.HistoryNewestFirst | football-goals-tracker/src/App.jsx:270-272 | a filtered history holds exactly the selected matches, newest first |
| Ranking.LatestMatchHeadsHistory | football-goals-tracker/src/App.jsx:242-250 | a scored match newer than all others heads the scored history of each of its players |
| Ranking.MatchPeriodGoalsIsCurrentPeriod | football-goals-tracker/src/App.jsx:344-356 | while `lastMatchDate` agrees with the history, the tally shown is the one goals are credited to |
| Ranking.NewestMatchDate | football-goals-tracker/src/App.jsx:348-352 | when the player's matches are all dated at most `d` and one is dated `d`, the newest one is dated `d` |
| Ranking.LogMatchKeepsAgreement | football-goals-tracker/src/App.jsx:220-254 | logging a match newer than all others keeps each player's `lastMatchDate` in agreement, participant or not |
| ClasicoApp.UpdateWhereKeepsAgreement | football-goals-tracker/src/App.jsx:121-195 | an update keeping id and last match date keeps every player's period agreement |
| ClasicoApp.LogMatchKeepsRosterAgreement | football-goals-tracker/src/App.jsx:226-240 | opening a period for the participants of a newest match keeps the whole roster in agreement |
| ClasicoApp.League.constructor | football-goals-tracker/src/App.jsx:18-37 | the app starts empty, consistent and in agreement |
| ClasicoApp.League.AddPlayer | football-goals-tracker/src/App.jsx:85-102 | an administrator appends a blank permanent player; others change nothing; the invariants are kept |
| ClasicoApp.League.UpdatePlayer | football-goals-tracker/src/App.jsx:104-107 | the edited record replaces the stored one with its id; the ledger invariant is kept for a consistent edit |
| ClasicoApp.League.DeletePlayer | football-goals-tracker/src/App.jsx:109-119 | after confirmation the player leaves the roster and the selection |
| ClasicoApp.League.TogglePlayerType | football-goals-tracker/src/App.jsx:121-126 | the permanent flag of the player flips; the invariants are kept |
| ClasicoApp.League.AddGoal | football-goals-tracker/src/App.jsx:128-166 | the player gets the goal in total, month and current period; the invariants are kept |
| ClasicoApp.League.RemoveGoal | football-goals-tracker/src/App.jsx:168-195 | the player loses a goal where positive; the invariants are kept |
| ClasicoApp.League.TogglePlayerSelection | football-goals-tracker/src/App.jsx:197-208 | an administrator toggles the id in the selection |
| ClasicoApp.League.SelectAllPlayers | football-goals-tracker/src/App.jsx:210-213 | an administrator selects every player's id |
| ClasicoApp.League.ClearSelection | football-goals-tracker/src/App.jsx:215-218 | an administrator empties the selection |
| ClasicoApp.League.LogMatch | football-goals-tracker/src/App.jsx:220-254 | participants open a period at the match date, the match is appended scored 0-0, the selection is cleared; agreement holds for a newest match |
| ClasicoApp.League.UpdateMatchScore | football-goals-tracker/src/App.jsx:256-259 | the edited match replaces the stored one with its id |
| ClasicoApp.League.DeleteMatch | football-goals-tracker/src/App.jsx:261-266 | after confirmation the match is removed; players are untouched |
| ClasicoApp.League.AddPayment | football-goals-tracker/src/App.jsx:287-294 | a payment is appended, dated by the clock when no date is given |
| ClasicoApp.League.DeletePayment | football-goals-tracker/src/App.jsx:296-301 | after confirmation the payment is removed |
| ClasicoApp.League.TopScorerConsecutive | football-goals-tracker/src/App.jsx:367-369 | 0 without players, otherwise the top scorer's consecutive-scoring run |
| TrackerApp.PlainUpdates | src/App.jsx:68-154 | the simpler variant's updates never give a player period tallies, a last match date, assists or MVPs |
| TrackerApp.UpdateWhereKeepsPlain | src/App.jsx:68-154 | mapping such an update over the roster keeps every player plain |
| TrackerApp.Tracker.constructor | src/App.jsx:11-18 | the app starts empty and consistent |
| TrackerApp.Tracker.AddPlayer | src/App.jsx:39-51 | a blank permanent player is appended; the invariant is kept |
| TrackerApp.Tracker.DeletePlayer | src/App.jsx:53-60 | the player leaves the roster and the selection, without confirmation |
| TrackerApp.Tracker.TogglePlayerType | src/App.jsx:62-66 | the permanent flag of the player flips |
| TrackerApp.Tracker.AddGoal | src/App.jsx:68-99 | the player gets the goal in total and month, and the day streak advances; the invariant is kept |
| TrackerApp.Tracker.RemoveGoal | src/App.jsx:101-119 | the player loses a goal where positive; the invariant is kept |
| TrackerApp.Tracker.TogglePlayerSelection | src/App.jsx:121-131 | the id is toggled in the selection |
| TrackerApp.Tracker.SelectAllPlayers | src/App.jsx:133-135 | every player's id is selected |
| TrackerApp.Tracker.ClearSelection | src/App.jsx:137-139 | the selection is emptied |
| TrackerApp.Tracker.LogMatch | src/App.jsx:141-154 | participants' match counts rise and an unscored match is appended; the selection stays |
| TrackerApp.Tracker.AddPayment | src/App.jsx:156-162 | a payment is appended, dated by the clock when no date is given |
| TrackerApp.Tracker.DeletePayment | src/App.jsx:164-166 | the payment is removed |
| TeamDivider.SelectionList | src/components/TeamDivider.jsx:16 | the list holds exactly the roster players whose id is selected |
| TeamDivider.Evens | src/components/TeamDivider.jsx:35-41 | Team A holds the players at even positions, and there are ⌈n/2⌉ of them |
| TeamDivider.Odds | src/components/TeamDivider.jsx:35-41 | Team B holds the players at odd positions, and there are ⌊n/2⌋ of them |
| TeamDivider.SplitAlternately | src/components/TeamDivider.jsx:32-41 | the loop deals even positions to Team A and odd positions to Team B |
| TeamDivider.AlternatePartition | src/components/TeamDivider.jsx:35-41 | every player is dealt to exactly one team |
| TeamDivider.AlternateBalance | src/components/TeamDivider.jsx:25-41 | dealing heaviest first gives Team A at least Team B's weight, and at most the heaviest weight more |
| TeamDivider.StrongestFirstIsHeaviestFirst | src/components/TeamDivider.jsx:25-29 | after the sort no player is weaker than one behind them |
| TeamDivider.BalancedTeamsSplitSelection | src/components/TeamDivider.jsx:18-45 | the teams split the selection, Team A takes the odd player, and the goal totals shown add up to the selection's |
| TeamDivider.BalancedTeamsAreClose | src/components/TeamDivider.jsx:24-41 | Team A is at least as strong as Team B, and ahead by at most the strongest selected player's strength |
| TeamDivider.PairwiseStronger | src/components/TeamDivider.jsx:25-41 | Team B never has more players, and each Team A player is at least as strong as the Team B player dealt with them |
| TeamDivider.DividerTiesKeepRosterOrder | src/components/TeamDivider.jsx:25-29 | players of equal strength keep their roster order after the sort |
| TeamDivider.AlternateSum | src/components/TeamDivider.jsx:59-63 | the teams' totals add up to the selection's total |
| TeamDivider.HalfSplitIsFair | src/components/TeamDivider.jsx:53-56 | the two halves of a shuffled selection split it, with Team A taking the odd player |
| TeamDivider.IdsOf | src/components/TeamDivider.jsx:73 | the ids are the team's, in team order |
| TeamDivider.TwoPlayersMakeAMatch | src/components/TeamDivider.jsx:68-72 | either division gives two non-empty teams exactly when at least two players are selected |
| TeamDivider.Divider.constructor | src/components/TeamDivider.jsx:13-14 | both teams start empty |
| TeamDivider.Divider.DivideTeams | src/components/TeamDivider.jsx:18-45 | with no selection the teams stay and the user is alerted; otherwise the balanced teams replace them |
| TeamDivider.Divider.ShuffleTeams | src/components/TeamDivider.jsx:47-57 | with no selection the teams stay; otherwise the halves of the random order replace them |
| TeamDivider.Divider.HandleLogMatch | src/components/TeamDivider.jsx:68-75 | the two id lists are handed over exactly when both teams are non-empty |
| IdOrder.IdBeforeIsTotal | football-goals-tracker/src/components/TeamOfTheMonth.jsx:11-12 | the default string order of `sort()` is a strict total order |
| IdOrder.SortIdsIgnoresOrder | football-goals-tracker/src/components/TeamOfTheMonth.jsx:11-12 | the same roster in any order gets the same group key |
| TeamOfTheMonth.EnsureKeeps | football-goals-tracker/src/components/TeamOfTheMonth.jsx:14-34 | opening a group keeps the table consistent, existing groups unchanged and every column total unchanged |
| TeamOfTheMonth.StepConsistent | football-goals-tracker/src/components/TeamOfTheMonth.jsx:8-54 | one pass keeps the table consistent |
| TeamOfTheMonth.TallyConservation | football-goals-tracker/src/components/TeamOfTheMonth.jsx:5-57 | the groups' matches total twice the scored matches, their goals total the scored goals, and wins total losses |
| TeamOfTheMonth.GroupsBalance | football-goals-tracker/src/components/TeamOfTheMonth.jsx:36-53 | every group's wins, draws and losses add up to its matches |
| TeamOfTheMonth.NoGroupsIffNothingScored | football-goals-tracker/src/components/TeamOfTheMonth.jsx:9 | there is a group exactly when some match has a truthy score |
| TeamOfTheMonth.SingleMatchResult | football-goals-tracker/src/components/TeamOfTheMonth.jsx:14-53 | one scored match credits each side's goals, one match, and the win, draw or loss the score gives |
| TeamOfTheMonth.OpenGroups | football-goals-tracker/src/components/TeamOfTheMonth.jsx:14-34 | a group is opened for each side's roster that has none yet, in that order |
| TeamOfTheMonth.CreditResult | football-goals-tracker/src/components/TeamOfTheMonth.jsx:36-53 | Team A's group, then Team B's, is credited with its goals, a match and its result |
| TeamOfTheMonth.VisitMatch | football-goals-tracker/src/components/TeamOfTheMonth.jsx:8-54 | one pass of the loop is one step of the tally, and it leaves a scored match's rosters sorted |
| TeamOfTheMonth.TallyPrefix | football-goals-tracker/src/components/TeamOfTheMonth.jsx:8 | the tally of one more match is one more step |
| TeamOfTheMonth.CalculateTeamStats | football-goals-tracker/src/components/TeamOfTheMonth.jsx:5-57 | the result is the groups of the tally in insertion order, and every scored match's rosters end up sorted in place |
| TeamOfTheMonth.TopTeamsAreBest | football-goals-tracker/src/components/TeamOfTheMonth.jsx:62-67 | the listing holds up to three groups, ordered by goals then wins; no group left out outranks a listed one |
| TeamOfTheMonth.NoTopTeamsIffNothingScored | football-goals-tracker/src/components/TeamOfTheMonth.jsx:69 | the empty message shows exactly when no match has a truthy score |
| PaymentDue.CeilDaysBounds | football-goals-tracker/src/components/PaymentDueBanner.jsx:25 | the rounded-up day count is the least whole number of days reaching the time left |
| PaymentDue.CeilDaysMonotone | football-goals-tracker/src/components/PaymentDueBanner.jsx:25 | more time left never gives fewer days |
| PaymentDue.LatestDateIsMaximum | football-goals-tracker/src/components/PaymentDueBanner.jsx:15-17 | the first payment after the sort is a latest one |
| PaymentDue.AddPaymentNeverBringsDueDateCloser | football-goals-tracker/src/components/PaymentDueBanner.jsx:15-25 | recording a payment never lowers the days left, and recording an older one changes nothing |
| PaymentDue.BannerFollowsTheClock | football-goals-tracker/src/components/PaymentDueBanner.jsx:28-51 | the banner shows from a week before the due date; it is overdue from a day after; it says "due today" for the day itself; it is upcoming while more than three days remain |
| PaymentDue.Banner.Refresh | football-goals-tracker/src/components/PaymentDueBanner.jsx:7-34 | with no payment the banner shows at 0 days; otherwise it shows exactly within seven days, keeping the old count when hidden |
| PlayerDetails.ScoringRunIsLeadingRun | football-goals-tracker/src/components/PlayerDetailsModal.jsx:17-31 | the run is the one count whose leading matches all extend it and that stops at the first match that does not |
| PlayerDetails.RecentForm | football-goals-tracker/src/components/PlayerDetailsModal.jsx:15-31 | the loop yields the run over the newest-first history, and the player is on fire exactly when it is positive |
| PlayerDetails.ScoredHistoryWithinPlayerMatches | football-goals-tracker/src/components/PlayerDetailsModal.jsx:9-11 | the app's scored history is the modal's history without its unscored matches, in the same order |
| PlayerDetails.DroppingUnscoredKeepsRun | football-goals-tracker/src/components/PlayerDetailsModal.jsx:19 | dropping matches without both scores never shortens the run |
| PlayerDetails.AppStreakIsScoringRun | football-goals-tracker/src/App.jsx:269-285 | the app's consecutive-scoring count is the run over the scored history |
| PlayerDetails.DetailsStreakWithinAppStreak | football-goals-tracker/src/components/PlayerDetailsModal.jsx:15-31 | the modal's count never exceeds the dashboard's, and equals it when every match carries both scores |
| PlayerDetails.OutcomeMirrors | football-goals-tracker/src/components/PlayerDetailsModal.jsx:91-104 | opponents see opposite results, a draw is a draw for both, and the result follows Team A's and Team B's scores |
| PlayerDetails.RecentMatchesAreNewest | football-goals-tracker/src/components/PlayerDetailsModal.jsx:90 | at most ten of the player's matches are shown, all of them when there are ten or fewer, and none left out is newer |
| PlayerDetails.NoMatchesIffNeverPlayed | football-goals-tracker/src/components/PlayerDetailsModal.jsx:86-87 | "no matches" shows exactly when the player took part in no match |
| CustomTeams.TrimIsTrimmed | football-goals-tracker/src/components/CustomTeam.jsx:28 | the trimmed name is a stretch of the name with only whitespace outside it and none at its ends |
| CustomTeams.TrimEmptyIffBlank | football-goals-tracker/src/components/CustomTeam.jsx:20 | a name is refused exactly when it is whitespace only |
| CustomTeams.TrimIdempotent | football-goals-tracker/src/components/CustomTeam.jsx:28 | trimming a trimmed name changes nothing |
| CustomTeams.NewTeamTotals | football-goals-tracker/src/components/CustomTeam.jsx:44-49 | a new team's figures are the month and all-time sums and the count of the selected roster players |
| CustomTeams.TeamTotalsNonNegative | football-goals-tracker/src/components/CustomTeam.jsx:44-49 | with a consistent roster a team's goal totals are never negative |
| CustomTeams.TeamCountWithinIds | football-goals-tracker/src/components/CustomTeam.jsx:44-49 | with distinct roster ids, a team's player count never exceeds the number of ids it lists |
| CustomTeams.TeamPlayerIdsAreTheSelection | football-goals-tracker/src/components/CustomTeam.jsx:25-29 | a new team holds exactly the ids that are both selected and on the roster |
| CustomTeams.Panel.constructor | football-goals-tracker/src/components/CustomTeam.jsx:3-5 | the form starts blank over the list handed in |
| CustomTeams.Panel.SetTeamName | football-goals-tracker/src/components/CustomTeam.jsx:59 | typing replaces the name and nothing else |
| CustomTeams.Panel.TogglePlayerSelection | football-goals-tracker/src/components/CustomTeam.jsx:7-17 | the id is toggled in the form's selection |
| CustomTeams.Panel.CreateCustomTeam | football-goals-tracker/src/components/CustomTeam.jsx:19-36 | a team is created exactly when the trimmed name is non-empty and someone is ticked; it is appended with the ticked roster ids and the form resets; otherwise nothing changes |
| CustomTeams.Panel.DeleteCustomTeam | football-goals-tracker/src/components/CustomTeam.jsx:38-42 | after confirmation every team with the id is removed and the others keep their order |

## Left out

- Sign-in, sign-out and the stored user. `isAdmin` is fixed when a `League` is built.
- Persistence to `localStorage`. Loading it on start is also left out.
- JSON export and import.
- The remaining UI components: modals, cards, navigation and the payment tracker.
- Which page is shown, and the flag that shows the team divider. The richer `logMatch` also hides the divider; that flag is left out.
- The calendar. Dates are whole day numbers or millisecond times:
  - "yesterday" is `today - 1`;
  - a month key is a (year, month) pair;
  - the due date is 30 × 24 h after the latest payment, with no daylight-saving or month-length effects;
  - ISO date strings are compared as the times they denote.
- Floating point: payment amounts (`parseFloat`), averages and `toFixed`.
- Assists and MVPs. They are carried in the player record but no modelled handler changes them.
- The `won` field of a logged match. Nothing reads it.
- `Math.random`. The shuffled order is a parameter, assumed to be a permutation of the selection. The source's random comparator is inconsistent, so no particular order is claimed.
- The richer `getMatchPeriodGoals` guard for a player without a `matchPeriodGoals` object. Every modelled player has one.
- The player details modal's displayed averages and `assists || 0`.
- Whether `updateMatchScore`, `deleteMatch` and `updatePlayer` keep `lastMatchDate` in agreement with the history. They can break it, so it is not claimed.
- `Object.values` lists integer-like keys first. The model lists group keys in insertion order; a group key is a comma-joined list of ids, so it is never integer-like when it holds two or more ids.
- Group keys are modelled as the sorted id sequence rather than the comma-joined string. Two rosters whose joined strings coincide would share a group in the source.
- CustomTeams.Trim: removes only a subset of the whitespace `String.prototype.trim` removes: space, tab, line feed, carriage return, vertical tab, form feed, no-break space and byte-order mark. The other Unicode space separators and line terminators are kept.
- CustomTeams.TeamCountWithinIds: the player-count bound is stated only for rosters with distinct ids. The app does not enforce unique ids, and two roster players sharing a listed id are both counted.
- The simpler variant's new players lack the period, assists, MVP and last-match fields. They are modelled as blank values, which the code reads the same way.

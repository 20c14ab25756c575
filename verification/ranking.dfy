/**
  The values both app variants derive on every render: the monthly leaderboard,
  the top scorer, the dashboard statistics, the "team scored in consecutive
  matches" count and the richer variant's current match-period tally.
*/
module Ranking {
  import opened Domain
  import opened Sorting
  import opened Ledger

  /** `getCurrentMonthGoals`: the player's tally for `month`, 0 when absent. */
  function MonthGoals(p: Player, month: MonthKey): int {
    Lookup(p.monthlyGoals, month)
  }

  function MonthGoalsIn(month: MonthKey): Player -> int {
    p => MonthGoals(p, month)
  }

  function TotalOf(p: Player): int {
    p.totalGoals
  }

  function LeaderRank(month: MonthKey): Player -> Rank {
    p => Rank(MonthGoals(p, month), p.totalGoals)
  }

  /** The leaderboard comparator: month goals, then all-time goals, both larger first. */
  function LeaderOrder(month: MonthKey): (Player, Player) -> bool {
    Descending(LeaderRank(month))
  }

  /** `sortedPlayers`: a sorted copy of `players`. */
  function Leaderboard(players: seq<Player>, month: MonthKey): seq<Player> {
    Sort(players, LeaderOrder(month))
  }

  /**
    The leaderboard holds exactly the players, ordered by month goals and then
    all-time goals, larger first, and players tied on both keep their order.
  */
  lemma LeaderboardOrder(players: seq<Player>, month: MonthKey)
    ensures var r := Leaderboard(players, month);
      && multiset(r) == multiset(players)
      && (forall i, j :: 0 <= i < j < |r| ==>
            MonthGoals(r[i], month) > MonthGoals(r[j], month)
            || (MonthGoals(r[i], month) == MonthGoals(r[j], month) && r[i].totalGoals >= r[j].totalGoals))
  {
    SortDescending(players, LeaderRank(month));
    var r := Leaderboard(players, month);
    assert RankedDescending(r, LeaderRank(month));
    forall i, j | 0 <= i < j < |r|
      ensures MonthGoals(r[i], month) > MonthGoals(r[j], month)
           || (MonthGoals(r[i], month) == MonthGoals(r[j], month) && r[i].totalGoals >= r[j].totalGoals)
    {
      assert !Outranks(LeaderRank(month)(r[j]), LeaderRank(month)(r[i]));
    }
  }

  lemma LeaderboardStable(players: seq<Player>, month: MonthKey, x: Player)
    ensures Filter(Leaderboard(players, month), TiedWith(LeaderOrder(month), x))
         == Filter(players, TiedWith(LeaderOrder(month), x))
  {
    DescendingIsWeakOrder(LeaderRank(month));
    SortStable(players, LeaderOrder(month), x);
  }

  /** `topScorer`: the head of the leaderboard, if any. */
  function TopScorer(players: seq<Player>, month: MonthKey): Option<Player> {
    var r := Leaderboard(players, month);
    if |r| > 0 then Some(r[0]) else None
  }

  /** The top-scorer banner is rendered only when the top scorer has a goal this month. */
  predicate ShowTopScorer(players: seq<Player>, month: MonthKey) {
    var top := TopScorer(players, month);
    top.Some? && MonthGoals(top.value, month) > 0
  }

  /**
    There is a top scorer exactly when there are players; it is one of them and
    no player has more goals this month, so the banner shows exactly when some
    player scored this month.
  */
  lemma TopScorerIsBest(players: seq<Player>, month: MonthKey)
    ensures TopScorer(players, month).Some? <==> |players| > 0
    ensures TopScorer(players, month).Some? ==>
      var top := TopScorer(players, month).value;
      top in players && forall p :: p in players ==> MonthGoals(p, month) <= MonthGoals(top, month)
    ensures ShowTopScorer(players, month) <==> exists p :: p in players && MonthGoals(p, month) > 0
  {
    var r := Leaderboard(players, month);
    LeaderboardOrder(players, month);
    if |r| > 0 {
      assert r[0] in multiset(players);
      forall p | p in players ensures MonthGoals(p, month) <= MonthGoals(r[0], month) {
        assert p in multiset(r);
        var j :| 0 <= j < |r| && r[j] == p;
        if j > 0 {
          assert MonthGoals(r[0], month) >= MonthGoals(r[j], month);
        }
      }
    } else {
      assert |players| == 0;
    }
  }

  /** The dashboard figures; the per-player average is a rounded float and is left out. */
  datatype Stats = Stats(
    totalPlayers: int,
    currentMonthTotalGoals: int,
    allTimeTotalGoals: int,
    totalMatchesPlayed: int)

  function Statistics(players: seq<Player>, matches: seq<Match>, month: MonthKey): Stats {
    Stats(|players|, Sum(players, MonthGoalsIn(month)), Sum(players, TotalOf), |matches|)
  }

  /** How many players carry an id from `ids`. */
  function CountIn(ps: seq<Player>, ids: set<Id>): nat {
    if ps == [] then 0 else (if ps[0].id in ids then 1 else 0) + CountIn(ps[1..], ids)
  }

  /** An update that shifts a per-player figure by `delta` shifts its sum by `delta` per updated player. */
  lemma {:induction false} UpdateWhereSum(ps: seq<Player>, ids: set<Id>, f: Player -> Player, g: Player -> int, delta: int)
    requires forall p :: g(f(p)) == g(p) + delta
    ensures Sum(UpdateWhere(ps, ids, f), g) == Sum(ps, g) + delta * CountIn(ps, ids)
  {
    if ps != [] {
      var r := UpdateWhere(ps, ids, f);
      assert r[1..] == UpdateWhere(ps[1..], ids, f);
      UpdateWhereSum(ps[1..], ids, f, g, delta);
    }
  }

  /**
    Adding a goal for `id`, in either variant, raises the all-time total and
    the total for the goal's month by one per player carrying that id; the
    other statistics stay.
  */
  lemma AddGoalStatistics(ps: seq<Player>, matches: seq<Match>, id: Id, today: int, month: MonthKey, inPeriod: bool)
    ensures var f := if inPeriod then PeriodGoalAdder(today, month) else GoalAdder(today, month);
      var before := Statistics(ps, matches, month);
      var after := Statistics(UpdateWhere(ps, {id}, f), matches, month);
      && after.totalPlayers == before.totalPlayers
      && after.allTimeTotalGoals == before.allTimeTotalGoals + CountIn(ps, {id})
      && after.currentMonthTotalGoals == before.currentMonthTotalGoals + CountIn(ps, {id})
      && after.totalMatchesPlayed == before.totalMatchesPlayed
  {
    var f := if inPeriod then PeriodGoalAdder(today, month) else GoalAdder(today, month);
    UpdateWhereSum(ps, {id}, f, TotalOf, 1);
    UpdateWhereSum(ps, {id}, f, MonthGoalsIn(month), 1);
  }

  /** Newest match first: the comparator `(a, b) => new Date(b.date) - new Date(a.date)`. */
  function MatchRank(m: Match): Rank {
    Rank(m.date, 0)
  }

  function NewestFirst(): (Match, Match) -> bool {
    Descending(MatchRank)
  }

  /** Both score fields are present (`!== undefined`). */
  predicate HasBothScores(m: Match) {
    Defined(m.teamAGoals) && Defined(m.teamBGoals)
  }

  /** The goals of the side `id` played on, Team A taking precedence. */
  function SideGoals(m: Match, id: Id): int {
    if id in m.teamA then OrZero(m.teamAGoals) else OrZero(m.teamBGoals)
  }

  function PlayedIn(id: Id): Match -> bool {
    m => Participates(m, id)
  }

  function PlayedInScored(id: Id): Match -> bool {
    m => Participates(m, id) && HasBothScores(m)
  }

  /** Every match the player took part in, newest first. */
  function PlayerMatches(matches: seq<Match>, id: Id): seq<Match> {
    Sort(Filter(matches, PlayedIn(id)), NewestFirst())
  }

  /** The matches `getConsecutiveScoring` walks: played by `id`, both scores present, newest first. */
  function ScoredHistory(matches: seq<Match>, id: Id): seq<Match> {
    Sort(Filter(matches, PlayedInScored(id)), NewestFirst())
  }

  /**
    `getConsecutiveScoring`: the number of leading matches of the player's
    scored history in which the player's side scored.
  */
  method ConsecutiveScoring(matches: seq<Match>, id: Id) returns (consecutive: nat)
    ensures var h := ScoredHistory(matches, id);
      && consecutive <= |h|
      && (forall k :: 0 <= k < consecutive ==> SideGoals(h[k], id) > 0)
      && (consecutive < |h| ==> SideGoals(h[consecutive], id) <= 0)
  {
    var history := ScoredHistory(matches, id);
    consecutive := 0;
    for i := 0 to |history|
      invariant consecutive == i
      invariant forall k :: 0 <= k < i ==> SideGoals(history[k], id) > 0
    {
      var match_ := history[i];
      var teamGoals := if id in match_.teamA then OrZero(match_.teamAGoals) else OrZero(match_.teamBGoals);
      if teamGoals > 0 {
        consecutive := consecutive + 1;
      } else {
        break;
      }
    }
  }

  /** Newest matches come first in a history, and it holds exactly the selected matches. */
  lemma HistoryNewestFirst(matches: seq<Match>, keep: Match -> bool)
    ensures var h := Sort(Filter(matches, keep), NewestFirst());
      && (forall m :: m in h <==> m in matches && keep(m))
      && (forall i, j :: 0 <= i < j < |h| ==> h[i].date >= h[j].date)
  {
    FilterMembers(matches, keep);
    SortMembers(Filter(matches, keep), NewestFirst());
    SortDescending(Filter(matches, keep), MatchRank);
  }

  /**
    A match logged after every earlier one heads the history of each of its
    players. A match the richer variant has just logged has both scores at 0,
    so until its score is entered `ConsecutiveScoring` is 0 for its players.
  */
  lemma LatestMatchHeadsHistory(matches: seq<Match>, m: Match, id: Id)
    requires forall old_ :: old_ in matches ==> old_.date < m.date
    requires Participates(m, id) && HasBothScores(m)
    ensures var h := ScoredHistory(matches + [m], id);
      |h| > 0 && h[0] == m
  {
    var all := matches + [m];
    var h := ScoredHistory(all, id);
    HistoryNewestFirst(all, PlayedInScored(id));
    assert m in all;
    assert m in h;
    var j :| 0 <= j < |h| && h[j] == m;
    assert h[0].date >= m.date by {
      if j > 0 {
        assert h[0].date >= h[j].date;
      }
    }
    assert h[0] in all;
  }

  /** `getMatchPeriodGoals`: the period opened by the player's newest match, or "start". */
  function MatchPeriodGoals(p: Player, matches: seq<Match>): int {
    var h := PlayerMatches(matches, p.id);
    Lookup(p.matchPeriodGoals, if |h| > 0 then At(h[0].date) else Start)
  }

  /** `lastMatchDate` names the player's newest match, or is null when they played none. */
  ghost predicate LastMatchAgrees(p: Player, matches: seq<Match>) {
    match p.lastMatchDate
    case None => forall m :: m in matches ==> !Participates(m, p.id)
    case Some(d) =>
      && (exists m :: m in matches && Participates(m, p.id) && m.date == d)
      && (forall m :: m in matches && Participates(m, p.id) ==> m.date <= d)
  }

  /**
    While `lastMatchDate` agrees with the match list, the tally shown for the
    current period is the one `addGoal` and `removeGoal` update.
  */
  lemma MatchPeriodGoalsIsCurrentPeriod(p: Player, matches: seq<Match>)
    requires LastMatchAgrees(p, matches)
    ensures MatchPeriodGoals(p, matches) == Lookup(p.matchPeriodGoals, PeriodKeyOf(p))
  {
    var h := PlayerMatches(matches, p.id);
    HistoryNewestFirst(matches, PlayedIn(p.id));
    match p.lastMatchDate
    case None =>
      FilterNone(matches, PlayedIn(p.id));
    case Some(d) =>
      NewestMatchDate(matches, p.id, d);
  }

  /** The newest match of a player whose matches are dated at most `d`, one of them on `d`, is dated `d`. */
  lemma NewestMatchDate(matches: seq<Match>, id: Id, d: int)
    requires exists m :: m in matches && Participates(m, id) && m.date == d
    requires forall m :: m in matches && Participates(m, id) ==> m.date <= d
    ensures |PlayerMatches(matches, id)| > 0 && PlayerMatches(matches, id)[0].date == d
  {
    var h := PlayerMatches(matches, id);
    HistoryNewestFirst(matches, PlayedIn(id));
    var m :| m in matches && Participates(m, id) && m.date == d;
    assert m in h;
    var j :| 0 <= j < |h| && h[j] == m;
    assert h[0] in h;
    assert h[0].date >= h[j].date;
  }

  /**
    Logging a match dated after every earlier one keeps `lastMatchDate` in
    agreement, for participants (who open a new period) and the others alike.
  */
  lemma LogMatchKeepsAgreement(p: Player, matches: seq<Match>, m: Match)
    requires LastMatchAgrees(p, matches)
    requires forall old_ :: old_ in matches ==> old_.date < m.date
    ensures LastMatchAgrees(if Participates(m, p.id) then StartPeriod(p, m.date) else p, matches + [m])
  {
    if Participates(m, p.id) {
      assert m in matches + [m];
    } else {
      match p.lastMatchDate
      case None =>
      case Some(d) =>
        var w :| w in matches && Participates(w, p.id) && w.date == d;
        assert w in matches + [m];
    }
  }
}

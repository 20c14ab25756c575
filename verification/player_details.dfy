/**
  The richer variant's player details: the player's match history, newest
  first; the "on fire" run of recent matches in which the player's side
  scored; and the result line shown for each of the ten newest matches.
*/
module PlayerDetails {
  import opened Domain
  import opened Sorting
  import opened Ranking

  /** A match extends the run when both scores are present and the player's side scored. */
  predicate Extends(m: Match, id: Id) {
    HasBothScores(m) && SideGoals(m, id) > 0
  }

  /** The number of leading matches of `h` that extend the run. */
  function ScoringRun(h: seq<Match>, id: Id): (n: nat)
    ensures n <= |h|
  {
    if h == [] || !Extends(h[0], id) then 0 else 1 + ScoringRun(h[1..], id)
  }

  /**
    `ScoringRun` is the one count whose leading matches all extend the run
    and which stops at the first match that does not.
  */
  lemma {:induction false} ScoringRunIsLeadingRun(h: seq<Match>, id: Id, n: nat)
    ensures n == ScoringRun(h, id) <==>
      && n <= |h|
      && (forall k :: 0 <= k < n ==> Extends(h[k], id))
      && (n < |h| ==> !Extends(h[n], id))
  {
    if h != [] {
      ScoringRunIsLeadingRun(h[1..], id, ScoringRun(h[1..], id));
      if n > 0 {
        ScoringRunIsLeadingRun(h[1..], id, n - 1);
        assert forall k :: 0 < k < n && k <= |h[1..]| ==> h[k] == h[1..][k - 1];
      }
    }
  }

  /**
    The loop over `playerMatches`: it stops at the first match lacking a
    score or in which the player's side did not score; the player is on fire
    when the run is not empty.
  */
  method RecentForm(matches: seq<Match>, id: Id) returns (consecutiveScoring: nat, isOnFire: bool)
    ensures consecutiveScoring == ScoringRun(PlayerMatches(matches, id), id)
    ensures isOnFire <==> consecutiveScoring > 0
  {
    var playerMatches := PlayerMatches(matches, id);
    consecutiveScoring, isOnFire := 0, false;
    for i := 0 to |playerMatches|
      invariant consecutiveScoring == i
      invariant isOnFire <==> i > 0
      invariant ScoringRun(playerMatches, id) == i + ScoringRun(playerMatches[i..], id)
    {
      var match_ := playerMatches[i];
      assert playerMatches[i..][0] == match_;
      if match_.teamAGoals.Absent? || match_.teamBGoals.Absent? {
        break;
      }
      var teamGoals := if id in match_.teamA then OrZero(match_.teamAGoals) else OrZero(match_.teamBGoals);
      if teamGoals > 0 {
        assert playerMatches[i..][1..] == playerMatches[i + 1..];
        consecutiveScoring := consecutiveScoring + 1;
        isOnFire := true;
      } else {
        break;
      }
    }
  }

  function IsScored(): Match -> bool {
    m => HasBothScores(m)
  }

  /** The scored history the app walks is the details history without its unscored matches. */
  lemma ScoredHistoryWithinPlayerMatches(matches: seq<Match>, id: Id)
    ensures ScoredHistory(matches, id) == Filter(PlayerMatches(matches, id), IsScored())
  {
    FilterTwice(matches, PlayedIn(id), IsScored(), PlayedInScored(id));
    DescendingIsWeakOrder(MatchRank);
    SortFilter(Filter(matches, PlayedIn(id)), NewestFirst(), IsScored());
  }

  /** Dropping matches that cannot extend the run never shortens it. */
  lemma {:induction false} DroppingUnscoredKeepsRun(h: seq<Match>, id: Id)
    ensures ScoringRun(h, id) <= ScoringRun(Filter(h, IsScored()), id)
  {
    if h != [] && Extends(h[0], id) {
      DroppingUnscoredKeepsRun(h[1..], id);
      FilterCons(h[0], h[1..], IsScored());
      assert h == [h[0]] + h[1..];
    }
  }

  /**
    The count `getConsecutiveScoring` returns is the run over the scored
    history: matches there always carry both scores.
  */
  lemma AppStreakIsScoringRun(matches: seq<Match>, id: Id, consecutive: nat)
    requires var h := ScoredHistory(matches, id);
      && consecutive <= |h|
      && (forall k :: 0 <= k < consecutive ==> SideGoals(h[k], id) > 0)
      && (consecutive < |h| ==> SideGoals(h[consecutive], id) <= 0)
    ensures consecutive == ScoringRun(ScoredHistory(matches, id), id)
  {
    var h := ScoredHistory(matches, id);
    HistoryNewestFirst(matches, PlayedInScored(id));
    assert forall k :: 0 <= k < |h| ==> HasBothScores(h[k]) by {
      forall k | 0 <= k < |h| ensures HasBothScores(h[k]) {
        assert h[k] in h;
      }
    }
    ScoringRunIsLeadingRun(h, id, consecutive);
  }

  /**
    The details' "on fire" count never exceeds the app's consecutive-scoring
    count, and the two agree when every match carries both scores, as every
    match the richer variant logs does.
  */
  lemma DetailsStreakWithinAppStreak(matches: seq<Match>, id: Id)
    ensures ScoringRun(PlayerMatches(matches, id), id) <= ScoringRun(ScoredHistory(matches, id), id)
    ensures (forall m :: m in matches ==> HasBothScores(m)) ==>
      ScoringRun(PlayerMatches(matches, id), id) == ScoringRun(ScoredHistory(matches, id), id)
  {
    ScoredHistoryWithinPlayerMatches(matches, id);
    DroppingUnscoredKeepsRun(PlayerMatches(matches, id), id);
    if forall m :: m in matches ==> HasBothScores(m) {
      HistoryNewestFirst(matches, PlayedIn(id));
      FilterAll(PlayerMatches(matches, id), IsScored());
    }
  }

  /** How a match ended for the player's side. */
  datatype Outcome = Win | Loss | Draw

  /** The goals of the side opposing `id`'s, missing or null scores counting 0. */
  function OpponentGoals(m: Match, id: Id): int {
    if id in m.teamA then OrZero(m.teamBGoals) else OrZero(m.teamAGoals)
  }

  /** The W, L or D shown on a match row. */
  function OutcomeOf(m: Match, id: Id): Outcome {
    var teamGoals, opponentGoals := SideGoals(m, id), OpponentGoals(m, id);
    if teamGoals > opponentGoals then Win else if teamGoals < opponentGoals then Loss else Draw
  }

  /**
    Two players on opposite sides see opposite results: one wins exactly when
    the other loses, and a draw is a draw for both, decided by Team A's and
    Team B's scores.
  */
  lemma OutcomeMirrors(m: Match, a: Id, b: Id)
    requires a in m.teamA && b !in m.teamA
    ensures OutcomeOf(m, a) == Win <==> OutcomeOf(m, b) == Loss
    ensures OutcomeOf(m, a) == Loss <==> OutcomeOf(m, b) == Win
    ensures OutcomeOf(m, a) == Draw <==> OutcomeOf(m, b) == Draw
    ensures OutcomeOf(m, a) == Draw <==> OrZero(m.teamAGoals) == OrZero(m.teamBGoals)
    ensures OutcomeOf(m, a) == Win <==> OrZero(m.teamAGoals) > OrZero(m.teamBGoals)
  {
  }

  /** `playerMatches.slice(0, 10)` */
  function RecentMatches(matches: seq<Match>, id: Id): seq<Match> {
    var h := PlayerMatches(matches, id);
    h[..if |h| < 10 then |h| else 10]
  }

  /** In a history sorted newest first, nothing beyond a prefix is newer than the prefix. */
  lemma PrefixIsNewest(h: seq<Match>, n: nat)
    requires n <= |h|
    requires forall i, j :: 0 <= i < j < |h| ==> h[i].date >= h[j].date
    ensures forall m, x :: m in h && m !in h[..n] && x in h[..n] ==> x.date >= m.date
  {
    var r := h[..n];
    forall m, x | m in h && m !in r && x in r
      ensures x.date >= m.date
    {
      var j :| 0 <= j < |h| && h[j] == m;
      var i :| 0 <= i < |r| && r[i] == x;
      assert forall k :: 0 <= k < |r| ==> h[k] == r[k] && r[k] in r;
    }
  }

  /**
    The rows shown are at most ten of the player's matches, all of them when
    there are ten or fewer, and no match left out is newer than one shown.
  */
  lemma RecentMatchesAreNewest(matches: seq<Match>, id: Id)
    ensures var r := RecentMatches(matches, id);
      && |r| <= 10
      && (forall m :: m in r ==> m in matches && Participates(m, id))
      && (|PlayerMatches(matches, id)| <= 10 ==> r == PlayerMatches(matches, id))
      && (forall m, x :: m in matches && Participates(m, id) && m !in r && x in r ==> x.date >= m.date)
  {
    var h := PlayerMatches(matches, id);
    var n := if |h| < 10 then |h| else 10;
    var r := RecentMatches(matches, id);
    assert r == h[..n];
    HistoryNewestFirst(matches, PlayedIn(id));
    PrefixIsNewest(h, n);
    assert forall m :: m in r ==> m in h;
  }

  /** "No matches played yet" shows exactly when the player took part in no match. */
  lemma NoMatchesIffNeverPlayed(matches: seq<Match>, id: Id)
    ensures PlayerMatches(matches, id) == [] <==> forall m :: m in matches ==> !Participates(m, id)
  {
    var h := PlayerMatches(matches, id);
    HistoryNewestFirst(matches, PlayedIn(id));
    if h != [] {
      assert h[0] in h;
    }
  }
}

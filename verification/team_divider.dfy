/**
  The team divider of the simpler app variant: the selected players are
  either ranked by strength and dealt out alternately, or split in two
  halves of a random order; the two rosters are then handed to `logMatch`.
*/
module TeamDivider {
  import opened Domain
  import opened Sorting
  import opened Ledger
  import opened Ranking

  function InSelection(selected: set<Id>): Player -> bool {
    (p: Player) => p.id in selected
  }

  /** `selectedPlayersList`: the roster's selected players, in roster order. */
  function SelectionList(players: seq<Player>, selected: set<Id>): (r: seq<Player>)
    ensures forall p :: p in r <==> p in players && p.id in selected
  {
    FilterMembers(players, InSelection(selected));
    Filter(players, InSelection(selected))
  }

  /** A player's strength for balancing: month goals plus all-time goals. */
  function Strength(p: Player, month: MonthKey): int {
    MonthGoals(p, month) + p.totalGoals
  }

  function StrengthOf(month: MonthKey): Player -> int {
    p => Strength(p, month)
  }

  function StrengthRank(month: MonthKey): Player -> Rank {
    p => Rank(Strength(p, month), 0)
  }

  /** The comparator `bGoals - aGoals`: stronger first, ties keep their order. */
  function StrongestFirst(month: MonthKey): (Player, Player) -> bool {
    Descending(StrengthRank(month))
  }

  /** The elements at even positions: those `forEach` pushes to Team A. */
  function Evens<T>(s: seq<T>): (r: seq<T>)
    ensures |r| == (|s| + 1) / 2
    ensures forall i :: 0 <= i < |r| ==> r[i] == s[2 * i]
    decreases |s|
  {
    if s == [] then [] else [s[0]] + Odds(s[1..])
  }

  /** The elements at odd positions: those `forEach` pushes to Team B. */
  function Odds<T>(s: seq<T>): (r: seq<T>)
    ensures |r| == |s| / 2
    ensures forall i :: 0 <= i < |r| ==> r[i] == s[2 * i + 1]
    decreases |s|
  {
    if s == [] then [] else Evens(s[1..])
  }

  /** The `forEach` of `divideTeams`: index parity decides the team. */
  method SplitAlternately<T>(sorted: seq<T>) returns (teamA: seq<T>, teamB: seq<T>)
    ensures teamA == Evens(sorted) && teamB == Odds(sorted)
  {
    teamA, teamB := [], [];
    for index := 0 to |sorted|
      invariant |teamA| == (index + 1) / 2 && |teamB| == index / 2
      invariant forall k :: 0 <= k < |teamA| ==> teamA[k] == sorted[2 * k]
      invariant forall k :: 0 <= k < |teamB| ==> teamB[k] == sorted[2 * k + 1]
    {
      if index % 2 == 0 {
        teamA := teamA + [sorted[index]];
      } else {
        teamB := teamB + [sorted[index]];
      }
    }
  }

  /** Dealing alternately hands every element to exactly one team. */
  lemma {:induction false} AlternatePartition<T>(s: seq<T>)
    ensures multiset(Evens(s)) + multiset(Odds(s)) == multiset(s)
  {
    if s != [] {
      AlternatePartition(s[1..]);
      assert s == [s[0]] + s[1..];
    }
  }

  /** No element is lighter than one after it. */
  ghost predicate HeaviestFirst<T>(s: seq<T>, w: T -> int) {
    forall i, j :: 0 <= i < j < |s| ==> w(s[i]) >= w(s[j])
  }

  /**
    Dealing a heaviest-first sequence of non-negative weights alternately gives
    Team A at least Team B's total, and at most the heaviest weight more.
  */
  lemma {:induction false} AlternateBalance<T>(s: seq<T>, w: T -> int)
    requires HeaviestFirst(s, w)
    requires forall x :: x in s ==> w(x) >= 0
    ensures Sum(Evens(s), w) >= Sum(Odds(s), w)
    ensures s != [] ==> Sum(Evens(s), w) - Sum(Odds(s), w) <= w(s[0])
  {
    if s != [] {
      var t := s[1..];
      assert HeaviestFirst(t, w) by {
        forall i, j | 0 <= i < j < |t| ensures w(t[i]) >= w(t[j]) {
          assert t[i] == s[i + 1] && t[j] == s[j + 1];
        }
      }
      assert forall x :: x in t ==> x in s;
      AlternateBalance(t, w);
      SumCons(s[0], Odds(t), w);
      assert Odds(s) == Evens(t);
      if t != [] {
        assert w(t[0]) <= w(s[0]) by {
          assert t[0] == s[1];
        }
      }
    }
  }

  /** The per-team figures `calculateTeamStats` shows; the average is a rounded float and is left out. */
  datatype TeamStats = TeamStats(totalGoals: int, playerCount: int)

  function TeamStatsOf(team: seq<Player>): TeamStats {
    TeamStats(Sum(team, TotalOf), |team|)
  }

  /** `divideTeams`' teams, from the selection. */
  function BalancedTeams(list: seq<Player>, month: MonthKey): (seq<Player>, seq<Player>) {
    var sorted := Sort(list, StrongestFirst(month));
    (Evens(sorted), Odds(sorted))
  }

  lemma StrongestFirstIsHeaviestFirst(list: seq<Player>, month: MonthKey)
    ensures HeaviestFirst(Sort(list, StrongestFirst(month)), StrengthOf(month))
  {
    var sorted := Sort(list, StrongestFirst(month));
    SortDescending(list, StrengthRank(month));
    assert RankedDescending(sorted, StrengthRank(month));
    forall i, j | 0 <= i < j < |sorted| ensures StrengthOf(month)(sorted[i]) >= StrengthOf(month)(sorted[j]) {
      assert !Outranks(StrengthRank(month)(sorted[j]), StrengthRank(month)(sorted[i]));
    }
  }

  lemma WellformedStrength(p: Player, month: MonthKey)
    requires Wellformed(p)
    ensures Strength(p, month) >= 0
  {
    if month in p.monthlyGoals {
      assert p.monthlyGoals[month] >= 0;
    }
  }

  /** `best` is a selected player no other selected player outranks in strength. */
  ghost predicate Strongest(best: Player, list: seq<Player>, month: MonthKey) {
    best in list && forall p :: p in list ==> Strength(p, month) <= Strength(best, month)
  }

  /**
    The balanced teams split the selection: every selected player is on one
    team, Team A has the extra player when the count is odd, and the goal
    totals shown add up to the selection's.
  */
  lemma BalancedTeamsSplitSelection(list: seq<Player>, month: MonthKey)
    ensures var (a, b) := BalancedTeams(list, month);
      && multiset(a) + multiset(b) == multiset(list)
      && |a| == |b| + |list| % 2
      && TeamStatsOf(a).totalGoals + TeamStatsOf(b).totalGoals == Sum(list, TotalOf)
  {
    var sorted := Sort(list, StrongestFirst(month));
    var (a, b) := BalancedTeams(list, month);
    assert a == Evens(sorted) && b == Odds(sorted);
    AlternatePartition(sorted);
    AlternateSum(sorted, TotalOf);
    SortSum(list, StrongestFirst(month), TotalOf);
    HalvesDiffer(|list|);
  }

  lemma HalvesDiffer(n: nat)
    ensures (n + 1) / 2 == n / 2 + n % 2
  {
  }

  /**
    For well-formed players Team A's strength is at least Team B's and exceeds
    it by at most the strength of the strongest selected player.
  */
  lemma BalancedTeamsAreClose(list: seq<Player>, month: MonthKey)
    requires forall p :: p in list ==> Wellformed(p)
    requires list != []
    ensures var (a, b) := BalancedTeams(list, month);
      var gap := Sum(a, StrengthOf(month)) - Sum(b, StrengthOf(month));
      gap >= 0 && exists best :: Strongest(best, list, month) && gap <= Strength(best, month)
  {
    var sorted := Sort(list, StrongestFirst(month));
    SortMembers(list, StrongestFirst(month));
    forall x | x in sorted ensures StrengthOf(month)(x) >= 0 {
      WellformedStrength(x, month);
    }
    StrongestFirstIsHeaviestFirst(list, month);
    AlternateBalance(sorted, StrengthOf(month));
    assert Strongest(sorted[0], list, month) by {
      forall p | p in list ensures Strength(p, month) <= Strength(sorted[0], month) {
        var j :| 0 <= j < |sorted| && sorted[j] == p;
        if j > 0 {
          assert StrengthOf(month)(sorted[0]) >= StrengthOf(month)(sorted[j]);
        }
      }
    }
  }

  /**
    Dealt in pairs, each Team A player is at least as strong as the Team B
    player dealt right after them, and Team B never has more players.
  */
  lemma PairwiseStronger(list: seq<Player>, month: MonthKey)
    ensures var (a, b) := BalancedTeams(list, month);
      && |b| <= |a|
      && forall i :: 0 <= i < |b| ==> Strength(a[i], month) >= Strength(b[i], month)
  {
    var sorted := Sort(list, StrongestFirst(month));
    var (a, b) := BalancedTeams(list, month);
    StrongestFirstIsHeaviestFirst(list, month);
    forall i | 0 <= i < |b| ensures Strength(a[i], month) >= Strength(b[i], month) {
      assert a[i] == sorted[2 * i] && b[i] == sorted[2 * i + 1];
      assert StrengthOf(month)(sorted[2 * i]) >= StrengthOf(month)(sorted[2 * i + 1]);
    }
  }

  /** Players the divider's sort ties, equal in strength, keep their roster order. */
  lemma DividerTiesKeepRosterOrder(list: seq<Player>, month: MonthKey, x: Player)
    ensures Filter(Sort(list, StrongestFirst(month)), TiedWith(StrongestFirst(month), x))
         == Filter(list, TiedWith(StrongestFirst(month), x))
  {
    DescendingIsWeakOrder(StrengthRank(month));
    SortStable(list, StrongestFirst(month), x);
  }

  lemma {:induction false} AlternateSum<T>(s: seq<T>, f: T -> int)
    ensures Sum(Evens(s), f) + Sum(Odds(s), f) == Sum(s, f)
  {
    if s != [] {
      AlternateSum(s[1..], f);
      SumCons(s[0], Odds(s[1..]), f);
    }
  }

  /** `shuffleTeams`' split of the random order: the first `Math.ceil(n / 2)` players form Team A. */
  function HalfSplit(shuffled: seq<Player>): (seq<Player>, seq<Player>) {
    var mid := (|shuffled| + 1) / 2;
    (shuffled[..mid], shuffled[mid..])
  }

  /** The halves of a shuffled selection split the selection, Team A taking the extra player. */
  lemma HalfSplitIsFair(shuffled: seq<Player>, list: seq<Player>)
    requires multiset(shuffled) == multiset(list)
    ensures var (a, b) := HalfSplit(shuffled);
      && a + b == shuffled
      && multiset(a) + multiset(b) == multiset(list)
      && |a| == |b| + |list| % 2
  {
    var (a, b) := HalfSplit(shuffled);
    assert a + b == shuffled;
    assert |shuffled| == |multiset(shuffled)| == |list|;
  }

  /** `team.map(p => p.id)` */
  function IdsOf(team: seq<Player>): (r: seq<Id>)
    ensures |r| == |team| && forall i :: 0 <= i < |r| ==> r[i] == team[i].id
  {
    seq(|team|, i requires 0 <= i < |team| => team[i].id)
  }

  /**
    Both ways of dividing give two non-empty teams, so the match can be
    logged, exactly when at least two players are selected.
  */
  lemma TwoPlayersMakeAMatch(list: seq<Player>, month: MonthKey, shuffled: seq<Player>)
    requires multiset(shuffled) == multiset(list)
    ensures var (a, b) := BalancedTeams(list, month);
      |a| > 0 && |b| > 0 <==> |list| >= 2
    ensures var (a, b) := HalfSplit(shuffled);
      |a| > 0 && |b| > 0 <==> |list| >= 2
  {
    assert |shuffled| == |multiset(shuffled)| == |list|;
  }

  /** The divider's two teams; the selection itself belongs to the app. */
  class Divider {
    var teamA: seq<Player>
    var teamB: seq<Player>

    constructor()
      ensures teamA == [] && teamB == []
    {
      teamA, teamB := [], [];
    }

    /**
      `divideTeams`: with no player selected the teams stay and the user is
      alerted (`divided` is false); otherwise the balanced teams replace them.
    */
    method DivideTeams(players: seq<Player>, selected: set<Id>, month: MonthKey) returns (divided: bool)
      modifies this
      ensures var list := SelectionList(players, selected);
        && divided == (|list| > 0)
        && (teamA, teamB) == (if divided then BalancedTeams(list, month) else (old(teamA), old(teamB)))
    {
      var list := SelectionList(players, selected);
      if |list| == 0 {
        return false;
      }
      var sorted := Sort(list, StrongestFirst(month));
      teamA, teamB := SplitAlternately(sorted);
      divided := true;
    }

    /**
      `shuffleTeams`: `shuffled` is the random order `Math.random` produces,
      a permutation of the selection.
    */
    method ShuffleTeams(players: seq<Player>, selected: set<Id>, shuffled: seq<Player>) returns (divided: bool)
      requires multiset(shuffled) == multiset(SelectionList(players, selected))
      modifies this
      ensures var list := SelectionList(players, selected);
        && divided == (|list| > 0)
        && (teamA, teamB) == (if divided then HalfSplit(shuffled) else (old(teamA), old(teamB)))
    {
      var list := SelectionList(players, selected);
      if |list| == 0 {
        return false;
      }
      assert |shuffled| == |multiset(shuffled)| == |list|;
      var mid := (|shuffled| + 1) / 2;
      teamA, teamB := shuffled[..mid], shuffled[mid..];
      divided := true;
    }

    /**
      `handleLogMatch`: the two rosters to hand to `logMatch`, or `None` (the
      user is alerted) while either team is empty.
    */
    method HandleLogMatch() returns (rosters: Option<(seq<Id>, seq<Id>)>)
      ensures rosters.Some? <==> |teamA| > 0 && |teamB| > 0
      ensures rosters.Some? ==> rosters.value == (IdsOf(teamA), IdsOf(teamB))
    {
      if |teamA| == 0 || |teamB| == 0 {
        return None;
      }
      rosters := Some((IdsOf(teamA), IdsOf(teamB)));
    }
  }
}

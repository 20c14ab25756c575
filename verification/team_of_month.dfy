/**
  The richer variant's "team of the month": scored matches are grouped by
  roster, each group accumulates goals, matches, wins, draws and losses, and
  the three best groups are listed.
*/
module TeamOfTheMonth {
  import opened Domain
  import opened Sorting
  import opened IdOrder

  /** The group key: the roster's ids in sorted order, which the source joins with commas. */
  type TeamKey = seq<Id>

  datatype TeamRecord = TeamRecord(players: seq<Id>, goals: int, matches: int, wins: int, draws: int, losses: int)

  /** The `teamStats` object: its keys in insertion order, which `Object.values` follows, and its records. */
  datatype Table = Table(order: seq<TeamKey>, records: map<TeamKey, TeamRecord>)

  /** `!match.teamAGoals && !match.teamBGoals`: unscored, null and 0-0 matches alike. */
  predicate Skipped(m: Match) {
    Falsy(m.teamAGoals) && Falsy(m.teamBGoals)
  }

  function Blank(key: TeamKey): TeamRecord {
    TeamRecord(key, 0, 0, 0, 0, 0)
  }

  function Record(t: Table, key: TeamKey): TeamRecord {
    if key in t.records then t.records[key] else Blank(key)
  }

  /** `if (!teamStats[key]) teamStats[key] = {...}` */
  function Ensure(t: Table, key: TeamKey): Table {
    if key in t.records then t else Table(t.order + [key], t.records[key := Blank(key)])
  }

  /** One side's share of a result: its goals, one more match, and a win, a draw or a loss. */
  function Credit(r: TeamRecord, scored: int, conceded: int): TeamRecord {
    r.(goals := r.goals + scored,
       matches := r.matches + 1,
       wins := r.wins + (if scored > conceded then 1 else 0),
       draws := r.draws + (if scored == conceded then 1 else 0),
       losses := r.losses + (if scored < conceded then 1 else 0))
  }

  function SetRecord(t: Table, key: TeamKey, r: TeamRecord): Table {
    t.(records := t.records[key := r])
  }

  /** One pass of the `forEach`: both sides are credited, Team A first. */
  function Step(t: Table, m: Match): Table {
    if Skipped(m) then t
    else
      var a, b := SortIds(m.teamA), SortIds(m.teamB);
      var ga, gb := OrZero(m.teamAGoals), OrZero(m.teamBGoals);
      var t1 := Ensure(Ensure(t, a), b);
      var t2 := SetRecord(t1, a, Credit(Record(t1, a), ga, gb));
      SetRecord(t2, b, Credit(Record(t2, b), gb, ga))
  }

  /** The table after the matches in order. */
  function Tally(ms: seq<Match>): Table
    decreases |ms|
  {
    if ms == [] then Table([], map[]) else Step(Tally(ms[..|ms| - 1]), ms[|ms| - 1])
  }

  /** `Object.values(teamStats)` */
  function Values(t: Table): seq<TeamRecord> {
    seq(|t.order|, i requires 0 <= i < |t.order| => Record(t, t.order[i]))
  }

  /** The scored matches. */
  function Included(ms: seq<Match>): nat
    decreases |ms|
  {
    if ms == [] then 0 else Included(ms[..|ms| - 1]) + (if Skipped(ms[|ms| - 1]) then 0 else 1)
  }

  /** The goals of both sides over the scored matches. */
  function ScoredGoals(ms: seq<Match>): int
    decreases |ms|
  {
    if ms == [] then 0
    else
      var m := ms[|ms| - 1];
      ScoredGoals(ms[..|ms| - 1]) + (if Skipped(m) then 0 else OrZero(m.teamAGoals) + OrZero(m.teamBGoals))
  }

  /**
    The table's invariant: its keys are listed once each in insertion order,
    each record lists its own key as its players, and each record's wins,
    draws and losses add up to its matches.
  */
  ghost predicate Consistent(t: Table) {
    && (forall k :: k in t.records <==> k in t.order)
    && (forall i, j :: 0 <= i < j < |t.order| ==> t.order[i] != t.order[j])
    && (forall k :: k in t.records ==> t.records[k].players == k)
    && (forall k :: k in t.records ==>
          t.records[k].wins + t.records[k].draws + t.records[k].losses == t.records[k].matches)
  }

  /** A column total over the table. */
  function Total(t: Table, f: TeamRecord -> int): int {
    Sum(Values(t), f)
  }

  function GoalsOf(r: TeamRecord): int { r.goals }
  function MatchesOf(r: TeamRecord): int { r.matches }
  function WinsOf(r: TeamRecord): int { r.wins }
  function LossesOf(r: TeamRecord): int { r.losses }

  lemma EnsureKeeps(t: Table, k: TeamKey, f: TeamRecord -> int)
    requires Consistent(t)
    requires f(Blank(k)) == 0
    ensures Consistent(Ensure(t, k)) && k in Ensure(t, k).records
    ensures forall j :: j in t.records ==> Record(Ensure(t, k), j) == Record(t, j)
    ensures Total(Ensure(t, k), f) == Total(t, f)
  {
    if k !in t.records {
      var e := Ensure(t, k);
      assert Values(e) == Values(t) + [Blank(k)] by {
        forall j | 0 <= j < |t.order| ensures Values(e)[j] == Values(t)[j] {
          assert t.order[j] in t.records;
        }
      }
      SumAppend(Values(t), [Blank(k)], f);
      SumCons(Blank(k), [], f);
      assert [Blank(k)] + [] == [Blank(k)];
      forall i, j | 0 <= i < j < |e.order| ensures e.order[i] != e.order[j] {
        if j == |t.order| {
          assert t.order[i] in t.records;
        }
      }
    }
  }

  lemma SetRecordKeeps(t: Table, k: TeamKey, r: TeamRecord, f: TeamRecord -> int)
    requires Consistent(t) && k in t.records
    requires r.players == k && r.wins + r.draws + r.losses == r.matches
    ensures Consistent(SetRecord(t, k, r))
    ensures Total(SetRecord(t, k, r), f) == Total(t, f) - f(t.records[k]) + f(r)
  {
    var u := SetRecord(t, k, r);
    var i :| 0 <= i < |t.order| && t.order[i] == k;
    assert Values(u) == Values(t)[i := r] by {
      forall j | 0 <= j < |t.order| ensures Values(u)[j] == Values(t)[i := r][j] {
        if j != i {
          assert t.order[j] != k by {
            if j < i {
              assert t.order[j] != t.order[i];
            } else {
              assert t.order[i] != t.order[j];
            }
          }
        }
      }
    }
    SumUpdate(Values(t), i, r, f);
  }

  lemma CreditBalanced(r: TeamRecord, s: int, c: int)
    requires r.wins + r.draws + r.losses == r.matches
    ensures var q := Credit(r, s, c); q.players == r.players && q.wins + q.draws + q.losses == q.matches
  {
  }

  lemma StepConsistent(t: Table, m: Match)
    requires Consistent(t)
    ensures Consistent(Step(t, m))
  {
    if !Skipped(m) {
      var a, b := SortIds(m.teamA), SortIds(m.teamB);
      var ga, gb := OrZero(m.teamAGoals), OrZero(m.teamBGoals);
      EnsureKeeps(t, a, GoalsOf);
      var t0 := Ensure(t, a);
      EnsureKeeps(t0, b, GoalsOf);
      var t1 := Ensure(t0, b);
      CreditBalanced(Record(t1, a), ga, gb);
      SetRecordKeeps(t1, a, Credit(Record(t1, a), ga, gb), GoalsOf);
      var t2 := SetRecord(t1, a, Credit(Record(t1, a), ga, gb));
      CreditBalanced(Record(t2, b), gb, ga);
      SetRecordKeeps(t2, b, Credit(Record(t2, b), gb, ga), GoalsOf);
    }
  }

  /**
    A scored match moves a column total by `da` for Team A's share and `db`
    for Team B's, whether or not the two rosters share a key.
  */
  lemma StepTotal(t: Table, m: Match, f: TeamRecord -> int, da: int, db: int)
    requires Consistent(t) && !Skipped(m)
    requires forall k :: f(Blank(k)) == 0
    requires forall r :: f(Credit(r, OrZero(m.teamAGoals), OrZero(m.teamBGoals))) == f(r) + da
    requires forall r :: f(Credit(r, OrZero(m.teamBGoals), OrZero(m.teamAGoals))) == f(r) + db
    ensures Total(Step(t, m), f) == Total(t, f) + da + db
  {
    var a, b := SortIds(m.teamA), SortIds(m.teamB);
    var ga, gb := OrZero(m.teamAGoals), OrZero(m.teamBGoals);
    EnsureKeeps(t, a, f);
    var t0 := Ensure(t, a);
    EnsureKeeps(t0, b, f);
    var t1 := Ensure(t0, b);
    var ra := Credit(Record(t1, a), ga, gb);
    CreditBalanced(Record(t1, a), ga, gb);
    SetRecordKeeps(t1, a, ra, f);
    var t2 := SetRecord(t1, a, ra);
    var rb := Credit(Record(t2, b), gb, ga);
    CreditBalanced(Record(t2, b), gb, ga);
    SetRecordKeeps(t2, b, rb, f);
    assert Step(t, m) == SetRecord(t2, b, rb);
  }

  /**
    Conservation over the whole history: every match-side lands in exactly
    one group, so the groups' matches add up to twice the scored matches,
    their goals to the goals of the scored matches, and every win is
    someone's loss.
  */
  lemma {:induction false} TallyConservation(ms: seq<Match>)
    ensures var t := Tally(ms);
      && Consistent(t)
      && Total(t, MatchesOf) == 2 * Included(ms)
      && Total(t, GoalsOf) == ScoredGoals(ms)
      && Total(t, WinsOf) == Total(t, LossesOf)
  {
    if ms != [] {
      var init := ms[..|ms| - 1];
      var m := ms[|ms| - 1];
      TallyConservation(init);
      var t := Tally(init);
      StepConsistent(t, m);
      if !Skipped(m) {
        var ga, gb := OrZero(m.teamAGoals), OrZero(m.teamBGoals);
        StepTotal(t, m, MatchesOf, 1, 1);
        StepTotal(t, m, GoalsOf, ga, gb);
        StepTotal(t, m, WinsOf, if ga > gb then 1 else 0, if gb > ga then 1 else 0);
        StepTotal(t, m, LossesOf, if ga < gb then 1 else 0, if gb < ga then 1 else 0);
      }
    }
  }

  /** Every listed group has as many wins, draws and losses together as matches. */
  lemma GroupsBalance(ms: seq<Match>)
    ensures forall r :: r in Values(Tally(ms)) ==> r.wins + r.draws + r.losses == r.matches
  {
    TallyConservation(ms);
    var t := Tally(ms);
    forall r | r in Values(t) ensures r.wins + r.draws + r.losses == r.matches {
      var i :| 0 <= i < |Values(t)| && Values(t)[i] == r;
      assert t.order[i] in t.records;
    }
  }

  /** There is a group exactly when some match is scored. */
  lemma {:induction false} NoGroupsIffNothingScored(ms: seq<Match>)
    ensures |Tally(ms).order| == 0 <==> forall m :: m in ms ==> Skipped(m)
  {
    if ms != [] {
      var init := ms[..|ms| - 1];
      var m := ms[|ms| - 1];
      NoGroupsIffNothingScored(init);
      TallyConservation(init);
      assert ms == init + [m];
      if !Skipped(m) {
        EnsureKeeps(Tally(init), SortIds(m.teamA), GoalsOf);
        EnsureKeeps(Ensure(Tally(init), SortIds(m.teamA)), SortIds(m.teamB), GoalsOf);
        assert SortIds(m.teamA) in Step(Tally(init), m).records;
        TallyConservation(ms);
      }
    }
  }

  /**
    One scored match between two different rosters: each side's group holds
    its goals and one match, the side with more goals has the win and the
    other the loss, and equal goals give both a draw.
  */
  lemma SingleMatchResult(m: Match)
    requires !Skipped(m) && SortIds(m.teamA) != SortIds(m.teamB)
    ensures var t := Tally([m]);
      var ga, gb := OrZero(m.teamAGoals), OrZero(m.teamBGoals);
      && |t.order| == 2
      && Record(t, SortIds(m.teamA)) == TeamRecord(SortIds(m.teamA), ga, 1,
           if ga > gb then 1 else 0, if ga == gb then 1 else 0, if ga < gb then 1 else 0)
      && Record(t, SortIds(m.teamB)) == TeamRecord(SortIds(m.teamB), gb, 1,
           if gb > ga then 1 else 0, if ga == gb then 1 else 0, if gb < ga then 1 else 0)
  {
    assert [m][..0] == [];
  }

  /** The match as it is left after `calculateTeamStats`: a scored match's rosters are sorted in place. */
  function AfterSort(m: Match): Match {
    if Skipped(m) then m else m.(teamA := SortIds(m.teamA), teamB := SortIds(m.teamB))
  }

  /** The two `if (!teamStats[key])` blocks: a group is opened for each new roster. */
  method OpenGroups(order: seq<TeamKey>, teamStats: map<TeamKey, TeamRecord>, teamAKey: TeamKey, teamBKey: TeamKey)
      returns (order': seq<TeamKey>, teamStats': map<TeamKey, TeamRecord>)
    ensures Table(order', teamStats') == Ensure(Ensure(Table(order, teamStats), teamAKey), teamBKey)
  {
    order', teamStats' := order, teamStats;
    if teamAKey !in teamStats' {
      order' := order' + [teamAKey];
      teamStats' := teamStats'[teamAKey := Blank(teamAKey)];
    }
    if teamBKey !in teamStats' {
      order' := order' + [teamBKey];
      teamStats' := teamStats'[teamBKey := Blank(teamBKey)];
    }
  }

  /** The counter updates of the `forEach`: goals and matches for both sides, then the result. */
  method CreditResult(teamStats: map<TeamKey, TeamRecord>, teamAKey: TeamKey, teamBKey: TeamKey, teamAGoals: int, teamBGoals: int)
      returns (teamStats': map<TeamKey, TeamRecord>)
    requires teamAKey in teamStats && teamBKey in teamStats
    ensures var credited := teamStats[teamAKey := Credit(teamStats[teamAKey], teamAGoals, teamBGoals)];
      teamStats' == credited[teamBKey := Credit(credited[teamBKey], teamBGoals, teamAGoals)]
  {
    teamStats' := teamStats;
    var ra := teamStats'[teamAKey];
    teamStats' := teamStats'[teamAKey := ra.(goals := ra.goals + teamAGoals, matches := ra.matches + 1)];
    var rb := teamStats'[teamBKey];
    teamStats' := teamStats'[teamBKey := rb.(goals := rb.goals + teamBGoals, matches := rb.matches + 1)];
    if teamAGoals > teamBGoals {
      var wa := teamStats'[teamAKey];
      teamStats' := teamStats'[teamAKey := wa.(wins := wa.wins + 1)];
      var lb := teamStats'[teamBKey];
      teamStats' := teamStats'[teamBKey := lb.(losses := lb.losses + 1)];
    } else if teamBGoals > teamAGoals {
      var wb := teamStats'[teamBKey];
      teamStats' := teamStats'[teamBKey := wb.(wins := wb.wins + 1)];
      var la := teamStats'[teamAKey];
      teamStats' := teamStats'[teamAKey := la.(losses := la.losses + 1)];
    } else {
      var da := teamStats'[teamAKey];
      teamStats' := teamStats'[teamAKey := da.(draws := da.draws + 1)];
      var db := teamStats'[teamBKey];
      teamStats' := teamStats'[teamBKey := db.(draws := db.draws + 1)];
    }
  }

  /**
    The `forEach` callback: an unscored match is passed over; otherwise its
    rosters are sorted in place, their groups opened and credited.
  */
  method VisitMatch(order: seq<TeamKey>, teamStats: map<TeamKey, TeamRecord>, m: Match)
      returns (order': seq<TeamKey>, teamStats': map<TeamKey, TeamRecord>, m': Match)
    ensures Table(order', teamStats') == Step(Table(order, teamStats), m)
    ensures m' == AfterSort(m)
  {
    order', teamStats', m' := order, teamStats, m;
    if Skipped(m) {
      return;
    }
    m' := m.(teamA := SortIds(m.teamA), teamB := SortIds(m.teamB));
    var teamAKey := m'.teamA;
    var teamBKey := m'.teamB;
    order', teamStats' := OpenGroups(order', teamStats', teamAKey, teamBKey);
    teamStats' := CreditResult(teamStats', teamAKey, teamBKey, OrZero(m.teamAGoals), OrZero(m.teamBGoals));
  }

  lemma TallyPrefix(matches: seq<Match>, i: nat)
    requires i < |matches|
    ensures Tally(matches[..i + 1]) == Step(Tally(matches[..i]), matches[i])
  {
    assert matches[..i + 1][..i] == matches[..i];
  }

  /**
    `calculateTeamStats`: the groups in insertion order, and the match list as
    the in-place roster sorts leave it.
  */
  method CalculateTeamStats(matches: seq<Match>) returns (teams: seq<TeamRecord>, after: seq<Match>)
    ensures teams == Values(Tally(matches))
    ensures |after| == |matches| && forall k :: 0 <= k < |matches| ==> after[k] == AfterSort(matches[k])
  {
    var order: seq<TeamKey> := [];
    var teamStats: map<TeamKey, TeamRecord> := map[];
    after := matches;
    for i := 0 to |matches|
      invariant Table(order, teamStats) == Tally(matches[..i])
      invariant |after| == |matches|
      invariant forall k :: 0 <= k < i ==> after[k] == AfterSort(matches[k])
      invariant forall k :: i <= k < |matches| ==> after[k] == matches[k]
    {
      TallyPrefix(matches, i);
      var sorted;
      order, teamStats, sorted := VisitMatch(order, teamStats, matches[i]);
      after := after[i := sorted];
    }
    assert matches[..|matches|] == matches;
    teams := Values(Table(order, teamStats));
  }

  /** The comparator `b.goals - a.goals || b.wins - a.wins`. */
  function TeamRank(r: TeamRecord): Rank {
    Rank(r.goals, r.wins)
  }

  /** `sortedTeams.slice(0, 3)` */
  function TopTeams(teams: seq<TeamRecord>): seq<TeamRecord> {
    var sorted := Sort(teams, Descending(TeamRank));
    sorted[..if |sorted| < 3 then |sorted| else 3]
  }

  /**
    The listing holds the best three groups, or all when there are fewer: it
    is ordered by goals and then wins, larger first, its entries are groups,
    and no group left out has more goals, or as many goals and more wins,
    than a listed one.
  */
  lemma TopTeamsAreBest(teams: seq<TeamRecord>)
    ensures var top := TopTeams(teams);
      && |top| == (if |teams| < 3 then |teams| else 3)
      && RankedDescending(top, TeamRank)
      && (forall r :: r in top ==> r in teams)
      && (forall u, i :: u in teams && u !in top && 0 <= i < |top| ==> !Outranks(TeamRank(u), TeamRank(top[i])))
  {
    var sorted := Sort(teams, Descending(TeamRank));
    var top := TopTeams(teams);
    SortDescending(teams, TeamRank);
    SortMembers(teams, Descending(TeamRank));
    forall u, i | u in teams && u !in top && 0 <= i < |top| ensures !Outranks(TeamRank(u), TeamRank(top[i])) {
      var j :| 0 <= j < |sorted| && sorted[j] == u;
      assert top[i] == sorted[i];
    }
  }

  /** The listing is empty exactly when no match is scored. */
  lemma NoTopTeamsIffNothingScored(ms: seq<Match>)
    ensures TopTeams(Values(Tally(ms))) == [] <==> forall m :: m in ms ==> Skipped(m)
  {
    NoGroupsIffNothingScored(ms);
  }
}

/**
  The goal ledger: how one player's record changes when a goal is added or
  removed and when a match is logged. Both app variants rebuild the record with
  a spread inside `players.map`; `ScoreGoal` and `RevokeGoal` are the simpler
  variant's updates, and the `...InPeriod` forms add the richer variant's
  match-period tally on top.
*/
module Ledger {
  import opened Domain

  /** The record `addPlayer` creates. */
  function NewPlayer(id: Id, name: string): Player {
    Player(id, name, true, 0, map[], map[], 0, 0, 0, 0, None, None)
  }

  /**
    The day streak after a goal on day `today`: unchanged for a second goal on
    the same day, one longer when the previous goal was the day before, and
    otherwise a new streak of one day.
  */
  function NextStreak(streak: int, lastGoalDay: Option<int>, today: int): int {
    if lastGoalDay == Some(today) then streak
    else if lastGoalDay == Some(today - 1) then streak + 1
    else 1
  }

  /** `m[k] = (m[k] || 0) + 1` on a copy of `m`. */
  function Increment<K(!new)>(m: map<K, int>, k: K): (r: map<K, int>)
    ensures Lookup(r, k) == Lookup(m, k) + 1
    ensures forall j :: j != k ==> Lookup(r, j) == Lookup(m, j)
    ensures r.Keys == m.Keys + {k}
  {
    m[k := Lookup(m, k) + 1]
  }

  /** `if (m[k] > 0) m[k] = m[k] - 1` on a copy of `m`: an entry never drops below zero. */
  function Decrement<K(!new)>(m: map<K, int>, k: K): (r: map<K, int>)
    ensures Lookup(m, k) > 0 ==> Lookup(r, k) == Lookup(m, k) - 1
    ensures Lookup(m, k) <= 0 ==> r == m
    ensures forall j :: j != k ==> Lookup(r, j) == Lookup(m, j)
    ensures r.Keys == m.Keys
  {
    if Lookup(m, k) > 0 then m[k := m[k] - 1] else m
  }

  /** `p.lastMatchDate || 'start'`: the period goals are currently credited to. */
  function PeriodKeyOf(p: Player): PeriodKey {
    if p.lastMatchDate.Some? then At(p.lastMatchDate.value) else Start
  }

  /** The simpler variant's `addGoal` update for one player. */
  function ScoreGoal(p: Player, today: int, month: MonthKey): Player {
    p.(totalGoals := p.totalGoals + 1,
       monthlyGoals := Increment(p.monthlyGoals, month),
       currentStreak := NextStreak(p.currentStreak, p.lastGoalDate, today),
       lastGoalDate := Some(today))
  }

  /** The richer variant's `addGoal` update: also credits the current match period. */
  function ScoreGoalInPeriod(p: Player, today: int, month: MonthKey): Player {
    ScoreGoal(p, today, month).(matchPeriodGoals := Increment(p.matchPeriodGoals, PeriodKeyOf(p)))
  }

  /** The simpler variant's `removeGoal` update for one player; nothing happens at zero goals. */
  function RevokeGoal(p: Player, month: MonthKey): Player {
    if p.totalGoals == 0 then p
    else p.(totalGoals := Max(0, p.totalGoals - 1),
            monthlyGoals := Decrement(p.monthlyGoals, month))
  }

  /** The richer variant's `removeGoal` update: also debits the current match period. */
  function RevokeGoalInPeriod(p: Player, month: MonthKey): Player {
    if p.totalGoals == 0 then p
    else RevokeGoal(p, month).(matchPeriodGoals := Decrement(p.matchPeriodGoals, PeriodKeyOf(p)))
  }

  /** The richer variant's `logMatch` update for a participant: a new period opens at `date`. */
  function StartPeriod(p: Player, date: int): Player {
    p.(matchesPlayed := p.matchesPlayed + 1,
       lastMatchDate := Some(date),
       matchPeriodGoals := p.matchPeriodGoals[At(date) := 0])
  }

  /** The simpler variant's `logMatch` update for a participant. */
  function CountMatch(p: Player): Player {
    p.(matchesPlayed := p.matchesPlayed + 1)
  }

  /** `players.map(p => ids.has(p.id) ? f(p) : p)` */
  function UpdateWhere(ps: seq<Player>, ids: set<Id>, f: Player -> Player): seq<Player> {
    seq(|ps|, i requires 0 <= i < |ps| => if ps[i].id in ids then f(ps[i]) else ps[i])
  }

  /** `togglePlayerType`'s update: the permanent/guest flag flips. */
  function FlipType(p: Player): Player {
    p.(isPermanent := !p.isPermanent)
  }

  /** Toggling a player's type twice gives back the roster it started from. */
  lemma FlipTwice(ps: seq<Player>, id: Id)
    ensures UpdateWhere(UpdateWhere(ps, {id}, FlipType), {id}, FlipType) == ps
  {
    var once := UpdateWhere(ps, {id}, FlipType);
    forall i | 0 <= i < |ps| ensures UpdateWhere(once, {id}, FlipType)[i] == ps[i] {
      assert once[i].id == ps[i].id;
      assert FlipType(FlipType(ps[i])) == ps[i];
    }
  }

  /** The per-player updates as the values the handlers map over the roster. */
  function GoalAdder(today: int, month: MonthKey): Player -> Player {
    p => ScoreGoal(p, today, month)
  }

  function PeriodGoalAdder(today: int, month: MonthKey): Player -> Player {
    p => ScoreGoalInPeriod(p, today, month)
  }

  function GoalRemover(month: MonthKey): Player -> Player {
    p => RevokeGoal(p, month)
  }

  function PeriodGoalRemover(month: MonthKey): Player -> Player {
    p => RevokeGoalInPeriod(p, month)
  }

  function PeriodOpener(date: int): Player -> Player {
    p => StartPeriod(p, date)
  }

  ghost function SomeMonth(m: map<MonthKey, int>): (k: MonthKey)
    requires |m| > 0
    ensures k in m
  {
    var k :| k in m; k
  }

  /** The sum of all monthly entries. */
  ghost function SumMonths(m: map<MonthKey, int>): int
    decreases |m|
  {
    if |m| == 0 then 0
    else
      var k := SomeMonth(m);
      m[k] + SumMonths(m - {k})
  }

  lemma {:induction false} SumMonthsRemove(m: map<MonthKey, int>, k: MonthKey)
    requires k in m
    ensures SumMonths(m) == m[k] + SumMonths(m - {k})
    decreases |m|
  {
    var j := SomeMonth(m);
    if j != k {
      assert |m - {j}| == |m| - 1;
      SumMonthsRemove(m - {j}, k);
      assert |m - {k}| == |m| - 1;
      SumMonthsRemove(m - {k}, j);
      assert m - {j} - {k} == m - {k} - {j};
    }
  }

  /** Setting entry `k` to `v` changes the sum by the difference from its old (default 0) value. */
  lemma SumMonthsUpdate(m: map<MonthKey, int>, k: MonthKey, v: int)
    ensures SumMonths(m[k := v]) == SumMonths(m) - Lookup(m, k) + v
  {
    var m' := m[k := v];
    SumMonthsRemove(m', k);
    assert m' - {k} == m - {k};
    if k in m {
      SumMonthsRemove(m, k);
    } else {
      assert m - {k} == m;
    }
  }

  /**
    The ledger invariant: no counter is negative and the total never exceeds
    the sum of the monthly tallies.
  */
  ghost predicate Wellformed(p: Player) {
    && p.totalGoals >= 0
    && p.matchesPlayed >= 0
    && p.currentStreak >= 0
    && (forall k :: k in p.monthlyGoals ==> p.monthlyGoals[k] >= 0)
    && (forall k :: k in p.matchPeriodGoals ==> p.matchPeriodGoals[k] >= 0)
    && p.totalGoals <= SumMonths(p.monthlyGoals)
  }

  lemma NewPlayerIsBlank(id: Id, name: string)
    ensures Wellformed(NewPlayer(id, name))
    ensures SumMonths(NewPlayer(id, name).monthlyGoals) == 0
  {
  }

  /** Adding a goal keeps the invariant and raises the total and the monthly sum by one each. */
  lemma ScoreGoalKeepsLedger(p: Player, today: int, month: MonthKey)
    requires Wellformed(p)
    ensures Wellformed(ScoreGoal(p, today, month))
    ensures Wellformed(ScoreGoalInPeriod(p, today, month))
    ensures SumMonths(ScoreGoal(p, today, month).monthlyGoals) == SumMonths(p.monthlyGoals) + 1
  {
    var q := ScoreGoal(p, today, month);
    SumMonthsUpdate(p.monthlyGoals, month, Lookup(p.monthlyGoals, month) + 1);
    assert q.monthlyGoals == p.monthlyGoals[month := Lookup(p.monthlyGoals, month) + 1];
    IncrementKeepsNonNegative(p.monthlyGoals, month);
    IncrementKeepsNonNegative(p.matchPeriodGoals, PeriodKeyOf(p));
  }

  lemma IncrementKeepsNonNegative<K(!new)>(m: map<K, int>, k: K)
    requires forall j :: j in m ==> m[j] >= 0
    ensures forall j :: j in Increment(m, k) ==> Increment(m, k)[j] >= 0
  {
    forall j | j in Increment(m, k) ensures Increment(m, k)[j] >= 0 {
      assert Increment(m, k)[j] == Lookup(Increment(m, k), j);
    }
  }

  lemma DecrementKeepsNonNegative<K(!new)>(m: map<K, int>, k: K)
    requires forall j :: j in m ==> m[j] >= 0
    ensures forall j :: j in Decrement(m, k) ==> Decrement(m, k)[j] >= 0
  {
    forall j | j in Decrement(m, k) ensures Decrement(m, k)[j] >= 0 {
      assert Decrement(m, k)[j] == Lookup(Decrement(m, k), j);
    }
  }

  /** Removing a goal keeps the invariant: no counter goes negative and the total stays within the monthly sum. */
  lemma RevokeGoalKeepsLedger(p: Player, month: MonthKey)
    requires Wellformed(p)
    ensures Wellformed(RevokeGoal(p, month))
    ensures Wellformed(RevokeGoalInPeriod(p, month))
  {
    if p.totalGoals != 0 {
      var q := RevokeGoal(p, month);
      assert q.totalGoals == p.totalGoals - 1;
      if Lookup(p.monthlyGoals, month) > 0 {
        SumMonthsUpdate(p.monthlyGoals, month, Lookup(p.monthlyGoals, month) - 1);
        assert q.monthlyGoals == p.monthlyGoals[month := Lookup(p.monthlyGoals, month) - 1];
      } else {
        assert q.monthlyGoals == p.monthlyGoals;
      }
      assert q.totalGoals <= SumMonths(q.monthlyGoals);
      DecrementKeepsNonNegative(p.monthlyGoals, month);
      DecrementKeepsNonNegative(p.matchPeriodGoals, PeriodKeyOf(p));
      assert Wellformed(q);
    }
  }

  lemma StartPeriodKeepsLedger(p: Player, date: int)
    requires Wellformed(p)
    ensures Wellformed(StartPeriod(p, date)) && Wellformed(CountMatch(p))
  {
  }

  /** Every per-player update the handlers apply keeps a well-formed player well-formed. */
  lemma UpdatesKeepLedger(today: int, month: MonthKey, date: int)
    ensures forall p :: Wellformed(p) ==>
      && Wellformed(GoalAdder(today, month)(p))
      && Wellformed(PeriodGoalAdder(today, month)(p))
      && Wellformed(GoalRemover(month)(p))
      && Wellformed(PeriodGoalRemover(month)(p))
      && Wellformed(PeriodOpener(date)(p))
      && Wellformed(CountMatch(p))
      && Wellformed(FlipType(p))
  {
    forall p | Wellformed(p)
      ensures Wellformed(GoalAdder(today, month)(p))
      ensures Wellformed(PeriodGoalAdder(today, month)(p))
      ensures Wellformed(GoalRemover(month)(p))
      ensures Wellformed(PeriodGoalRemover(month)(p))
      ensures Wellformed(PeriodOpener(date)(p))
      ensures Wellformed(CountMatch(p))
    {
      ScoreGoalKeepsLedger(p, today, month);
      ApplyEventKeepsLedger(p, GoalAdded(today, month));
      RevokeGoalKeepsLedger(p, month);
      ApplyEventKeepsLedger(p, GoalRemoved(month));
      StartPeriodKeepsLedger(p, date);
    }
  }

  /** Mapping a ledger-preserving update over a roster keeps every player well-formed. */
  lemma UpdateWhereKeepsLedger(ps: seq<Player>, ids: set<Id>, f: Player -> Player)
    requires forall p :: Wellformed(p) ==> Wellformed(f(p))
    requires forall p :: p in ps ==> Wellformed(p)
    ensures forall p :: p in UpdateWhere(ps, ids, f) ==> Wellformed(p)
  {
    var r := UpdateWhere(ps, ids, f);
    forall x | x in r ensures Wellformed(x) {
      var i :| 0 <= i < |r| && r[i] == x;
      assert ps[i] in ps;
    }
  }

  /**
    Adding a goal and removing it again on the same day and month restores the
    total and every default-0 lookup of both tallies, but the streak and the
    last goal date keep the values the goal gave them.
  */
  lemma RevokeAfterScore(p: Player, today: int, month: MonthKey)
    requires Wellformed(p)
    ensures var q := RevokeGoalInPeriod(ScoreGoalInPeriod(p, today, month), month);
      && q.totalGoals == p.totalGoals
      && (forall k :: Lookup(q.monthlyGoals, k) == Lookup(p.monthlyGoals, k))
      && (forall k :: Lookup(q.matchPeriodGoals, k) == Lookup(p.matchPeriodGoals, k))
      && q.lastGoalDate == Some(today)
      && q.currentStreak == NextStreak(p.currentStreak, p.lastGoalDate, today)
  {
    var s := ScoreGoalInPeriod(p, today, month);
    assert PeriodKeyOf(s) == PeriodKeyOf(p);
    assert s.totalGoals > 0;
    var q := RevokeGoalInPeriod(s, month);
    assert q.monthlyGoals == Decrement(Increment(p.monthlyGoals, month), month);
    assert q.matchPeriodGoals == Decrement(Increment(p.matchPeriodGoals, PeriodKeyOf(p)), PeriodKeyOf(p));
    DecrementUndoesIncrement(p.monthlyGoals, month);
    DecrementUndoesIncrement(p.matchPeriodGoals, PeriodKeyOf(p));
  }

  lemma DecrementUndoesIncrement<K(!new)>(m: map<K, int>, k: K)
    requires forall j :: j in m ==> m[j] >= 0
    ensures forall j :: Lookup(Decrement(Increment(m, k), k), j) == Lookup(m, j)
  {
    assert Lookup(m, k) >= 0;
  }

  /**
    The total can fall below the monthly sum: a goal removed in a month whose
    entry is 0 lowers only the total, so equality of the two is not kept.
  */
  lemma RevokeInEmptyMonth()
    ensures var jan, feb := MonthKey(2024, 0), MonthKey(2024, 1);
      var p := NewPlayer("p1", "Ali").(totalGoals := 1, monthlyGoals := map[jan := 1]);
      && Wellformed(p) && p.totalGoals == SumMonths(p.monthlyGoals)
      && Wellformed(RevokeGoal(p, feb))
      && RevokeGoal(p, feb).totalGoals == 0 < SumMonths(RevokeGoal(p, feb).monthlyGoals)
  {
    var jan := MonthKey(2024, 0);
    var m := map[jan := 1];
    SumMonthsRemove(m, jan);
    assert m - {jan} == map[];
  }

  /** One ledger event on a player, as the richer variant applies it. */
  datatype LedgerEvent =
    | GoalAdded(day: int, month: MonthKey)
    | GoalRemoved(month: MonthKey)
    | MatchLogged(date: int)

  function ApplyEvent(p: Player, e: LedgerEvent): Player {
    match e
    case GoalAdded(day, month) => ScoreGoalInPeriod(p, day, month)
    case GoalRemoved(month) => RevokeGoalInPeriod(p, month)
    case MatchLogged(date) => StartPeriod(p, date)
  }

  function Replay(p: Player, events: seq<LedgerEvent>): Player
    decreases |events|
  {
    if events == [] then p else Replay(ApplyEvent(p, events[0]), events[1..])
  }

  lemma ApplyEventKeepsLedger(p: Player, e: LedgerEvent)
    requires Wellformed(p)
    ensures Wellformed(ApplyEvent(p, e))
  {
    match e
    case GoalAdded(day, month) => ScoreGoalKeepsLedger(p, day, month);
    case GoalRemoved(month) => RevokeGoalKeepsLedger(p, month);
    case MatchLogged(date) => StartPeriodKeepsLedger(p, date);
  }

  /** Any sequence of goal additions, removals and logged matches keeps the ledger invariant. */
  lemma {:induction false} ReplayKeepsLedger(p: Player, events: seq<LedgerEvent>)
    requires Wellformed(p)
    ensures Wellformed(Replay(p, events))
    decreases |events|
  {
    if events != [] {
      ApplyEventKeepsLedger(p, events[0]);
      ReplayKeepsLedger(ApplyEvent(p, events[0]), events[1..]);
    }
  }

  /** From a new player, no counter ever goes negative and the total never exceeds the monthly sum. */
  lemma FreshPlayerLedger(id: Id, name: string, events: seq<LedgerEvent>)
    ensures var q := Replay(NewPlayer(id, name), events);
      q.totalGoals >= 0 && q.totalGoals <= SumMonths(q.monthlyGoals)
  {
    NewPlayerIsBlank(id, name);
    ReplayKeepsLedger(NewPlayer(id, name), events);
  }

  /** Goals on the given days, in order, all in one month. */
  function ScoreOnDays(p: Player, days: seq<int>, month: MonthKey): Player {
    if days == [] then p
    else ScoreGoal(ScoreOnDays(p, days[..|days| - 1], month), days[|days| - 1], month)
  }

  predicate NonDecreasing(days: seq<int>) {
    forall i, j :: 0 <= i < j < |days| ==> days[i] <= days[j]
  }

  /** First day of the final unbroken run of days (no gap of a whole day). */
  function RunStart(days: seq<int>): int
    requires days != []
  {
    var n := |days|;
    if n == 1 then days[0]
    else if days[n - 1] - days[n - 2] <= 1 then RunStart(days[..n - 1])
    else days[n - 1]
  }

  /**
    The streak counts calendar days: after goals on a non-decreasing list of days
    by a player with no earlier goal, it is the number of days in the final run
    of consecutive days.
  */
  lemma {:induction false} StreakCountsDays(p: Player, days: seq<int>, month: MonthKey)
    requires p.lastGoalDate == None
    requires days != [] && NonDecreasing(days)
    ensures ScoreOnDays(p, days, month).lastGoalDate == Some(days[|days| - 1])
    ensures ScoreOnDays(p, days, month).currentStreak == days[|days| - 1] - RunStart(days) + 1
  {
    var n := |days|;
    if n > 1 {
      var prefix := days[..n - 1];
      assert prefix[|prefix| - 1] == days[n - 2];
      assert NonDecreasing(prefix) by {
        forall i, j | 0 <= i < j < |prefix| ensures prefix[i] <= prefix[j] {
          assert prefix[i] == days[i] && prefix[j] == days[j];
        }
      }
      StreakCountsDays(p, prefix, month);
      var q := ScoreOnDays(p, prefix, month);
      assert ScoreOnDays(p, days, month) == ScoreGoal(q, days[n - 1], month);
      assert days[n - 2] <= days[n - 1];
    }
  }
}


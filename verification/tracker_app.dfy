/**
  The simpler app variant's state and handlers. Nothing is gated on a sign-in,
  deletions ask for no confirmation, a logged match carries no score fields
  and no match periods are kept: its players never gain period tallies, a
  last match date, assists or MVPs.
*/
module TrackerApp {
  import opened Domain
  import opened Ledger
  import opened Roster

  /** The fields the simpler variant neither sets nor changes keep their blank values. */
  predicate Plain(p: Player) {
    p.matchPeriodGoals == map[] && p.lastMatchDate == None && p.assists == 0 && p.mvps == 0
  }

  /** Every update the simpler variant maps over the roster keeps a player plain. */
  lemma PlainUpdates(today: int, month: MonthKey)
    ensures forall p :: Plain(p) ==>
      && Plain(GoalAdder(today, month)(p))
      && Plain(GoalRemover(month)(p))
      && Plain(CountMatch(p))
      && Plain(FlipType(p))
  {
    forall p | Plain(p)
      ensures Plain(GoalAdder(today, month)(p))
      ensures Plain(GoalRemover(month)(p))
    {
      assert GoalAdder(today, month)(p) == ScoreGoal(p, today, month);
      assert GoalRemover(month)(p) == RevokeGoal(p, month);
    }
  }

  lemma UpdateWhereKeepsPlain(ps: seq<Player>, ids: set<Id>, f: Player -> Player)
    requires forall p :: Plain(p) ==> Plain(f(p))
    requires forall p :: p in ps ==> Plain(p)
    ensures forall p :: p in UpdateWhere(ps, ids, f) ==> Plain(p)
  {
    var r := UpdateWhere(ps, ids, f);
    forall x | x in r ensures Plain(x) {
      var i :| 0 <= i < |r| && r[i] == x;
      assert ps[i] in ps;
    }
  }

  class Tracker {
    var players: seq<Player>
    var matches: seq<Match>
    var payments: seq<Payment>
    var selected: set<Id>

    /** Every player's counters are consistent and no player carries match-period data. */
    ghost predicate Valid()
      reads this
    {
      forall p :: p in players ==> Wellformed(p) && Plain(p)
    }

    constructor()
      ensures players == [] && matches == [] && payments == [] && selected == {}
      ensures Valid()
    {
      players := [];
      matches := [];
      payments := [];
      selected := {};
    }

    /** `addPlayer`: `id` stands for the clock reading the source uses as a fresh id. */
    method AddPlayer(id: Id, name: string)
      modifies this
      ensures players == old(players) + [NewPlayer(id, name)]
      ensures matches == old(matches) && payments == old(payments) && selected == old(selected)
      ensures old(Valid()) ==> Valid()
    {
      NewPlayerIsBlank(id, name);
      players := players + [NewPlayer(id, name)];
    }

    method DeletePlayer(id: Id)
      modifies this
      ensures players == WithoutPlayer(old(players), id)
      ensures selected == old(selected) - {id}
      ensures matches == old(matches) && payments == old(payments)
      ensures old(Valid()) ==> Valid()
    {
      players := WithoutPlayer(players, id);
      selected := selected - {id};
    }

    method TogglePlayerType(id: Id)
      modifies this
      ensures players == UpdateWhere(old(players), {id}, FlipType)
      ensures matches == old(matches) && payments == old(payments) && selected == old(selected)
      ensures old(Valid()) ==> Valid()
    {
      UpdatesKeepLedger(0, MonthKey(0, 0), 0);
      PlainUpdates(0, MonthKey(0, 0));
      if Valid() {
        UpdateWhereKeepsLedger(players, {id}, FlipType);
        UpdateWhereKeepsPlain(players, {id}, FlipType);
      }
      players := UpdateWhere(players, {id}, FlipType);
    }

    /** `addGoal`: `today` and `month` are the day number and calendar month of the clock reading. */
    method AddGoal(id: Id, today: int, month: MonthKey)
      modifies this
      ensures players == UpdateWhere(old(players), {id}, GoalAdder(today, month))
      ensures matches == old(matches) && payments == old(payments) && selected == old(selected)
      ensures old(Valid()) ==> Valid()
    {
      UpdatesKeepLedger(today, month, 0);
      PlainUpdates(today, month);
      if Valid() {
        UpdateWhereKeepsLedger(players, {id}, GoalAdder(today, month));
        UpdateWhereKeepsPlain(players, {id}, GoalAdder(today, month));
      }
      players := UpdateWhere(players, {id}, GoalAdder(today, month));
    }

    method RemoveGoal(id: Id, month: MonthKey)
      modifies this
      ensures players == UpdateWhere(old(players), {id}, GoalRemover(month))
      ensures matches == old(matches) && payments == old(payments) && selected == old(selected)
      ensures old(Valid()) ==> Valid()
    {
      UpdatesKeepLedger(0, month, 0);
      PlainUpdates(0, month);
      if Valid() {
        UpdateWhereKeepsLedger(players, {id}, GoalRemover(month));
        UpdateWhereKeepsPlain(players, {id}, GoalRemover(month));
      }
      players := UpdateWhere(players, {id}, GoalRemover(month));
    }

    method TogglePlayerSelection(id: Id)
      modifies this
      ensures selected == Toggle(old(selected), id)
      ensures players == old(players) && matches == old(matches) && payments == old(payments)
    {
      selected := Toggle(selected, id);
    }

    method SelectAllPlayers()
      modifies this
      ensures selected == PlayerIds(old(players))
      ensures players == old(players) && matches == old(matches) && payments == old(payments)
    {
      selected := PlayerIds(players);
    }

    method ClearSelection()
      modifies this
      ensures selected == {}
      ensures players == old(players) && matches == old(matches) && payments == old(payments)
    {
      selected := {};
    }

    /**
      `logMatch`: the participants' match counts rise and the match is stored
      without score fields; the selection is left as it was.
    */
    method LogMatch(teamA: seq<Id>, teamB: seq<Id>, matchId: Id, date: int)
      modifies this
      ensures players == UpdateWhere(old(players), Participants(teamA, teamB), CountMatch)
      ensures matches == old(matches) + [Match(matchId, date, teamA, teamB, Absent, Absent)]
      ensures payments == old(payments) && selected == old(selected)
      ensures old(Valid()) ==> Valid()
    {
      UpdatesKeepLedger(0, MonthKey(0, 0), 0);
      PlainUpdates(0, MonthKey(0, 0));
      if Valid() {
        UpdateWhereKeepsLedger(players, Participants(teamA, teamB), CountMatch);
        UpdateWhereKeepsPlain(players, Participants(teamA, teamB), CountMatch);
      }
      players := UpdateWhere(players, Participants(teamA, teamB), CountMatch);
      matches := matches + [Match(matchId, date, teamA, teamB, Absent, Absent)];
    }

    /** `addPayment`: a missing date falls back to the clock reading `now`. */
    method AddPayment(id: Id, date: Option<int>, now: int)
      modifies this
      ensures payments == old(payments) + [Payment(id, if date.Some? then date.value else now)]
      ensures players == old(players) && matches == old(matches) && selected == old(selected)
    {
      payments := payments + [Payment(id, if date.Some? then date.value else now)];
    }

    method DeletePayment(id: Id)
      modifies this
      ensures payments == WithoutPayment(old(payments), id)
      ensures players == old(players) && matches == old(matches) && selected == old(selected)
    {
      payments := WithoutPayment(payments, id);
    }
  }
}

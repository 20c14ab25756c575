/**
  The richer app variant's state and handlers: the roster, the match history,
  the payments and the selection, every change gated on the signed-in user
  being an administrator. Each handler's update is the pure per-player or
  per-list function it maps, so its contract names the new state outright;
  the invariants it keeps are the player ledger and the agreement between
  `lastMatchDate` and the match history.
*/
module ClasicoApp {
  import opened Domain
  import opened Sorting
  import opened Ledger
  import opened Ranking
  import opened Roster

  /** An update that keeps a player's id and last match keeps each player's last match in agreement. */
  lemma UpdateWhereKeepsAgreement(ps: seq<Player>, ids: set<Id>, f: Player -> Player, matches: seq<Match>)
    requires forall p :: f(p).id == p.id && f(p).lastMatchDate == p.lastMatchDate
    requires forall p :: p in ps ==> LastMatchAgrees(p, matches)
    ensures forall p :: p in UpdateWhere(ps, ids, f) ==> LastMatchAgrees(p, matches)
  {
    var r := UpdateWhere(ps, ids, f);
    forall x | x in r ensures LastMatchAgrees(x, matches) {
      var i :| 0 <= i < |r| && r[i] == x;
      assert ps[i] in ps;
      assert x.id == ps[i].id && x.lastMatchDate == ps[i].lastMatchDate;
    }
  }

  /** Opening a period for the participants of a match newer than all others keeps every player in agreement. */
  lemma LogMatchKeepsRosterAgreement(ps: seq<Player>, matches: seq<Match>, m: Match)
    requires forall p :: p in ps ==> LastMatchAgrees(p, matches)
    requires forall old_ :: old_ in matches ==> old_.date < m.date
    ensures forall p :: p in UpdateWhere(ps, Participants(m.teamA, m.teamB), PeriodOpener(m.date)) ==>
      LastMatchAgrees(p, matches + [m])
  {
    var r := UpdateWhere(ps, Participants(m.teamA, m.teamB), PeriodOpener(m.date));
    forall x | x in r ensures LastMatchAgrees(x, matches + [m]) {
      var i :| 0 <= i < |r| && r[i] == x;
      assert ps[i] in ps;
      LogMatchKeepsAgreement(ps[i], matches, m);
    }
  }

  class League {
    var players: seq<Player>
    var matches: seq<Match>
    var payments: seq<Payment>
    var selected: set<Id>
    /** Whether the signed-in user is an administrator; sign-in itself is not modelled. */
    const isAdmin: bool

    /** Every player's counters are consistent. */
    ghost predicate Valid()
      reads this
    {
      forall p :: p in players ==> Wellformed(p)
    }

    /** Every player's `lastMatchDate` names their newest match in the history. */
    ghost predicate PeriodsAgree()
      reads this
    {
      forall p :: p in players ==> LastMatchAgrees(p, matches)
    }

    constructor(isAdmin: bool)
      ensures this.isAdmin == isAdmin
      ensures players == [] && matches == [] && payments == [] && selected == {}
      ensures Valid() && PeriodsAgree()
    {
      this.isAdmin := isAdmin;
      players := [];
      matches := [];
      payments := [];
      selected := {};
    }

    /** `addPlayer`: `id` stands for the clock reading the source uses as a fresh id. */
    method AddPlayer(id: Id, name: string)
      modifies this
      ensures players == if isAdmin then old(players) + [NewPlayer(id, name)] else old(players)
      ensures matches == old(matches) && payments == old(payments) && selected == old(selected)
      ensures old(Valid()) ==> Valid()
      ensures old(PeriodsAgree()) && (forall m :: m in matches ==> !Participates(m, id)) ==> PeriodsAgree()
    {
      if !isAdmin {
        return;
      }
      NewPlayerIsBlank(id, name);
      players := players + [NewPlayer(id, name)];
    }

    /** `updatePlayer`: the edited record replaces every stored record with its id. */
    method UpdatePlayer(updated: Player)
      modifies this
      ensures players == if isAdmin then UpdateWhere(old(players), {updated.id}, Becomes(updated)) else old(players)
      ensures matches == old(matches) && payments == old(payments) && selected == old(selected)
      ensures old(Valid()) && Wellformed(updated) ==> Valid()
    {
      if !isAdmin {
        return;
      }
      if Valid() && Wellformed(updated) {
        UpdateWhereKeepsLedger(players, {updated.id}, Becomes(updated));
      }
      players := UpdateWhere(players, {updated.id}, Becomes(updated));
    }

    /** `deletePlayer`: after confirmation the player leaves the roster and the selection. */
    method DeletePlayer(id: Id, confirmed: bool)
      modifies this
      ensures players == if isAdmin && confirmed then WithoutPlayer(old(players), id) else old(players)
      ensures selected == if isAdmin && confirmed then old(selected) - {id} else old(selected)
      ensures matches == old(matches) && payments == old(payments)
      ensures old(Valid()) ==> Valid()
      ensures old(PeriodsAgree()) ==> PeriodsAgree()
    {
      if !isAdmin {
        return;
      }
      if confirmed {
        players := WithoutPlayer(players, id);
        selected := selected - {id};
      }
    }

    /** `togglePlayerType`: permanent players become guests and back. */
    method TogglePlayerType(id: Id)
      modifies this
      ensures players == if isAdmin then UpdateWhere(old(players), {id}, FlipType) else old(players)
      ensures matches == old(matches) && payments == old(payments) && selected == old(selected)
      ensures old(Valid()) ==> Valid()
      ensures old(PeriodsAgree()) ==> PeriodsAgree()
    {
      if !isAdmin {
        return;
      }
      UpdatesKeepLedger(0, MonthKey(0, 0), 0);
      if Valid() {
        UpdateWhereKeepsLedger(players, {id}, FlipType);
      }
      if PeriodsAgree() {
        UpdateWhereKeepsAgreement(players, {id}, FlipType, matches);
      }
      players := UpdateWhere(players, {id}, FlipType);
    }

    /**
      `addGoal`: `today` is the day number and `month` the calendar month of
      the clock reading the source takes.
    */
    method AddGoal(id: Id, today: int, month: MonthKey)
      modifies this
      ensures players == if isAdmin then UpdateWhere(old(players), {id}, PeriodGoalAdder(today, month)) else old(players)
      ensures matches == old(matches) && payments == old(payments) && selected == old(selected)
      ensures old(Valid()) ==> Valid()
      ensures old(PeriodsAgree()) ==> PeriodsAgree()
    {
      if !isAdmin {
        return;
      }
      UpdatesKeepLedger(today, month, 0);
      if Valid() {
        UpdateWhereKeepsLedger(players, {id}, PeriodGoalAdder(today, month));
      }
      if PeriodsAgree() {
        UpdateWhereKeepsAgreement(players, {id}, PeriodGoalAdder(today, month), matches);
      }
      players := UpdateWhere(players, {id}, PeriodGoalAdder(today, month));
    }

    /** `removeGoal`, with `month` the calendar month of the clock reading. */
    method RemoveGoal(id: Id, month: MonthKey)
      modifies this
      ensures players == if isAdmin then UpdateWhere(old(players), {id}, PeriodGoalRemover(month)) else old(players)
      ensures matches == old(matches) && payments == old(payments) && selected == old(selected)
      ensures old(Valid()) ==> Valid()
      ensures old(PeriodsAgree()) ==> PeriodsAgree()
    {
      if !isAdmin {
        return;
      }
      UpdatesKeepLedger(0, month, 0);
      if Valid() {
        UpdateWhereKeepsLedger(players, {id}, PeriodGoalRemover(month));
      }
      if PeriodsAgree() {
        UpdateWhereKeepsAgreement(players, {id}, PeriodGoalRemover(month), matches);
      }
      players := UpdateWhere(players, {id}, PeriodGoalRemover(month));
    }

    method TogglePlayerSelection(id: Id)
      modifies this
      ensures selected == if isAdmin then Toggle(old(selected), id) else old(selected)
      ensures players == old(players) && matches == old(matches) && payments == old(payments)
    {
      if !isAdmin {
        return;
      }
      selected := Toggle(selected, id);
    }

    method SelectAllPlayers()
      modifies this
      ensures selected == if isAdmin then PlayerIds(old(players)) else old(selected)
      ensures players == old(players) && matches == old(matches) && payments == old(payments)
    {
      if !isAdmin {
        return;
      }
      selected := PlayerIds(players);
    }

    method ClearSelection()
      modifies this
      ensures selected == if isAdmin then {} else old(selected)
      ensures players == old(players) && matches == old(matches) && payments == old(payments)
    {
      if !isAdmin {
        return;
      }
      selected := {};
    }

    /**
      `logMatch`: `matchId` and `date` stand for the clock reading. The
      participants open a new match period, the match is stored with both
      scores at 0, and the selection is cleared.
    */
    method LogMatch(teamA: seq<Id>, teamB: seq<Id>, matchId: Id, date: int)
      modifies this
      ensures var logged := Match(matchId, date, teamA, teamB, Goals(0), Goals(0));
        && players == (if isAdmin then UpdateWhere(old(players), Participants(teamA, teamB), PeriodOpener(date)) else old(players))
        && matches == (if isAdmin then old(matches) + [logged] else old(matches))
        && selected == (if isAdmin then {} else old(selected))
      ensures payments == old(payments)
      ensures old(Valid()) ==> Valid()
      ensures old(PeriodsAgree()) && (forall m :: m in old(matches) ==> m.date < date) ==> PeriodsAgree()
    {
      if !isAdmin {
        return;
      }
      var logged := Match(matchId, date, teamA, teamB, Goals(0), Goals(0));
      UpdatesKeepLedger(0, MonthKey(0, 0), date);
      if Valid() {
        UpdateWhereKeepsLedger(players, Participants(teamA, teamB), PeriodOpener(date));
      }
      if PeriodsAgree() && (forall m :: m in matches ==> m.date < date) {
        LogMatchKeepsRosterAgreement(players, matches, logged);
      }
      players := UpdateWhere(players, Participants(teamA, teamB), PeriodOpener(date));
      matches := matches + [logged];
      selected := {};
    }

    /** `updateMatchScore`: the edited match replaces every stored match with its id. */
    method UpdateMatchScore(updated: Match)
      modifies this
      ensures matches == if isAdmin then ReplaceMatch(old(matches), updated) else old(matches)
      ensures players == old(players) && payments == old(payments) && selected == old(selected)
    {
      if !isAdmin {
        return;
      }
      matches := ReplaceMatch(matches, updated);
    }

    /** `deleteMatch`, after confirmation; players keep their counters and periods. */
    method DeleteMatch(matchId: Id, confirmed: bool)
      modifies this
      ensures matches == if isAdmin && confirmed then WithoutMatch(old(matches), matchId) else old(matches)
      ensures players == old(players) && payments == old(payments) && selected == old(selected)
    {
      if !isAdmin {
        return;
      }
      if confirmed {
        matches := WithoutMatch(matches, matchId);
      }
    }

    /** `addPayment`: a missing date falls back to the clock reading `now`. */
    method AddPayment(id: Id, date: Option<int>, now: int)
      modifies this
      ensures payments == if isAdmin then old(payments) + [Payment(id, if date.Some? then date.value else now)] else old(payments)
      ensures players == old(players) && matches == old(matches) && selected == old(selected)
    {
      if !isAdmin {
        return;
      }
      payments := payments + [Payment(id, if date.Some? then date.value else now)];
    }

    method DeletePayment(id: Id, confirmed: bool)
      modifies this
      ensures payments == if isAdmin && confirmed then WithoutPayment(old(payments), id) else old(payments)
      ensures players == old(players) && matches == old(matches) && selected == old(selected)
    {
      if !isAdmin {
        return;
      }
      if confirmed {
        payments := WithoutPayment(payments, id);
      }
    }

    /**
      `topScorerConsecutive`: the top scorer's run of matches in which their
      side scored, newest first; 0 without players.
    */
    method TopScorerConsecutive(month: MonthKey) returns (n: nat)
      ensures var top := TopScorer(players, month);
        && (top.None? ==> n == 0)
        && (top.Some? ==>
              var h := ScoredHistory(matches, top.value.id);
              && n <= |h|
              && (forall k :: 0 <= k < n ==> SideGoals(h[k], top.value.id) > 0)
              && (n < |h| ==> SideGoals(h[n], top.value.id) <= 0))
    {
      var top := TopScorer(players, month);
      if top.Some? {
        n := ConsecutiveScoring(matches, top.value.id);
      } else {
        n := 0;
      }
    }
  }
}

/**
  The richer variant's custom teams: a named team is built from a selection
  of roster players, stored in a list owned by the caller, shown with its
  goal totals over the current roster, and deleted after confirmation.
*/
module CustomTeams {
  import opened Domain
  import opened Sorting
  import opened Ledger
  import opened Ranking
  import opened Roster
  import opened TeamDivider

  /** A stored custom team; `createdAt` stands for the ISO timestamp of its creation. */
  datatype Team = Team(id: Id, name: string, players: seq<Id>, createdAt: int)

  /**
    The whitespace `String.prototype.trim` removes, restricted to the
    characters a typed team name plausibly holds.
  */
  predicate IsSpace(c: char) {
    c == ' ' || c == '\t' || c == '\n' || c == '\r' || c == '\U{000B}' || c == '\U{000C}'
    || c == '\U{00A0}' || c == '\U{FEFF}'
  }

  /** The number of whitespace characters that open `s`. */
  function LeadingSpaces(s: string): (n: nat)
    ensures n <= |s|
  {
    if s != [] && IsSpace(s[0]) then 1 + LeadingSpaces(s[1..]) else 0
  }

  /** The number of whitespace characters that close `s`. */
  function TrailingSpaces(s: string): (n: nat)
    ensures n <= |s|
  {
    if s != [] && IsSpace(s[|s| - 1]) then 1 + TrailingSpaces(s[..|s| - 1]) else 0
  }

  /** `name.trim()` */
  function Trim(s: string): string {
    var t := s[LeadingSpaces(s)..];
    t[..|t| - TrailingSpaces(t)]
  }

  lemma {:induction false} LeadingSpacesAreSpaces(s: string)
    ensures var n := LeadingSpaces(s);
      && (forall k :: 0 <= k < n ==> IsSpace(s[k]))
      && (n < |s| ==> !IsSpace(s[n]))
  {
    if s != [] && IsSpace(s[0]) {
      LeadingSpacesAreSpaces(s[1..]);
      assert forall k :: 0 < k <= |s[1..]| ==> s[k] == s[1..][k - 1];
    }
  }

  lemma {:induction false} TrailingSpacesAreSpaces(s: string)
    ensures var n := TrailingSpaces(s);
      && (forall k :: |s| - n <= k < |s| ==> IsSpace(s[k]))
      && (n < |s| ==> !IsSpace(s[|s| - 1 - n]))
  {
    if s != [] && IsSpace(s[|s| - 1]) {
      var t := s[..|s| - 1];
      TrailingSpacesAreSpaces(t);
      assert forall k :: 0 <= k < |t| ==> s[k] == t[k];
    }
  }

  /**
    Trimming keeps a contiguous stretch of the name, removes only whitespace,
    and leaves no whitespace at either end.
  */
  lemma TrimIsTrimmed(s: string)
    ensures var r := Trim(s);
      && (exists i, j ::
            && 0 <= i <= j <= |s| && r == s[i..j]
            && (forall k :: 0 <= k < i ==> IsSpace(s[k]))
            && (forall k :: j <= k < |s| ==> IsSpace(s[k])))
      && (r != [] ==> !IsSpace(r[0]) && !IsSpace(r[|r| - 1]))
  {
    var i := LeadingSpaces(s);
    var t := s[i..];
    var j := i + |t| - TrailingSpaces(t);
    LeadingSpacesAreSpaces(s);
    TrailingSpacesAreSpaces(t);
    assert Trim(s) == s[i..j];
    assert forall k :: j <= k < |s| ==> s[k] == t[k - i];
  }

  /** A name is refused exactly when it is made of whitespace only. */
  lemma TrimEmptyIffBlank(s: string)
    ensures Trim(s) == [] <==> forall k :: 0 <= k < |s| ==> IsSpace(s[k])
  {
    var i := LeadingSpaces(s);
    var t := s[i..];
    LeadingSpacesAreSpaces(s);
    TrailingSpacesAreSpaces(t);
  }

  /** Trimming twice trims nothing more. */
  lemma TrimIdempotent(s: string)
    ensures Trim(Trim(s)) == Trim(s)
  {
    var r := Trim(s);
    TrimIsTrimmed(s);
    if r != [] {
      assert LeadingSpaces(r) == 0;
      assert TrailingSpaces(r) == 0;
    }
  }

  /** `players.filter(p => team.players.includes(p.id))`: the roster players of a team. */
  function InTeam(team: Team): Player -> bool {
    (p: Player) => p.id in team.players
  }

  /** `getTeamStats` */
  datatype TeamTotals = TeamTotals(totalGoals: int, totalAllTime: int, playerCount: nat)

  function GetTeamStats(team: Team, players: seq<Player>, month: MonthKey): TeamTotals {
    var teamPlayers := Filter(players, InTeam(team));
    TeamTotals(Sum(teamPlayers, MonthGoalsIn(month)), Sum(teamPlayers, TotalOf), |teamPlayers|)
  }

  /** No two roster entries share an id. */
  predicate DistinctIds(players: seq<Player>) {
    forall i, j :: 0 <= i < j < |players| ==> players[i].id != players[j].id
  }

  /** With distinct roster ids a team counts at most as many players as it lists ids. */
  lemma TeamCountWithinIds(team: Team, players: seq<Player>, month: MonthKey)
    requires DistinctIds(players)
    ensures GetTeamStats(team, players, month).playerCount <= |team.players|
  {
    CountWithin(players, InTeam(team), set x | x in team.players);
    SetOfSeqBound(team.players);
  }

  /** Kept players with distinct ids drawn from `ids` are at most `|ids|` many. */
  lemma {:induction false} CountWithin(s: seq<Player>, keep: Player -> bool, ids: set<Id>)
    requires DistinctIds(s)
    requires forall p :: p in s && keep(p) ==> p.id in ids
    ensures |Filter(s, keep)| <= |ids|
  {
    if s != [] {
      var t := s[1..];
      assert DistinctIds(t) by {
        forall i, j | 0 <= i < j < |t| ensures t[i].id != t[j].id {
          assert t[i] == s[i + 1] && t[j] == s[j + 1];
        }
      }
      assert forall p :: p in t ==> p in s;
      if keep(s[0]) {
        assert s[0] in s;
        forall p | p in t ensures p.id != s[0].id {
          var k :| 0 <= k < |t| && t[k] == p;
          assert s[k + 1] == p;
        }
        CountWithin(t, keep, ids - {s[0].id});
      } else {
        CountWithin(t, keep, ids);
      }
    }
  }

  lemma {:induction false} SetOfSeqBound(q: seq<Id>)
    ensures |set x | x in q| <= |q|
  {
    if q != [] {
      SetOfSeqBound(q[1..]);
      assert (set x | x in q) == {q[0]} + (set x | x in q[1..]);
    }
  }

  /** The ids of the selected roster players, in roster order. */
  function TeamPlayerIds(players: seq<Player>, selected: set<Id>): seq<Id> {
    IdsOf(SelectionList(players, selected))
  }

  /**
    A team shows, for as long as the roster is unchanged, the totals of the
    players selected when it was made: the selected roster players and none
    other.
  */
  lemma NewTeamTotals(id: Id, name: string, players: seq<Player>, selected: set<Id>, createdAt: int, month: MonthKey)
    ensures var team := Team(id, name, TeamPlayerIds(players, selected), createdAt);
      var chosen := SelectionList(players, selected);
      GetTeamStats(team, players, month)
        == TeamTotals(Sum(chosen, MonthGoalsIn(month)), Sum(chosen, TotalOf), |chosen|)
  {
    var team := Team(id, name, TeamPlayerIds(players, selected), createdAt);
    var chosen := SelectionList(players, selected);
    forall p | p in players ensures InTeam(team)(p) == InSelection(selected)(p) {
      if p.id in selected {
        assert p in chosen;
        var i :| 0 <= i < |chosen| && chosen[i] == p;
        assert team.players[i] == p.id;
      }
      if p.id in team.players {
        var i :| 0 <= i < |team.players| && team.players[i] == p.id;
        assert chosen[i] in chosen;
      }
    }
    FilterSame(players, InTeam(team), InSelection(selected));
  }

  /** With a consistent roster a team's totals are never negative. */
  lemma TeamTotalsNonNegative(team: Team, players: seq<Player>, month: MonthKey)
    requires forall p :: p in players ==> Wellformed(p)
    ensures GetTeamStats(team, players, month).totalGoals >= 0
    ensures GetTeamStats(team, players, month).totalAllTime >= 0
  {
    var teamPlayers := Filter(players, InTeam(team));
    FilterMembers(players, InTeam(team));
    forall p | p in teamPlayers ensures MonthGoals(p, month) >= 0 {
      WellformedStrength(p, month);
    }
    NonNegativeSum(teamPlayers, MonthGoalsIn(month));
    NonNegativeSum(teamPlayers, TotalOf);
  }

  lemma {:induction false} NonNegativeSum<T>(s: seq<T>, f: T -> int)
    requires forall x :: x in s ==> f(x) >= 0
    ensures Sum(s, f) >= 0
  {
    if s != [] {
      assert s[0] in s;
      assert forall x :: x in s[1..] ==> x in s;
      NonNegativeSum(s[1..], f);
    }
  }

  /**
    The custom-team panel: the name being typed, the players ticked, and the
    list of teams it updates.
  */
  class Panel {
    var teamName: string
    var selected: set<Id>
    var customTeams: seq<Team>

    constructor(customTeams: seq<Team>)
      ensures this.teamName == [] && this.selected == {} && this.customTeams == customTeams
    {
      this.teamName := [];
      this.selected := {};
      this.customTeams := customTeams;
    }

    method SetTeamName(name: string)
      modifies this
      ensures teamName == name && selected == old(selected) && customTeams == old(customTeams)
    {
      teamName := name;
    }

    method TogglePlayerSelection(id: Id)
      modifies this
      ensures selected == Toggle(old(selected), id)
      ensures teamName == old(teamName) && customTeams == old(customTeams)
    {
      selected := Toggle(selected, id);
    }

    /**
      `createCustomTeam`: refused (the source alerts) when the trimmed name
      is empty or nothing is ticked; otherwise one team is appended holding
      the ticked roster players' ids in roster order, and the form is reset.
      `id` and `createdAt` stand for the clock readings the source uses.
    */
    method CreateCustomTeam(players: seq<Player>, id: Id, createdAt: int) returns (created: bool)
      modifies this
      ensures created <==> Trim(old(teamName)) != [] && old(selected) != {}
      ensures created ==>
        && customTeams == old(customTeams) + [Team(id, Trim(old(teamName)), TeamPlayerIds(players, old(selected)), createdAt)]
        && teamName == [] && selected == {}
      ensures !created ==>
        teamName == old(teamName) && selected == old(selected) && customTeams == old(customTeams)
    {
      if Trim(teamName) == [] || |selected| == 0 {
        return false;
      }
      var teamPlayers := SelectionList(players, selected);
      var newTeam := Team(id, Trim(teamName), IdsOf(teamPlayers), createdAt);
      customTeams := customTeams + [newTeam];
      teamName := [];
      selected := {};
      created := true;
    }

    /** `deleteCustomTeam`: every team with the id goes, once confirmed. */
    method DeleteCustomTeam(id: Id, confirmed: bool)
      modifies this
      ensures customTeams == if confirmed then Filter(old(customTeams), TeamIdIsNot(id)) else old(customTeams)
      ensures forall t :: t in customTeams <==> t in old(customTeams) && (confirmed ==> t.id != id)
      ensures teamName == old(teamName) && selected == old(selected)
    {
      FilterMembers(customTeams, TeamIdIsNot(id));
      if confirmed {
        customTeams := Filter(customTeams, TeamIdIsNot(id));
      }
    }
  }

  function TeamIdIsNot(id: Id): Team -> bool {
    (t: Team) => t.id != id
  }

  /** Every id a new team holds is a ticked roster player's, and every ticked roster player is in it. */
  lemma TeamPlayerIdsAreTheSelection(players: seq<Player>, selected: set<Id>)
    ensures forall x :: x in TeamPlayerIds(players, selected) <==> x in selected && x in PlayerIds(players)
  {
    forall x ensures x in TeamPlayerIds(players, selected) <==> x in selected && x in PlayerIds(players) {
      if x in TeamPlayerIds(players, selected) {
        HeldIdIsSelected(players, selected, x);
      }
      if x in selected && x in PlayerIds(players) {
        SelectedIdIsHeld(players, selected, x);
      }
    }
  }

  lemma HeldIdIsSelected(players: seq<Player>, selected: set<Id>, x: Id)
    requires x in TeamPlayerIds(players, selected)
    ensures x in selected && x in PlayerIds(players)
  {
    var chosen := SelectionList(players, selected);
    var ids := TeamPlayerIds(players, selected);
    var i :| 0 <= i < |ids| && ids[i] == x;
    assert chosen[i] in chosen;
  }

  lemma SelectedIdIsHeld(players: seq<Player>, selected: set<Id>, x: Id)
    requires x in selected && x in PlayerIds(players)
    ensures x in TeamPlayerIds(players, selected)
  {
    var chosen := SelectionList(players, selected);
    var ids := TeamPlayerIds(players, selected);
    var p :| p in players && p.id == x;
    assert p in chosen;
    var i :| 0 <= i < |chosen| && chosen[i] == p;
    assert ids[i] == x;
  }
}

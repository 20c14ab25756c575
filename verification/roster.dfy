/**
  The list and set operations the handlers of both app variants apply to their
  state: removing a record by id, replacing a match by id, the selection
  toggle and the set of a match's participants.
*/
module Roster {
  import opened Domain
  import opened Sorting

  function PlayerIdIsNot(id: Id): Player -> bool {
    (p: Player) => p.id != id
  }

  function MatchIdIsNot(id: Id): Match -> bool {
    (m: Match) => m.id != id
  }

  function PaymentIdIsNot(id: Id): Payment -> bool {
    (p: Payment) => p.id != id
  }

  /** `players.filter(p => p.id !== id)` */
  function WithoutPlayer(ps: seq<Player>, id: Id): (r: seq<Player>)
    ensures forall p :: p in r <==> p in ps && p.id != id
  {
    FilterMembers(ps, PlayerIdIsNot(id));
    Filter(ps, PlayerIdIsNot(id))
  }

  /** `matches.filter(m => m.id !== id)` */
  function WithoutMatch(ms: seq<Match>, id: Id): (r: seq<Match>)
    ensures forall m :: m in r <==> m in ms && m.id != id
  {
    FilterMembers(ms, MatchIdIsNot(id));
    Filter(ms, MatchIdIsNot(id))
  }

  /** `payments.filter(p => p.id !== id)` */
  function WithoutPayment(ps: seq<Payment>, id: Id): (r: seq<Payment>)
    ensures forall p :: p in r <==> p in ps && p.id != id
  {
    FilterMembers(ps, PaymentIdIsNot(id));
    Filter(ps, PaymentIdIsNot(id))
  }

  /** The update `updatePlayer` maps over the roster: the edited record replaces the stored one. */
  function Becomes(u: Player): Player -> Player {
    _ => u
  }

  /** `matches.map(m => m.id === u.id ? u : m)` */
  function ReplaceMatch(ms: seq<Match>, u: Match): seq<Match> {
    seq(|ms|, i requires 0 <= i < |ms| => if ms[i].id == u.id then u else ms[i])
  }

  /**
    Replacing a match by id keeps the list's length and ids; every match
    carrying the id becomes `u`, every other match stays where it was.
  */
  lemma ReplaceMatchKeepsOthers(ms: seq<Match>, u: Match)
    ensures var r := ReplaceMatch(ms, u);
      && |r| == |ms|
      && (forall i :: 0 <= i < |ms| ==> r[i].id == ms[i].id)
      && (forall m :: m in r && m != u ==> m in ms && m.id != u.id)
  {
    var r := ReplaceMatch(ms, u);
    forall m | m in r && m != u ensures m in ms && m.id != u.id {
      var i :| 0 <= i < |r| && r[i] == m;
    }
  }

  /** The `Set` toggle of `togglePlayerSelection`. */
  function Toggle(s: set<Id>, id: Id): (r: set<Id>)
    ensures id in r <==> id !in s
    ensures forall other :: other != id ==> (other in r <==> other in s)
  {
    if id in s then s - {id} else s + {id}
  }

  /** Toggling the same id twice restores the selection. */
  lemma ToggleTwice(s: set<Id>, id: Id)
    ensures Toggle(Toggle(s, id), id) == s
  {
  }

  /** `new Set(players.map(p => p.id))` */
  function PlayerIds(ps: seq<Player>): (r: set<Id>)
    ensures forall p :: p in ps ==> p.id in r
    ensures forall id :: id in r ==> exists p :: p in ps && p.id == id
  {
    set p | p in ps :: p.id
  }

  /** `[...teamAIds, ...teamBIds]` as the set `includes` tests against. */
  function Participants(teamA: seq<Id>, teamB: seq<Id>): (r: set<Id>)
    ensures forall id :: id in r <==> id in teamA || id in teamB
  {
    set id | id in teamA + teamB
  }
}

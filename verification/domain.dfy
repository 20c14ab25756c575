/**
  The records the league tracker stores: players, matches and payments.

  Dates are integers: a goal's day is a day number, a match or payment date is
  a millisecond timestamp, and a calendar month is a (year, month index) pair.
  Identifiers are the opaque strings the app generates.
*/
module Domain {

  type Id = string

  datatype Option<T> = None | Some(value: T)

  /** A calendar month, the key written `${year}-${monthIndex}`. */
  datatype MonthKey = MonthKey(year: int, month: int)

  /** The key of a match period: the date of the match that opened it, or "start". */
  datatype PeriodKey = Start | At(timestamp: int)

  /** A stored score field: never written (`undefined`), `null`, or a whole number. */
  datatype Score = Absent | Null | Goals(n: int)

  /** `score || 0` */
  function OrZero(s: Score): int {
    if s.Goals? then s.n else 0
  }

  /** `!score`: absent, null and 0 are all falsy. */
  predicate Falsy(s: Score) {
    OrZero(s) == 0
  }

  /** `score !== undefined` */
  predicate Defined(s: Score) {
    !s.Absent?
  }

  /**
    A player. The simpler app variant keeps no match periods: its players have
    an empty `matchPeriodGoals`, no `lastMatchDate` and zero assists and MVPs,
    and it never changes those fields.
  */
  datatype Player = Player(
    id: Id,
    name: string,
    isPermanent: bool,
    totalGoals: int,
    monthlyGoals: map<MonthKey, int>,
    matchPeriodGoals: map<PeriodKey, int>,
    matchesPlayed: int,
    assists: int,
    mvps: int,
    currentStreak: int,
    lastGoalDate: Option<int>,
    lastMatchDate: Option<int>)

  datatype Match = Match(
    id: Id,
    date: int,
    teamA: seq<Id>,
    teamB: seq<Id>,
    teamAGoals: Score,
    teamBGoals: Score)

  /** A payment; its amount is a floating-point number and is not modelled. */
  datatype Payment = Payment(id: Id, date: int)

  /** `m[k] || 0`: a counter lookup where a missing entry reads as 0. */
  function Lookup<K>(m: map<K, int>, k: K): int {
    if k in m then m[k] else 0
  }

  /** `m.teamA.includes(id) || m.teamB.includes(id)` */
  predicate Participates(m: Match, id: Id) {
    id in m.teamA || id in m.teamB
  }

  function Max(a: int, b: int): int {
    if a < b then b else a
  }
}

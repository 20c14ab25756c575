/**
  The richer variant's payment reminder: the next payment falls due 30 days
  after the latest one, and a banner shows from a week before that date on,
  classed as overdue, due soon or upcoming. Times are millisecond timestamps.
*/
module PaymentDue {
  import opened Domain
  import opened Sorting

  /** `1000 * 60 * 60 * 24` */
  const DayMs: int := 86400000

  /** `Math.ceil(ms / DayMs)`; Dafny's `/` rounds down for a positive divisor. */
  function CeilDays(ms: int): int {
    -((-ms) / DayMs)
  }

  /** The ceiling is the least whole number of days reaching `ms`. */
  lemma CeilDaysBounds(ms: int)
    ensures (CeilDays(ms) - 1) * DayMs < ms <= CeilDays(ms) * DayMs
  {
  }

  lemma CeilDaysMonotone(ms: int, ms': int)
    requires ms <= ms'
    ensures CeilDays(ms) <= CeilDays(ms')
  {
    CeilDaysBounds(ms);
    CeilDaysBounds(ms');
  }

  function PaymentRank(p: Payment): Rank {
    Rank(p.date, 0)
  }

  /** `[...payments].sort((a, b) => new Date(b.date) - new Date(a.date))[0].date` */
  function LatestDate(payments: seq<Payment>): int
    requires payments != []
  {
    Sort(payments, Descending(PaymentRank))[0].date
  }

  /** The latest date is the date of some payment and no payment is later. */
  lemma LatestDateIsMaximum(payments: seq<Payment>)
    requires payments != []
    ensures exists p :: p in payments && p.date == LatestDate(payments)
    ensures forall p :: p in payments ==> p.date <= LatestDate(payments)
  {
    var sorted := Sort(payments, Descending(PaymentRank));
    SortMembers(payments, Descending(PaymentRank));
    SortDescending(payments, PaymentRank);
    assert sorted[0] in payments;
    forall p | p in payments ensures p.date <= LatestDate(payments) {
      var j :| 0 <= j < |sorted| && sorted[j] == p;
      if j > 0 {
        assert !Outranks(PaymentRank(sorted[j]), PaymentRank(sorted[0]));
      }
    }
  }

  /** `nextDueDate.setDate(nextDueDate.getDate() + 30)`, without calendar effects. */
  function DueDate(payments: seq<Payment>): int
    requires payments != []
  {
    LatestDate(payments) + 30 * DayMs
  }

  /** `diffDays`: whole days, rounded up, from `now` to the due date. */
  function DaysLeft(payments: seq<Payment>, now: int): int
    requires payments != []
  {
    CeilDays(DueDate(payments) - now)
  }

  /**
    Only the latest payment matters: recording an older payment leaves the
    days left unchanged, and recording any payment never lowers them.
  */
  lemma AddPaymentNeverBringsDueDateCloser(payments: seq<Payment>, q: Payment, now: int)
    requires payments != []
    ensures DaysLeft(payments + [q], now) >= DaysLeft(payments, now)
    ensures q.date <= LatestDate(payments) ==> DaysLeft(payments + [q], now) == DaysLeft(payments, now)
  {
    var more := payments + [q];
    LatestDateIsMaximum(payments);
    LatestDateIsMaximum(more);
    var p :| p in payments && p.date == LatestDate(payments);
    assert p in more;
    var w :| w in more && w.date == LatestDate(more);
    if w != q {
      assert w in payments;
    }
    assert q in more;
    CeilDaysMonotone(DueDate(payments) - now, DueDate(more) - now);
  }

  /** How the banner is styled. */
  datatype Style = Overdue | DueSoon | Upcoming

  /** How the banner is worded. */
  datatype Wording = WasDue(daysAgo: int) | DueToday | DueIn(days: int)

  /** `isOverdue ? 'overdue' : isDueSoon ? 'due-soon' : 'upcoming'` */
  function StyleOf(daysUntilDue: int): Style {
    if daysUntilDue < 0 then Overdue
    else if daysUntilDue <= 3 && daysUntilDue >= 0 then DueSoon
    else Upcoming
  }

  /** The message; an overdue banner reports `Math.abs(daysUntilDue)` days. */
  function WordingOf(daysUntilDue: int): Wording {
    if daysUntilDue < 0 then WasDue(-daysUntilDue)
    else if daysUntilDue == 0 then DueToday
    else DueIn(daysUntilDue)
  }

  /**
    In terms of the clock, for a non-empty payment history: the banner shows
    from seven days before the due date on; it is styled overdue only from a
    whole day after the due date, says "due today" from the due date until a
    day after it, and is styled upcoming only while more than three days are
    left.
  */
  lemma BannerFollowsTheClock(payments: seq<Payment>, now: int)
    requires payments != []
    ensures var due, days := DueDate(payments), DaysLeft(payments, now);
      && (days <= 7 <==> now >= due - 7 * DayMs)
      && (StyleOf(days) == Overdue <==> now >= due + DayMs)
      && (WordingOf(days) == DueToday <==> due <= now < due + DayMs)
      && (StyleOf(days) == Upcoming <==> now < due - 3 * DayMs)
  {
    CeilDaysBounds(DueDate(payments) - now);
  }

  /** The banner's state: whether it shows and the days it reports. */
  class Banner {
    var showBanner: bool
    var daysUntilDue: int

    constructor()
      ensures !showBanner && daysUntilDue == 0
    {
      showBanner, daysUntilDue := false, 0;
    }

    /**
      The effect run when `payments` changes, at clock reading `now`. With no
      payment the banner shows at 0 days; when it hides, the reported days
      are left as they were.
    */
    method Refresh(payments: seq<Payment>, now: int)
      modifies this
      ensures payments == [] ==> showBanner && daysUntilDue == 0
      ensures payments != [] ==>
        && showBanner == (DaysLeft(payments, now) <= 7)
        && daysUntilDue == (if showBanner then DaysLeft(payments, now) else old(daysUntilDue))
    {
      if |payments| == 0 {
        showBanner, daysUntilDue := true, 0;
        return;
      }
      var sortedPayments := Sort(payments, Descending(PaymentRank));
      var lastPayment := sortedPayments[0];
      var nextDueDate := lastPayment.date + 30 * DayMs;
      var diffTime := nextDueDate - now;
      var diffDays := CeilDays(diffTime);
      if diffDays <= 7 {
        showBanner, daysUntilDue := true, diffDays;
      } else {
        showBanner := false;
      }
    }
  }
}

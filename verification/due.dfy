/**
 Due instants and the due-status badge of a task card.

 `new Date(`${date}T${time}`).getTime()` is abstracted to an epoch-millisecond
 count computed from the day number and the minute of the day; the two
 callers in the source fill in a missing time differently, so the fallback
 minute is a parameter.
 */
module Due {
  import opened Types

  const MinuteMillis: int := 60_000

  /** The width of the "Soon" window: one day in milliseconds. */
  const DayMillis: int := 86_400_000

  /** Milliseconds since the epoch at minute `m` of day `day`. */
  function Instant(day: nat, m: Minute): int {
    (day * 1440 + m) * MinuteMillis
  }

  /** The due instant of a dated task, `time` defaulting to `fallback`;
      `None` for a task without a date. */
  function DueInstant(t: Task, fallback: Minute): Option<int> {
    match t.date
    case None => None
    case Some(day) =>
      Some(Instant(day, match t.time case Some(m) => m case None => fallback))
  }

  /** The instant the list order uses: a missing time reads as `00:00`, a
      missing date as +infinity (`None`). */
  function SortInstant(t: Task): Option<int> {
    DueInstant(t, Midnight)
  }

  /** The instant the badge uses: a missing time reads as `23:59`. */
  function BadgeInstant(t: Task): Option<int> {
    DueInstant(t, LastMinute)
  }

  datatype DueStatus = NoBadge | Overdue | Soon

  /** The badge of a card at wall-clock instant `now`: none for an undated or
      completed task, "Overdue" once the due instant has passed, "Soon"
      during the day before it, and none earlier. */
  function GetDueStatus(t: Task, now: int): (r: DueStatus)
    ensures t.date.None? || t.completed ==> r == NoBadge
    ensures r == Overdue <==>
              !t.completed && t.date.Some? && BadgeInstant(t).value < now
    ensures r == Soon <==>
              !t.completed && t.date.Some?
              && now <= BadgeInstant(t).value < now + DayMillis
  {
    match BadgeInstant(t)
    case None => NoBadge
    case Some(due) =>
      var diff := due - now;
      if t.completed then NoBadge
      else if diff < 0 then Overdue
      else if diff < DayMillis then Soon
      else NoBadge
  }

  /** How pressing a badge is: none < Soon < Overdue. */
  function Urgency(d: DueStatus): nat {
    match d
    case NoBadge => 0
    case Soon => 1
    case Overdue => 2
  }

  /** As the clock advances a card's badge only ever becomes more pressing:
      an overdue task stays overdue, a task due soon never goes back to no
      badge. */
  lemma UrgencyMonotone(t: Task, now: int, later: int)
    requires now <= later
    ensures Urgency(GetDueStatus(t, now)) <= Urgency(GetDueStatus(t, later))
  {
  }

  /** The badge and the list order read the same date differently when the
      time is missing: 23:59 against 00:00, 1439 minutes apart. With a time
      both use it. */
  lemma BadgeLaterThanSort(t: Task)
    requires t.date.Some?
    ensures t.time.None? ==>
              BadgeInstant(t).value == SortInstant(t).value + 1439 * MinuteMillis
    ensures t.time.Some? ==> BadgeInstant(t) == SortInstant(t)
  {
  }

  /** Instants of distinct minutes are distinct, and ordered like the
      (day, minute) pairs they come from. */
  lemma InstantOrder(d1: nat, m1: Minute, d2: nat, m2: Minute)
    ensures Instant(d1, m1) < Instant(d2, m2) <==> d1 < d2 || (d1 == d2 && m1 < m2)
  {
    if d1 < d2 {
      assert d1 * 1440 + m1 < d2 * 1440 + m2 by {
        assert d1 * 1440 + 1440 <= d2 * 1440;
      }
    } else if d1 > d2 {
      assert d2 * 1440 + m2 < d1 * 1440 + m1 by {
        assert d2 * 1440 + 1440 <= d1 * 1440;
      }
    }
  }
}

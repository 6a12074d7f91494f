/** The deadline rule engine: an issue date after the 2024-03-01 cutover gets a
    90-day grace period; any other issue date is looked up, by month and day
    alone, in an ordered table of ranges that map to fixed 2024 deadlines. */
module DeadlineRules {
  import opened Results
  import opened Dates

  /** The policy cutover; only issue dates strictly after it get the grace period. */
  const Threshold := Date(2024, 3, 1)
  const GraceDays := 90

  /** A (month, day) pair, compared as a tuple. */
  datatype MonthDay = MonthDay(month: int, day: int)

  predicate NotAfter(a: MonthDay, b: MonthDay)
  {
    a.month < b.month || (a.month == b.month && a.day <= b.day)
  }

  /** A (month, day) that occurs in some year; Feb 29 included. */
  predicate ValidMonthDay(md: MonthDay)
  {
    1 <= md.month <= 12 && 1 <= md.day <= (if md.month == 2 then 29 else DaysInMonth(1, md.month))
  }

  function MonthDayOf(d: Date): MonthDay
  {
    MonthDay(d.month, d.day)
  }

  /** One row of the table: the inclusive range first..last and its deadline. */
  datatype Bucket = Bucket(first: MonthDay, last: MonthDay, deadline: Date)

  predicate Contains(b: Bucket, md: MonthDay)
  {
    NotAfter(b.first, md) && NotAfter(md, b.last)
  }

  /** The ranges in the order the source tests them. Each deadline is the date
      its label ("31 May 2024", ...) names under the pattern `%d %b %Y`. */
  const Table: seq<Bucket> := [
    Bucket(MonthDay(1, 1), MonthDay(2, 29), Date(2024, 5, 31)),
    Bucket(MonthDay(3, 1), MonthDay(4, 30), Date(2024, 6, 30)),
    Bucket(MonthDay(5, 1), MonthDay(5, 31), Date(2024, 7, 31)),
    Bucket(MonthDay(6, 1), MonthDay(6, 30), Date(2024, 8, 31)),
    Bucket(MonthDay(7, 1), MonthDay(7, 31), Date(2024, 9, 30)),
    Bucket(MonthDay(8, 1), MonthDay(9, 30), Date(2024, 10, 31)),
    Bucket(MonthDay(10, 1), MonthDay(11, 30), Date(2024, 11, 30)),
    Bucket(MonthDay(12, 1), MonthDay(12, 31), Date(2024, 12, 31))
  ]

  /** The first bucket whose range holds md, tried in order; None when no range does. */
  function FirstMatch(buckets: seq<Bucket>, md: MonthDay): (r: Option<nat>)
    ensures r.Some? ==> r.value < |buckets| && Contains(buckets[r.value], md)
    ensures r.Some? ==> forall j :: 0 <= j < r.value ==> !Contains(buckets[j], md)
    ensures r.None? <==> forall j :: 0 <= j < |buckets| ==> !Contains(buckets[j], md)
  {
    if buckets == [] then None
    else if Contains(buckets[0], md) then Some(0)
    else
      var rest := FirstMatch(buckets[1..], md);
      if rest.None? then None else Some(rest.value + 1)
  }

  /** `get_deadline_based_on_rules`: the deadline of the first matching range,
      or None (the source's fall-through return). */
  function Lookup(md: MonthDay): (r: Option<Date>)
    ensures r.None? <==> forall i :: 0 <= i < |Table| ==> !Contains(Table[i], md)
    ensures r.Some? ==> exists i :: 0 <= i < |Table| && Contains(Table[i], md) && r.value == Table[i].deadline
                                   && forall j :: 0 <= j < i ==> !Contains(Table[j], md)
  {
    var i := FirstMatch(Table, md);
    if i.None? then None else Some(Table[i.value].deadline)
  }

  /** The range a valid (month, day) belongs to, read off its month. */
  function BucketOf(md: MonthDay): (i: nat)
    requires ValidMonthDay(md)
    ensures i < |Table| && Contains(Table[i], md)
  {
    if md.month <= 2 then 0 else if md.month <= 4 then 1 else if md.month == 5 then 2
    else if md.month == 6 then 3 else if md.month == 7 then 4 else if md.month <= 9 then 5
    else if md.month <= 11 then 6 else 7
  }

  /** Every valid (month, day), Feb 29 included, lies in exactly one range of
      the table, so the fall-through is unreachable. */
  lemma TablePartitions(md: MonthDay)
    requires ValidMonthDay(md)
    ensures exists i :: 0 <= i < |Table| && Contains(Table[i], md)
    ensures forall i :: 0 <= i < |Table| && Contains(Table[i], md) ==> i == BucketOf(md)
  {
    var i := BucketOf(md);
    assert Contains(Table[i], md);
  }

  /** The lookup is total over valid (month, day) and answers with one of the
      eight 2024 deadlines of the table. */
  lemma LookupTotal(md: MonthDay)
    requires ValidMonthDay(md)
    ensures Lookup(md).Some?
    ensures Lookup(md) == Some(Table[BucketOf(md)].deadline)
    ensures ValidDate(Lookup(md).value) && Lookup(md).value.year == 2024
  {
    TablePartitions(md);
  }

  /** Leap day falls in the first range: deadline 31 May 2024. */
  lemma LeapDayBucket()
    ensures Lookup(MonthDay(2, 29)) == Some(Date(2024, 5, 31))
    ensures Lookup(MonthDay(3, 1)) == Some(Date(2024, 6, 30))
  {
    assert Contains(Table[0], MonthDay(2, 29));
    assert !Contains(Table[0], MonthDay(3, 1)) && Contains(Table[1], MonthDay(3, 1));
  }

  /** The table deadlines never decrease as (month, day) increases. */
  lemma LookupMonotone(a: MonthDay, b: MonthDay)
    requires ValidMonthDay(a) && ValidMonthDay(b) && NotAfter(a, b)
    ensures Lookup(a).Some? && Lookup(b).Some? && !Before(Lookup(b).value, Lookup(a).value)
  {
    LookupTotal(a);
    LookupTotal(b);
    var i, j := BucketOf(a), BucketOf(b);
    assert i <= j by { BucketsAscend(a, b); }
    TableAscends(i, j);
  }

  lemma BucketsAscend(a: MonthDay, b: MonthDay)
    requires ValidMonthDay(a) && ValidMonthDay(b) && NotAfter(a, b)
    ensures BucketOf(a) <= BucketOf(b)
  {
  }

  /** Later rows of the table carry later deadlines. */
  lemma TableAscends(i: nat, j: nat)
    requires i <= j < |Table|
    ensures Before(Table[i].deadline, Table[j].deadline) || i == j
  {
  }

  datatype DeadlineError =
    | Overflow   // issue date + 90 days lies after 9999-12-31
    | Unmapped   // no range of the table holds the issue date's (month, day)

  /** The statutory deadline for an issue date: strictly after the cutover,
      the date 90 days on (an error past 9999-12-31); on or before it, the
      2024 deadline of the range holding the issue date's (month, day). */
  function Deadline(issue: Date): (r: Result<Date, DeadlineError>)
    requires ValidDate(issue)
    ensures r.Ok? ==> ValidDate(r.value) && Before(issue, r.value)
    ensures Before(Threshold, issue) ==>
      (r.Ok? <==> Ordinal(issue) + GraceDays <= Ordinal(LastDate))
      && (r.Ok? ==> Ordinal(r.value) == Ordinal(issue) + GraceDays)
    ensures !Before(Threshold, issue) ==> r == Ok(Table[BucketOf(MonthDayOf(issue))].deadline)
  {
    if Before(Threshold, issue) then
      var later := AddDays(issue, GraceDays);
      if later.Some? then
        AddDaysIsLater(issue, GraceDays);
        Ok(later.value)
      else Err(Overflow)
    else
      var md := MonthDayOf(issue);
      LookupTotal(md);
      var fixed := Lookup(md);
      if fixed.Some? then Ok(fixed.value)
      else assert false; Err(Unmapped)
  }

  /** Two issue dates on or before the cutover with the same month and day get the same deadline. */
  lemma DeadlineIgnoresYear(d1: Date, d2: Date)
    requires ValidDate(d1) && ValidDate(d2) && !Before(Threshold, d1) && !Before(Threshold, d2)
    requires d1.month == d2.month && d1.day == d2.day
    ensures Deadline(d1) == Deadline(d2)
  {
  }

  /** The only failure is overflow at the very end of the calendar: the table
      never leaves a valid issue date unmapped. */
  lemma DeadlineFailsOnlyByOverflow(issue: Date)
    requires ValidDate(issue)
    ensures Deadline(issue).Err? <==> Before(Threshold, issue) && Ordinal(issue) + GraceDays > Ordinal(LastDate)
    ensures Deadline(issue).Err? ==> Deadline(issue).error == Overflow
  {
  }

  /** Past due: the deadline lies strictly before today, that is, its day
      number is smaller; a deadline falling on today is not past due. */
  function PastDue(deadline: Date, today: Date): (r: bool)
    ensures ValidDate(deadline) && ValidDate(today) ==> (r <==> Ordinal(deadline) < Ordinal(today))
    ensures deadline == today ==> !r
  {
    if ValidDate(deadline) && ValidDate(today) then
      OrdinalOrder(deadline, today);
      Before(deadline, today)
    else
      Before(deadline, today)
  }

  /** The grace period crosses month and year ends. */
  lemma GracePeriodExamples()
    ensures Deadline(Date(2024, 4, 15)) == Ok(Date(2024, 7, 14))
    ensures Deadline(Date(2024, 11, 15)) == Ok(Date(2025, 2, 13))
    ensures Deadline(Date(9999, 12, 1)) == Err(Overflow)
  {
    assert AddDays(Date(2024, 4, 15), 90) == Some(Date(2024, 7, 14));
    assert AddDays(Date(2024, 11, 15), 90) == Some(Date(2025, 2, 13));
    assert AddDays(Date(9999, 12, 1), 90) == None;
  }

  /** Issue dates up to the cutover use the table, leap day included. */
  lemma TableExamples()
    ensures Deadline(Date(2024, 1, 15)) == Ok(Date(2024, 5, 31))
    ensures Deadline(Date(2024, 2, 29)) == Ok(Date(2024, 5, 31))
    ensures Deadline(Date(2024, 3, 1)) == Ok(Date(2024, 6, 30))
    ensures Deadline(Date(2023, 12, 15)) == Ok(Date(2024, 12, 31))
  {
    assert Deadline(Date(2024, 1, 15)) == Ok(Table[0].deadline);
    assert Deadline(Date(2024, 2, 29)) == Ok(Table[0].deadline);
    assert Deadline(Date(2024, 3, 1)) == Ok(Table[1].deadline);
    assert Deadline(Date(2023, 12, 15)) == Ok(Table[7].deadline);
  }

  /** Because the cutover comparison is strict, a later issue date can get an
      earlier deadline: 2024-03-01 gives 2024-06-30, 2024-03-02 gives 2024-05-31. */
  lemma DeadlineNotMonotone()
    ensures var early, late := Date(2024, 3, 1), Date(2024, 3, 2);
            && Before(early, late)
            && Deadline(early) == Ok(Date(2024, 6, 30))
            && Deadline(late) == Ok(Date(2024, 5, 31))
            && Before(Deadline(late).value, Deadline(early).value)
  {
    LeapDayBucket();
  }
}

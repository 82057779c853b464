/**
 * Pure helpers of the front end: the relative time stamps ("3 days ago"), the
 * badge tally, the shortened id and the prefix guard.
 *
 * The current clock is a parameter: `TimeStamp` takes the elapsed milliseconds.
 * The `BADGE_CRITERIA` table of thresholds is not part of this model; it is the
 * `levels` parameter, one threshold per badge level for each criterion type.
 */
module Utils {
  import opened Seqs

  // ---------------------------------------------------------------------------
  // getTimeStamps
  // ---------------------------------------------------------------------------

  datatype Unit = Year | Month | Week | Day | Hour | Minute | Second

  function UnitName(u: Unit): string {
    match u
    case Year => "year"
    case Month => "month"
    case Week => "week"
    case Day => "day"
    case Hour => "hour"
    case Minute => "minute"
    case Second => "second"
  }

  /** The milliseconds one unit stands for (a month is 30 days, a year 365). */
  function UnitMillis(u: Unit): int {
    match u
    case Year => 31536000000
    case Month => 2592000000
    case Week => 604800000
    case Day => 86400000
    case Hour => 3600000
    case Minute => 60000
    case Second => 1000
  }

  /** The seven counters, each by `Math.floor` of a division by a positive constant. */
  datatype Spans = Spans(years: int, months: int, weeks: int, days: int, hours: int, minutes: int, seconds: int)

  /** Dafny's `/` by a positive divisor rounds down, as `Math.floor` of the quotient does. */
  function SpansOf(elapsed: int): Spans {
    var seconds := elapsed / 1000;
    var minutes := seconds / 60;
    var hours := minutes / 60;
    var days := hours / 24;
    Spans(days / 365, days / 30, days / 7, days, hours, minutes, seconds)
  }

  function Amount(s: Spans, u: Unit): int {
    match u
    case Year => s.years
    case Month => s.months
    case Week => s.weeks
    case Day => s.days
    case Hour => s.hours
    case Minute => s.minutes
    case Second => s.seconds
  }

  /** The order in which the branches test the units: the larger, the earlier. */
  function Rank(u: Unit): nat {
    match u
    case Year => 6
    case Month => 5
    case Week => 4
    case Day => 3
    case Hour => 2
    case Minute => 1
    case Second => 0
  }

  /** The first unit in years, months, weeks, days, hours, minutes whose count is positive; seconds otherwise. */
  function Largest(s: Spans): Unit {
    if s.years > 0 then Year
    else if s.months > 0 then Month
    else if s.weeks > 0 then Week
    else if s.days > 0 then Day
    else if s.hours > 0 then Hour
    else if s.minutes > 0 then Minute
    else Second
  }

  /** Decimal digits of a natural number, as template interpolation writes it. */
  function Decimal(n: nat): (r: string)
    ensures |r| > 0
    ensures forall i :: 0 <= i < |r| ==> '0' <= r[i] <= '9'
  {
    if n < 10 then [('0' as int + n) as char]
    else Decimal(n / 10) + [('0' as int + n % 10) as char]
  }

  /** Reads decimal digits back. */
  function DecimalValue(s: string): int {
    if |s| == 0 then 0 else 10 * DecimalValue(s[..|s| - 1]) + (s[|s| - 1] as int - '0' as int)
  }

  lemma {:induction false} DecimalRoundTrip(n: nat)
    ensures DecimalValue(Decimal(n)) == n
  {
    if n >= 10 {
      DecimalRoundTrip(n / 10);
      var d := Decimal(n / 10) + [('0' as int + n % 10) as char];
      assert d[..|d| - 1] == Decimal(n / 10);
    }
  }

  function Phrase(n: int, u: Unit): string {
    (if n >= 0 then Decimal(n) else "-" + Decimal(-n)) + " " + UnitName(u) + (if n > 1 then "s" else "") + " ago"
  }

  /** `getTimeStamps` for a post `elapsed` milliseconds old. */
  function TimeStamp(elapsed: int): (r: string)
    ensures elapsed < 60000 ==> r == "Just Now"
    ensures elapsed >= 60000 ==> |r| > 4 && '0' <= r[0] <= '9' && r[|r| - 4..] == " ago"
  {
    if elapsed < 60000 then "Just Now"
    else
      var u := Largest(SpansOf(elapsed));
      var n := Amount(SpansOf(elapsed), u);
      assert n >= 0 && Phrase(n, u)[0] == Decimal(n)[0];
      Phrase(n, u)
  }

  /** "Just Now" exactly for less than a minute, including a creation time in the future. */
  lemma JustNowUnderAMinute(elapsed: int)
    ensures TimeStamp(elapsed) == "Just Now" <==> elapsed < 60000
  {
    if elapsed >= 60000 {
      var t := TimeStamp(elapsed);
      assert t[|t| - 1] == 'o';
      assert "Just Now"[7] == 'w';
    }
  }

  /**
   * From a minute on, the phrase names the largest unit with a positive count,
   * every larger unit counts zero, and the seconds branch is never taken.
   */
  lemma LargestUnitWins(elapsed: int)
    requires elapsed >= 60000
    ensures var s := SpansOf(elapsed);
            var u := Largest(s);
            && u != Second
            && Amount(s, u) > 0
            && (forall v :: Rank(v) > Rank(u) ==> Amount(s, v) == 0)
  {
    var s := SpansOf(elapsed);
    assert s.minutes >= 1;
    assert s.years >= 0 && s.months >= 0 && s.weeks >= 0 && s.days >= 0 && s.hours >= 0;
  }

  /** The count a phrase shows is the elapsed time divided by the unit's length, rounded down. */
  lemma CountIsWholeUnits(elapsed: int, u: Unit)
    requires elapsed >= 0
    ensures Amount(SpansOf(elapsed), u) == elapsed / UnitMillis(u)
  {
  }

  /** The phrase ends in "s ago" exactly when the count is above one. */
  lemma PluralAboveOne(elapsed: int)
    requires elapsed >= 60000
    ensures var t := TimeStamp(elapsed);
            var s := SpansOf(elapsed);
            |t| > 5 && (t[|t| - 5] == 's' <==> Amount(s, Largest(s)) > 1)
  {
    var s := SpansOf(elapsed);
    var u := Largest(s);
    var n := Amount(s, u);
    LargestUnitWins(elapsed);
    var name := UnitName(u);
    assert name[|name| - 1] != 's';
    var t := TimeStamp(elapsed);
    if n > 1 {
      assert t == Decimal(n) + " " + name + "s" + " ago";
    } else {
      assert t == Decimal(n) + " " + name + "" + " ago";
    }
  }

  // ---------------------------------------------------------------------------
  // assignBadges
  // ---------------------------------------------------------------------------

  datatype Criterion = Criterion(kind: string, count: int)

  /** The thresholds of one criterion type. */
  datatype Levels = Levels(gold: int, silver: int, bronze: int)

  datatype BadgeCounts = BadgeCounts(gold: int, silver: int, bronze: int)

  /** The badges one criterion earns: one for each level whose threshold its count reaches. */
  function Earned(count: int, l: Levels): BadgeCounts {
    BadgeCounts(if count >= l.gold then 1 else 0,
                if count >= l.silver then 1 else 0,
                if count >= l.bronze then 1 else 0)
  }

  function Plus(a: BadgeCounts, b: BadgeCounts): BadgeCounts {
    BadgeCounts(a.gold + b.gold, a.silver + b.silver, a.bronze + b.bronze)
  }

  /** The tally after the criteria, in order. Each level earns at most one per criterion. */
  function Tally(criteria: seq<Criterion>, levels: string -> Levels): (b: BadgeCounts)
    ensures 0 <= b.gold <= |criteria| && 0 <= b.silver <= |criteria| && 0 <= b.bronze <= |criteria|
  {
    if |criteria| == 0 then BadgeCounts(0, 0, 0)
    else Plus(Tally(criteria[..|criteria| - 1], levels), Earned(criteria[|criteria| - 1].count, levels(criteria[|criteria| - 1].kind)))
  }

  lemma TallyStep(criteria: seq<Criterion>, levels: string -> Levels, i: int)
    requires 0 <= i < |criteria|
    ensures Tally(criteria[..i + 1], levels) == Plus(Tally(criteria[..i], levels), Earned(criteria[i].count, levels(criteria[i].kind)))
  {
    assert criteria[..i + 1][..i] == criteria[..i];
  }

  /** The inner `forEach` over the levels of one criterion: each level reached earns one badge. */
  method Award(b: BadgeCounts, count: int, thresholds: Levels) returns (r: BadgeCounts)
    ensures r == Plus(b, Earned(count, thresholds))
  {
    r := b;
    if count >= thresholds.gold {
      r := r.(gold := r.gold + 1);
    }
    if count >= thresholds.silver {
      r := r.(silver := r.silver + 1);
    }
    if count >= thresholds.bronze {
      r := r.(bronze := r.bronze + 1);
    }
  }

  /** `assignBadges`: one pass over the criteria, one test per level. */
  method AssignBadges(criteria: seq<Criterion>, levels: string -> Levels) returns (b: BadgeCounts)
    ensures b == Tally(criteria, levels)
  {
    b := BadgeCounts(0, 0, 0);
    var i := 0;
    while i < |criteria|
      invariant 0 <= i <= |criteria|
      invariant b == Tally(criteria[..i], levels)
    {
      TallyStep(criteria, levels, i);
      b := Award(b, criteria[i].count, levels(criteria[i].kind));
      i := i + 1;
    }
    assert criteria[..i] == criteria;
  }

  /** Each level counts exactly the criteria that reach its threshold. */
  lemma {:induction false} TallyCountsReached(criteria: seq<Criterion>, levels: string -> Levels)
    ensures Tally(criteria, levels).gold == |Filter(criteria, (c: Criterion) => c.count >= levels(c.kind).gold)|
    ensures Tally(criteria, levels).silver == |Filter(criteria, (c: Criterion) => c.count >= levels(c.kind).silver)|
    ensures Tally(criteria, levels).bronze == |Filter(criteria, (c: Criterion) => c.count >= levels(c.kind).bronze)|
  {
    if |criteria| > 0 {
      var front, last := criteria[..|criteria| - 1], criteria[|criteria| - 1];
      TallyCountsReached(front, levels);
      assert criteria == front + [last];
      FilterConcat(front, [last], (c: Criterion) => c.count >= levels(c.kind).gold);
      FilterConcat(front, [last], (c: Criterion) => c.count >= levels(c.kind).silver);
      FilterConcat(front, [last], (c: Criterion) => c.count >= levels(c.kind).bronze);
    }
  }

  predicate AtLeast(a: BadgeCounts, b: BadgeCounts) {
    a.gold >= b.gold && a.silver >= b.silver && a.bronze >= b.bronze
  }

  /** Raising one criterion's count never lowers a badge count. */
  lemma {:induction false} TallyMonotone(criteria: seq<Criterion>, levels: string -> Levels, i: int, count: int)
    requires 0 <= i < |criteria| && count >= criteria[i].count
    ensures AtLeast(Tally(criteria[i := criteria[i].(count := count)], levels), Tally(criteria, levels))
  {
    var raised := criteria[i := criteria[i].(count := count)];
    var n := |criteria|;
    if i == n - 1 {
      assert raised[..n - 1] == criteria[..n - 1];
    } else {
      TallyMonotone(criteria[..n - 1], levels, i, count);
      assert raised[..n - 1] == criteria[..n - 1][i := criteria[i].(count := count)];
    }
  }

  // ---------------------------------------------------------------------------
  // formatId, ensureStartsWith
  // ---------------------------------------------------------------------------

  /** `formatId`: ".." and the last six characters (all of them when there are fewer). */
  function FormatId(id: string): (r: string)
    ensures |r| == 2 + (if |id| < 6 then |id| else 6)
    ensures r[..2] == ".."
    ensures id == id[..|id| - (|r| - 2)] + r[2..]
  {
    // `substring` treats a negative start as 0
    var start := if |id| - 6 < 0 then 0 else |id| - 6;
    ".." + id[start..]
  }

  /** `ensureStartsWith`. */
  function EnsureStartsWith(s: string, prefix: string): (r: string)
    ensures prefix <= r
    ensures prefix <= s ==> r == s
    ensures !(prefix <= s) ==> r[|prefix|..] == s
  {
    if prefix <= s then s else prefix + s
  }

  /** A second application changes nothing. */
  lemma EnsureStartsWithIdempotent(s: string, prefix: string)
    ensures EnsureStartsWith(EnsureStartsWith(s, prefix), prefix) == EnsureStartsWith(s, prefix)
  {
  }
}

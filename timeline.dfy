/**
 * The submission window (server/models/timelime.model.js and
 * server/controllers/timeline.controller.js): at most one timeline with a
 * start and an end date, both `YYYY-MM-DD` strings, the end strictly after
 * the start, and the inclusive check of today's date against it.
 *
 * Dates that pass the pattern are compared as (year, month, day) triples in
 * lexicographic order; today's date is a parameter.
 */
module Timeline {
  import opened Common

  datatype Day = Day(year: nat, month: nat, day: nat)

  /** The stored timeline: the two strings exactly as the request gave them. */
  datatype Window = Window(startDate: string, endDate: string)

  /**
   * `^\d{4}-(0[1-9]|1[0-2])-(0[1-9]|[12]\d|3[01])$`: four digits, '-', a
   * month 01 to 12, '-', a day 01 to 31 whatever the month.
   */
  predicate DateMatches(s: string) {
    && |s| == 10
    && IsDigit(s[0]) && IsDigit(s[1]) && IsDigit(s[2]) && IsDigit(s[3])
    && s[4] == '-'
    && ((s[5] == '0' && '1' <= s[6] <= '9') || (s[5] == '1' && '0' <= s[6] <= '2'))
    && s[7] == '-'
    && ((s[8] == '0' && '1' <= s[9] <= '9') || ((s[8] == '1' || s[8] == '2') && IsDigit(s[9]))
        || (s[8] == '3' && (s[9] == '0' || s[9] == '1')))
  }

  function DigitValue(c: char): (n: nat)
    requires IsDigit(c)
    ensures n < 10
  {
    c as int - '0' as int
  }

  function DigitChar(n: nat): (c: char)
    requires n < 10
    ensures IsDigit(c) && DigitValue(c) == n
  {
    ('0' as int + n) as char
  }

  /** The triple a matching date string denotes. */
  function Parse(s: string): (d: Day)
    requires DateMatches(s)
    ensures d.year <= 9999 && 1 <= d.month <= 12 && 1 <= d.day <= 31
  {
    Day(DigitValue(s[0]) * 1000 + DigitValue(s[1]) * 100 + DigitValue(s[2]) * 10 + DigitValue(s[3]),
        DigitValue(s[5]) * 10 + DigitValue(s[6]),
        DigitValue(s[8]) * 10 + DigitValue(s[9]))
  }

  /** The `YYYY-MM-DD` spelling of a triple the pattern can express. */
  function Format(d: Day): (s: string)
    requires d.year <= 9999 && 1 <= d.month <= 12 && 1 <= d.day <= 31
    ensures |s| == 10
  {
    var y := d.year;
    [DigitChar(y / 10 / 10 / 10), DigitChar(y / 10 / 10 % 10), DigitChar(y / 10 % 10), DigitChar(y % 10),
     '-', DigitChar(d.month / 10), DigitChar(d.month % 10),
     '-', DigitChar(d.day / 10), DigitChar(d.day % 10)]
  }

  /** A number is its last decimal digit plus ten times the rest. */
  lemma SplitTen(n: nat)
    ensures n == n / 10 * 10 + n % 10 && n % 10 < 10
  {
  }

  /** Appending a digit and dropping it again gives back the number and the digit. */
  lemma DivTen(q: nat, e: nat)
    requires e < 10
    ensures (q * 10 + e) / 10 == q && (q * 10 + e) % 10 == e
  {
  }

  /** Every triple with a four-digit year, a month 1 to 12 and a day 1 to 31 is spelled in a matching string that parses back to it. */
  lemma FormatParses(d: Day)
    requires d.year <= 9999 && 1 <= d.month <= 12 && 1 <= d.day <= 31
    ensures DateMatches(Format(d)) && Parse(Format(d)) == d
  {
    var y := d.year;
    SplitTen(y);
    SplitTen(y / 10);
    SplitTen(y / 10 / 10);
    SplitTen(d.month);
    SplitTen(d.day);
    var s := Format(d);
    assert DigitValue(s[0]) * 1000 + DigitValue(s[1]) * 100 + DigitValue(s[2]) * 10 + DigitValue(s[3]) == y;
    assert DigitValue(s[5]) * 10 + DigitValue(s[6]) == d.month;
    assert DigitValue(s[8]) * 10 + DigitValue(s[9]) == d.day;
  }

  /** A matching string is the spelling of the triple it parses to. */
  lemma ParseFormats(s: string)
    requires DateMatches(s)
    ensures Format(Parse(s)) == s
  {
    var d := Parse(s);
    var y := d.year;
    var a, b, c, e := DigitValue(s[0]), DigitValue(s[1]), DigitValue(s[2]), DigitValue(s[3]);
    assert y == (a * 100 + b * 10 + c) * 10 + e;
    DivTen(a * 100 + b * 10 + c, e);
    DivTen(a * 10 + b, c);
    DivTen(a, b);
    DivTen(DigitValue(s[5]), DigitValue(s[6]));
    DivTen(DigitValue(s[8]), DigitValue(s[9]));
    var f := Format(d);
    assert f[0] == s[0] && f[1] == s[1] && f[2] == s[2] && f[3] == s[3];
    assert f[5] == s[5] && f[6] == s[6] && f[8] == s[8] && f[9] == s[9];
  }

  /** The day "2024-02-31" has no calendar date, yet the pattern admits it. */
  lemma DayThirtyOneInEveryMonth()
    ensures DateMatches("2024-02-31") && DateMatches("2024-04-31")
    ensures Parse("2024-02-31") == Day(2024, 2, 31)
  {
  }

  /** The separator is '-': a slash-separated date is refused. */
  lemma SlashesRefused(s: string)
    requires |s| == 10 && (s[4] == '/' || s[7] == '/')
    ensures !DateMatches(s)
  {
  }

  /** Strict chronological order on triples. */
  predicate Before(a: Day, b: Day) {
    a.year < b.year
    || (a.year == b.year && (a.month < b.month || (a.month == b.month && a.day < b.day)))
  }

  /** `Before` is a strict total order: irreflexive, transitive and total. */
  lemma BeforeIsStrictTotal(a: Day, b: Day, c: Day)
    ensures !Before(a, a)
    ensures Before(a, b) && Before(b, c) ==> Before(a, c)
    ensures a == b || Before(a, b) || Before(b, a)
  {
  }

  /** The schema's validators on a stored timeline: both dates required and matching. */
  predicate WindowValid(w: Window) {
    w.startDate != "" && DateMatches(w.startDate) && w.endDate != "" && DateMatches(w.endDate)
  }

  /** The one timeline the application keeps (`Timeline.findOne()` with no filter). */
  class TimelineStore {
    var current: Option<Window>

    predicate Valid()
      reads this
    {
      current.Some? ==> WindowValid(current.value) && Before(Parse(current.value.startDate), Parse(current.value.endDate))
    }

    constructor ()
      ensures Valid() && current == None
    {
      current := None;
    }

    /**
     * `createTimeline`: both dates present, both matching, the end strictly
     * after the start; then the one timeline is created or overwritten.
     */
    method Create(startDate: Field, endDate: Field) returns (r: Outcome<Window>)
      requires Valid()
      modifies this
      ensures Valid()
      ensures r.Fail? ==> current == old(current) && r.kind == ValidationError
      ensures !Truthy(startDate) || !Truthy(endDate) <==> r == Fail(ValidationError, "Please fill all the fields")
      ensures Truthy(startDate) && Truthy(endDate) ==>
        (!DateMatches(startDate.value) || !DateMatches(endDate.value) <==> r == Fail(ValidationError, "Dates must be in YYYY-MM-DD format"))
      ensures Truthy(startDate) && Truthy(endDate) && DateMatches(startDate.value) && DateMatches(endDate.value) ==>
        (!Before(Parse(startDate.value), Parse(endDate.value)) <==> r == Fail(ValidationError, "end date must be after start date"))
      ensures r.Ok? <==> Truthy(startDate) && Truthy(endDate) && DateMatches(startDate.value) && DateMatches(endDate.value)
                         && Before(Parse(startDate.value), Parse(endDate.value))
      ensures r.Ok? ==> r.value == Window(startDate.value, endDate.value) && current == Some(r.value)
    {
      if !Truthy(startDate) || !Truthy(endDate) {
        return Fail(ValidationError, "Please fill all the fields");
      }
      if !DateMatches(startDate.value) || !DateMatches(endDate.value) {
        return Fail(ValidationError, "Dates must be in YYYY-MM-DD format");
      }
      if !Before(Parse(startDate.value), Parse(endDate.value)) {
        return Fail(ValidationError, "end date must be after start date");
      }
      var w := Window(startDate.value, endDate.value);
      current := Some(w);
      return Ok(w);
    }

    /** `getTimeline`: the timeline, or "no content" when there is none. */
    method Get() returns (r: Outcome<Window>)
      ensures current.None? <==> r == Fail(NoContent, "Timeline not found")
      ensures current.Some? ==> r == Ok(current.value)
    {
      if current.None? {
        return Fail(NoContent, "Timeline not found");
      }
      return Ok(current.value);
    }

    /**
     * `checkDateInTimeline`: today is in the window exactly when it is
     * neither before the start nor after the end, both ends included.
     */
    method CheckDate(today: Day) returns (r: Outcome<string>)
      requires current.Some? ==> WindowValid(current.value)
      ensures current.None? <==> r == Fail(NoContent, "Timeline not found")
      ensures r.Ok? <==>
        (current.Some? && !Before(today, Parse(current.value.startDate)) && !Before(Parse(current.value.endDate), today))
      ensures r.Ok? ==> r.value == "Date is in timeline"
      ensures current.Some? && Before(today, Parse(current.value.startDate)) ==>
        r == Fail(ValidationError, "Date is before timeline start date")
      ensures current.Some? && !Before(today, Parse(current.value.startDate)) && Before(Parse(current.value.endDate), today) ==>
        r == Fail(ValidationError, "Date is after timeline end date")
    {
      if current.None? {
        return Fail(NoContent, "Timeline not found");
      }
      var w := current.value;
      if Before(today, Parse(w.startDate)) {
        return Fail(ValidationError, "Date is before timeline start date");
      }
      if Before(Parse(w.endDate), today) {
        return Fail(ValidationError, "Date is after timeline end date");
      }
      return Ok("Date is in timeline");
    }
  }

  /**
   * A stored window whose end precedes its start, which `createTimeline`
   * never writes but a record inserted by another route could be, refuses
   * every day.
   */
  method ReversedWindowRefusesEveryDay(store: TimelineStore, today: Day) returns (r: Outcome<string>)
    requires store.current.Some? && WindowValid(store.current.value)
    requires Before(Parse(store.current.value.endDate), Parse(store.current.value.startDate))
    ensures r.Fail? && r.kind == ValidationError
  {
    var w := store.current.value;
    BeforeIsStrictTotal(Parse(w.endDate), Parse(w.startDate), today);
    BeforeIsStrictTotal(today, Parse(w.endDate), Parse(w.startDate));
    r := store.CheckDate(today);
  }

  /** The start and the end day of a stored window are themselves in the window. */
  method BothEndsInWindow(store: TimelineStore) returns (atStart: Outcome<string>, atEnd: Outcome<string>)
    requires store.Valid() && store.current.Some?
    ensures atStart.Ok? && atEnd.Ok?
  {
    var w := store.current.value;
    atStart := store.CheckDate(Parse(w.startDate));
    atEnd := store.CheckDate(Parse(w.endDate));
  }
}

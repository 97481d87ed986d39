/**
 * Account registration dates and their order (src/reg_date.rs).
 * The order is the one `partial_cmp` spells out: year, then month, then day.
 */
module RegDates {
  import opened Options

  type u8 = x: nat | x < 0x100
  type u16 = x: nat | x < 0x1_0000

  datatype Ordering = Less | Equal | Greater

  datatype RegDate = RegDate(year: u16, month: u8, day: u8)

  function New(year: u16, month: u8, day: u8): (d: RegDate)
    ensures d.year == year && d.month == month && d.day == day
  {
    RegDate(year, month, day)
  }

  /** The fallback date, 1 October 2020. */
  function Default(): (d: RegDate)
    ensures d.year == 2020 && d.month == 10 && d.day == 1
  {
    RegDate(2020, 10, 1)
  }

  /** `PartialEq`: field-wise equality, which is exactly equality of the values. */
  function Eq(a: RegDate, b: RegDate): (r: bool)
    ensures r <==> a == b
  {
    a.year == b.year && a.month == b.month && a.day == b.day
  }

  /** `PartialOrd`: never `None`, and `Equal` exactly for equal dates. */
  function PartialCmp(a: RegDate, b: RegDate): (r: Option<Ordering>)
    ensures r.Some?
    ensures r == Some(Equal) <==> Eq(a, b)
  {
    if a.year > b.year then Some(Greater)
    else if a.year < b.year then Some(Less)
    else if a.month > b.month then Some(Greater)
    else if a.month < b.month then Some(Less)
    else if a.day > b.day then Some(Greater)
    else if a.day < b.day then Some(Less)
    else Some(Equal)
  }

  /** An independent reference order: the date packed into one number. */
  function Key(d: RegDate): nat {
    d.year * 0x1_0000 + d.month * 0x100 + d.day
  }

  function CompareInts(x: int, y: int): Ordering {
    if x < y then Less else if x > y then Greater else Equal
  }

  /** The later year wins whatever the month and day; then the month; then the day. */
  lemma Lexicographic(a: RegDate, b: RegDate)
    ensures a.year > b.year ==> PartialCmp(a, b) == Some(Greater)
    ensures a.year < b.year ==> PartialCmp(a, b) == Some(Less)
    ensures a.year == b.year && a.month > b.month ==> PartialCmp(a, b) == Some(Greater)
    ensures a.year == b.year && a.month < b.month ==> PartialCmp(a, b) == Some(Less)
    ensures a.year == b.year && a.month == b.month && a.day > b.day ==> PartialCmp(a, b) == Some(Greater)
    ensures a.year == b.year && a.month == b.month && a.day < b.day ==> PartialCmp(a, b) == Some(Less)
  {
  }

  /** `partial_cmp` orders dates as their packed numbers are ordered. */
  lemma PartialCmpMatchesKey(a: RegDate, b: RegDate)
    ensures PartialCmp(a, b) == Some(CompareInts(Key(a), Key(b)))
  {
    var low := 0x100 * 0xFF + 0xFF;
    assert a.month * 0x100 + a.day <= low && b.month * 0x100 + b.day <= low;
    if a.year == b.year && a.month != b.month {
      assert a.month < b.month ==> a.month * 0x100 + a.day < b.month * 0x100 + b.day;
      assert a.month > b.month ==> a.month * 0x100 + a.day > b.month * 0x100 + b.day;
    }
  }

  /** `Greater` one way is `Less` the other way. */
  lemma Antisymmetric(a: RegDate, b: RegDate)
    ensures PartialCmp(a, b) == Some(Greater) <==> PartialCmp(b, a) == Some(Less)
  {
    PartialCmpMatchesKey(a, b);
    PartialCmpMatchesKey(b, a);
  }

  lemma Transitive(a: RegDate, b: RegDate, c: RegDate, o: Ordering)
    requires PartialCmp(a, b) == Some(o) && PartialCmp(b, c) == Some(o)
    ensures PartialCmp(a, c) == Some(o)
  {
    PartialCmpMatchesKey(a, b);
    PartialCmpMatchesKey(b, c);
    PartialCmpMatchesKey(a, c);
  }
}

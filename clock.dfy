/**
 * Python's naive `datetime.date` and `datetime.datetime`, their `isoformat()` spelling, and
 * the fact the store's string comparisons rely on: ISO strings sort as the instants they name.
 */
module Clock {
  import opened Text

  datatype Date = Date(year: int, month: int, day: int)

  datatype DateTime = DateTime(date: Date, hour: int, minute: int, second: int, micro: int)

  predicate IsLeapYear(y: int)
  {
    y % 4 == 0 && (y % 100 != 0 || y % 400 == 0)
  }

  function DaysInMonth(y: int, m: int): int
    requires 1 <= m <= 12
  {
    if m == 2 then (if IsLeapYear(y) then 29 else 28)
    else if m == 4 || m == 6 || m == 9 || m == 11 then 30
    else 31
  }

  /** A calendar day `datetime.date` accepts: years 1 through 9999. */
  type Day = d: Date | 1 <= d.year <= 9999 && 1 <= d.month <= 12 && 1 <= d.day <= DaysInMonth(d.year, d.month)
    witness Date(1, 1, 1)

  /** An instant `datetime.datetime` accepts, to the microsecond. */
  type Instant = t: DateTime
    | && 1 <= t.date.year <= 9999 && 1 <= t.date.month <= 12
      && 1 <= t.date.day <= DaysInMonth(t.date.year, t.date.month)
      && 0 <= t.hour < 24 && 0 <= t.minute < 60 && 0 <= t.second < 60 && 0 <= t.micro < 1000000
    witness DateTime(Date(1, 1, 1), 0, 0, 0, 0)

  /** Chronological order of days (`date <= date`). */
  predicate DateLe(a: Date, b: Date)
  {
    a.year < b.year || (a.year == b.year && (a.month < b.month || (a.month == b.month && a.day <= b.day)))
  }

  /** Chronological order of instants (`datetime <= datetime`). */
  predicate LessEq(a: DateTime, b: DateTime)
  {
    if a.date != b.date then DateLe(a.date, b.date)
    else if a.hour != b.hour then a.hour < b.hour
    else if a.minute != b.minute then a.minute < b.minute
    else if a.second != b.second then a.second < b.second
    else a.micro <= b.micro
  }

  /** `datetime.combine(d, time.min)`: midnight opening day `d`. */
  function DayStart(d: Day): Instant
  {
    DateTime(d, 0, 0, 0, 0)
  }

  /** `datetime.combine(d, time.max)`: 23:59:59.999999 on day `d`. */
  function DayEnd(d: Day): Instant
  {
    DateTime(d, 23, 59, 59, 999999)
  }

  /** The fractional part `isoformat()` writes: nothing at all when the microsecond is 0. */
  function Fraction(micro: nat): string
    requires micro < 1000000
  {
    if micro == 0 then "" else "." + Pad(micro, 6)
  }

  /** `t.isoformat()`: `YYYY-MM-DDTHH:MM:SS` followed by `.ffffff` unless the microsecond is 0. */
  function Iso(t: Instant): string
  {
    Pad(t.date.year, 4) + "-" + (Pad(t.date.month, 2) + "-" + (Pad(t.date.day, 2) + "T" +
      (Pad(t.hour, 2) + ":" + (Pad(t.minute, 2) + ":" + (Pad(t.second, 2) + Fraction(t.micro))))))
  }

  /** One leading field and its separator decide the comparison unless they are equal. */
  lemma FieldThenRest(v1: nat, v2: nat, w: nat, sep: string, r1: string, r2: string)
    requires v1 < Pow10(w) && v2 < Pow10(w)
    ensures LexLe(Pad(v1, w) + sep + r1, Pad(v2, w) + sep + r2)
        <==> v1 < v2 || (v1 == v2 && LexLe(r1, r2))
  {
    var p1, p2 := Pad(v1, w), Pad(v2, w);
    PadOrder(v1, v2, w);
    LexAppend(p1 + sep, r1, p2 + sep, r2);
    LexAppend(p1, sep, p2, sep);
    LexLeReflexive(sep);
    assert p1 + sep == p2 + sep ==> p1 == p2 by {
      if p1 + sep == p2 + sep { assert (p1 + sep)[..w] == p1 && (p2 + sep)[..w] == p2; }
    }
  }

  lemma FractionOrder(u1: nat, u2: nat)
    requires u1 < 1000000 && u2 < 1000000
    ensures LexLe(Fraction(u1), Fraction(u2)) <==> u1 <= u2
  {
    if u1 != 0 && u2 != 0 {
      assert Pow10(6) == 1000000;
      PadOrder(u1, u2, 6);
      LexAppend(".", Pad(u1, 6), ".", Pad(u2, 6));
    }
  }

  lemma SecondsThenFraction(s1: nat, s2: nat, u1: nat, u2: nat)
    requires s1 < 60 && s2 < 60 && u1 < 1000000 && u2 < 1000000
    ensures LexLe(Pad(s1, 2) + Fraction(u1), Pad(s2, 2) + Fraction(u2))
        <==> s1 < s2 || (s1 == s2 && u1 <= u2)
  {
    assert Pow10(2) == 100;
    PadOrder(s1, s2, 2);
    LexAppend(Pad(s1, 2), Fraction(u1), Pad(s2, 2), Fraction(u2));
    FractionOrder(u1, u2);
  }

  /**
   * The store compares `isoformat()` strings character by character; that order is exactly the
   * chronological order of the instants they spell, including the shorter spelling at microsecond 0.
   */
  lemma {:induction false} IsoOrder(a: Instant, b: Instant)
    ensures LexLe(Iso(a), Iso(b)) <==> LessEq(a, b)
  {
    assert Pow10(2) == 100 && Pow10(4) == 10000;
    var ta := Pad(a.hour, 2) + ":" + (Pad(a.minute, 2) + ":" + (Pad(a.second, 2) + Fraction(a.micro)));
    var tb := Pad(b.hour, 2) + ":" + (Pad(b.minute, 2) + ":" + (Pad(b.second, 2) + Fraction(b.micro)));
    SecondsThenFraction(a.second, b.second, a.micro, b.micro);
    FieldThenRest(a.minute, b.minute, 2, ":", Pad(a.second, 2) + Fraction(a.micro), Pad(b.second, 2) + Fraction(b.micro));
    FieldThenRest(a.hour, b.hour, 2, ":",
      Pad(a.minute, 2) + ":" + (Pad(a.second, 2) + Fraction(a.micro)),
      Pad(b.minute, 2) + ":" + (Pad(b.second, 2) + Fraction(b.micro)));
    var da := Pad(a.date.day, 2) + "T" + ta;
    var db := Pad(b.date.day, 2) + "T" + tb;
    FieldThenRest(a.date.day, b.date.day, 2, "T", ta, tb);
    FieldThenRest(a.date.month, b.date.month, 2, "-", da, db);
    FieldThenRest(a.date.year, b.date.year, 4, "-", Pad(a.date.month, 2) + "-" + da, Pad(b.date.month, 2) + "-" + db);
  }

  /** Distinct instants have distinct ISO spellings. */
  lemma IsoInjective(a: Instant, b: Instant)
    requires Iso(a) == Iso(b)
    ensures a == b
  {
    LexLeReflexive(Iso(a));
    IsoOrder(a, b);
    IsoOrder(b, a);
  }

  /**
   * The day-granular window `[DayStart(first), DayEnd(last)]` holds exactly the instants whose
   * calendar day lies between `first` and `last`, both included.
   */
  lemma DayWindow(first: Day, last: Day, t: Instant)
    ensures LessEq(DayStart(first), t) && LessEq(t, DayEnd(last))
        <==> DateLe(first, t.date) && DateLe(t.date, last)
  {
  }

  /**
   * The same window stated on the strings the store compares: an ISO stamp lies between the
   * ISO spellings of `DayStart(first)` and `DayEnd(last)` exactly when its day lies in
   * `[first, last]`; a stamp of 23:59:59.999999 on `last` is inside, the next microsecond is not.
   */
  lemma IsoDayWindow(first: Day, last: Day, t: Instant)
    ensures LexLe(Iso(DayStart(first)), Iso(t)) && LexLe(Iso(t), Iso(DayEnd(last)))
        <==> DateLe(first, t.date) && DateLe(t.date, last)
  {
    IsoOrder(DayStart(first), t);
    IsoOrder(t, DayEnd(last));
    DayWindow(first, last, t);
  }
}

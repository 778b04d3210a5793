/** The printed time stamp, and why printed stamps sort in the order of time. */
module IsoText {
  import opened Calendar
  import opened Text

  /** Years since 1970 are not negative, nor is any other part of a stamp. */
  lemma NotNegative(unixMs: nat)
    ensures var s := StampOf(unixMs);
            && s.date.year >= 1970 && s.date.month >= 1 && s.date.day >= 1
            && s.hour >= 0 && s.minute >= 0 && s.second >= 0 && s.millis >= 0
  {
    StampRecombines(unixMs);
    YearAfter(unixMs / 86_400_000);
    hide StampOf, DateAfter, DaysIn;
  }

  lemma {:induction false} YearAfter(n: nat)
    ensures DateAfter(n).year >= 1970
  {
    if n > 0 {
      YearAfter(n - 1);
    }
  }

  function DateText(d: Date): string
    requires d.year >= 0 && d.month >= 0 && d.day >= 0
  {
    Padded(d.year, 10, 4) + "-" + Padded(d.month, 10, 2) + "-" + Padded(d.day, 10, 2) + "T"
  }

  function TimeText(s: Stamp): string
    requires s.hour >= 0 && s.minute >= 0 && s.second >= 0 && s.millis >= 0
  {
    Padded(s.hour, 10, 2) + ":" + Padded(s.minute, 10, 2) + ":" + Padded(s.second, 10, 2)
    + "." + Padded(s.millis, 10, 3) + "Z"
  }

  function Iso8601(unixMs: nat): string
  {
    NotNegative(unixMs);
    DateText(StampOf(unixMs).date) + TimeText(StampOf(unixMs))
  }

  /** Strings in the order of their first different character. */
  predicate TextLess(a: string, b: string)
  {
    exists k :: 0 <= k < |a| && k < |b| && a[..k] == b[..k] && a[k] < b[k]
  }

  lemma LessBefore(a: string, b: string, x: string, y: string)
    requires TextLess(a, b)
    ensures TextLess(a + x, b + y)
  {
    var k :| 0 <= k < |a| && k < |b| && a[..k] == b[..k] && a[k] < b[k];
    assert (a + x)[..k] == a[..k] && (b + y)[..k] == b[..k];
  }

  lemma LessAfter(p: string, a: string, b: string)
    requires TextLess(a, b)
    ensures TextLess(p + a, p + b)
  {
    var k :| 0 <= k < |a| && k < |b| && a[..k] == b[..k] && a[k] < b[k];
    assert (p + a)[..|p| + k] == p + a[..k] && (p + b)[..|p| + k] == p + b[..k];
  }

  // ---- Numerals of a fixed width ----

  function Power10(w: nat): nat
  {
    if w == 0 then 1 else 10 * Power10(w - 1)
  }

  function Fixed(n: nat, w: nat): (s: string)
    ensures |s| == w
  {
    if w == 0 then "" else Fixed(n / 10, w - 1) + [Digit(n % 10)]
  }

  lemma DigitLess(c: int, d: int)
    requires 0 <= c < d < 10
    ensures Digit(c) < Digit(d)
  {
  }

  lemma {:induction false} FixedLess(m: nat, n: nat, w: nat)
    requires m < n < Power10(w)
    ensures TextLess(Fixed(m, w), Fixed(n, w))
    decreases w
  {
    if m / 10 < n / 10 {
      FixedLess(m / 10, n / 10, w - 1);
      LessBefore(Fixed(m / 10, w - 1), Fixed(n / 10, w - 1), [Digit(m % 10)], [Digit(n % 10)]);
    } else {
      DigitLess(m % 10, n % 10);
      var s, t := Fixed(m, w), Fixed(n, w);
      assert s[..w - 1] == t[..w - 1] && s[w - 1] < t[w - 1];
    }
  }

  lemma {:induction false} FixedZero(w: nat)
    ensures Fixed(0, w) == Text.Zeros(w)
  {
    if w > 0 {
      FixedZero(w - 1);
      assert Digit(0) == '0';
    }
  }

  lemma ZerosSnoc(k: nat, s: string, c: char)
    ensures Zeros(k) + (s + [c]) == Zeros(k) + s + [c] && Zeros(0) + s == s
  {
  }

  lemma PaddedAs(n: nat, w: nat)
    requires |Numeral(n, 10)| <= w
    ensures Padded(n, 10, w) == Zeros(w - |Numeral(n, 10)|) + Numeral(n, 10)
  {
    assert Zeros(0) + Numeral(n, 10) == Numeral(n, 10);
    hide Numeral;
  }

  /** A numeral that fits its width is padded to exactly that width. */
  lemma {:induction false} PaddedIsFixed(n: nat, w: nat)
    requires n < Power10(w) && w > 0
    ensures Padded(n, 10, w) == Fixed(n, w)
    decreases w
  {
    NumeralFits(n, w);
    PaddedAs(n, w);
    hide Padded, Digit, Zeros;
    if n < 10 {
      FixedZero(w - 1);
    } else {
      assert w > 1;
      PaddedIsFixed(n / 10, w - 1);
      NumeralFits(n / 10, w - 1);
      PaddedAs(n / 10, w - 1);
      ZerosSnoc(w - |Numeral(n, 10)|, Numeral(n / 10, 10), Digit(n % 10));
    }
  }

  lemma {:induction false} NumeralFits(n: nat, w: nat)
    requires n < Power10(w) && w > 0
    ensures |Numeral(n, 10)| <= w
    decreases w
  {
    if n >= 10 {
      assert w > 1;
      NumeralFits(n / 10, w - 1);
    }
  }

  // ---- Fields, most significant first ----

  datatype Field = Field(value: nat, width: nat, mark: char)

  predicate Fits(fields: seq<Field>)
  {
    forall i :: 0 <= i < |fields| ==> fields[i].value < Power10(fields[i].width)
  }

  function Render(fields: seq<Field>): string
  {
    if fields == [] then "" else Fixed(fields[0].value, fields[0].width) + [fields[0].mark] + Render(fields[1..])
  }

  predicate SameShape(f: seq<Field>, g: seq<Field>)
  {
    |f| == |g| && forall i :: 0 <= i < |f| ==> f[i].width == g[i].width && f[i].mark == g[i].mark
  }

  predicate Before(f: seq<Field>, g: seq<Field>)
    requires |f| == |g|
  {
    f != [] && (f[0].value < g[0].value || (f[0].value == g[0].value && Before(f[1..], g[1..])))
  }

  lemma {:induction false} RenderLess(f: seq<Field>, g: seq<Field>)
    requires SameShape(f, g) && Fits(f) && Fits(g) && Before(f, g)
    ensures TextLess(Render(f), Render(g))
  {
    hide TextLess, Fixed;
    var a, b := Fixed(f[0].value, f[0].width), Fixed(g[0].value, g[0].width);
    if f[0].value < g[0].value {
      FixedLess(f[0].value, g[0].value, f[0].width);
      LessBefore(a, b, [f[0].mark], [g[0].mark]);
      LessBefore(a + [f[0].mark], b + [g[0].mark], Render(f[1..]), Render(g[1..]));
    } else {
      RenderLess(f[1..], g[1..]);
      LessAfter(a + [f[0].mark], Render(f[1..]), Render(g[1..]));
    }
  }

  function DateFields(s: Stamp, width: nat): seq<Field>
    requires s.date.year >= 0 && s.date.month >= 0 && s.date.day >= 0
  {
    [Field(s.date.year, width, '-'), Field(s.date.month, 2, '-'), Field(s.date.day, 2, 'T')]
  }

  function TimeFields(s: Stamp): seq<Field>
    requires s.hour >= 0 && s.minute >= 0 && s.second >= 0 && s.millis >= 0
  {
    [Field(s.hour, 2, ':'), Field(s.minute, 2, ':'), Field(s.second, 2, '.'), Field(s.millis, 3, 'Z')]
  }

  lemma {:induction false} RenderConcat(f: seq<Field>, g: seq<Field>)
    ensures Render(f + g) == Render(f) + Render(g)
    decreases |f|
  {
    hide Fixed;
    if f == [] {
      assert f + g == g;
      assert Render(f) + Render(g) == Render(g);
    } else {
      assert (f + g)[1..] == f[1..] + g;
      RenderConcat(f[1..], g);
      var x := Fixed(f[0].value, f[0].width) + [f[0].mark];
      assert x + (Render(f[1..]) + Render(g)) == x + Render(f[1..]) + Render(g);
    }
  }

  lemma RenderThree(a: Field, b: Field, c: Field)
    ensures Render([a, b, c])
         == Fixed(a.value, a.width) + [a.mark] + Fixed(b.value, b.width) + [b.mark] + Fixed(c.value, c.width) + [c.mark]
  {
    hide Fixed;
    assert [a, b, c][1..] == [b, c] && [b, c][1..] == [c] && [c][1..] == [];
    assert Render([c]) == Fixed(c.value, c.width) + [c.mark] + Render([]);
    assert Render([b, c]) == Fixed(b.value, b.width) + [b.mark] + Render([c]);
  }

  lemma RenderFour(a: Field, b: Field, c: Field, d: Field)
    ensures Render([a, b, c, d])
         == Fixed(a.value, a.width) + [a.mark] + Fixed(b.value, b.width) + [b.mark]
            + Fixed(c.value, c.width) + [c.mark] + Fixed(d.value, d.width) + [d.mark]
  {
    hide Fixed;
    RenderThree(b, c, d);
    assert [a, b, c, d][1..] == [b, c, d];
    assert Render([a, b, c, d]) == Fixed(a.value, a.width) + [a.mark] + Render([b, c, d]);
  }

  lemma Powers()
    ensures Power10(2) == 100 && Power10(3) == 1000 && Power10(4) == 10_000
  {
    assert Power10(0) == 1 && Power10(1) == 10;
  }

  /** The number of digits of a year as it is printed. */
  function Digits(year: nat): nat
  {
    |Numeral(year, 10)|
  }

  lemma {:induction false} NumeralSize(n: nat)
    ensures n < Power10(Digits(n)) && (n > 0 ==> Power10(Digits(n) - 1) <= n)
    decreases n
  {
    if n >= 10 {
      NumeralSize(n / 10);
    } else {
      assert Power10(0) == 1 && Power10(1) == 10;
    }
  }

  lemma {:induction false} PowersGrow(m: nat, n: nat)
    requires m <= n
    ensures 1 <= Power10(m) <= Power10(n)
    decreases n
  {
    if m < n {
      PowersGrow(m, n - 1);
    } else if n > 0 {
      PowersGrow(m - 1, n - 1);
    }
  }

  /** A printed year has all its digits and no padding. */
  lemma YearText(year: nat)
    requires year >= 1000
    ensures Digits(year) >= 4 && Padded(year, 10, 4) == Numeral(year, 10) == Fixed(year, Digits(year))
  {
    NumeralSize(year);
    Powers();
    if Digits(year) < 4 {
      PowersGrow(Digits(year), 3);
    }
    PaddedIsFixed(year, Digits(year));
  }

  lemma DateIsRender(s: Stamp)
    requires s.date.year >= 1000 && ValidDate(s.date)
    ensures Fits(DateFields(s, Digits(s.date.year)))
    ensures DateText(s.date) == Render(DateFields(s, Digits(s.date.year)))
  {
    Powers();
    YearText(s.date.year);
    NumeralSize(s.date.year);
    hide Fixed, Padded, Render, Power10, Numeral, Digits;
    PaddedIsFixed(s.date.month, 2);
    PaddedIsFixed(s.date.day, 2);
    var d := DateFields(s, Digits(s.date.year));
    RenderThree(d[0], d[1], d[2]);
  }

  lemma TimeIsRender(s: Stamp)
    requires ValidStamp(s)
    ensures Fits(TimeFields(s)) && TimeText(s) == Render(TimeFields(s))
  {
    Powers();
    hide Fixed, Padded, Render, Power10, ValidDate;
    PaddedIsFixed(s.hour, 2);
    PaddedIsFixed(s.minute, 2);
    PaddedIsFixed(s.second, 2);
    PaddedIsFixed(s.millis, 3);
    var t := TimeFields(s);
    RenderFour(t[0], t[1], t[2], t[3]);
  }

  /** The printed stamp is its fields at fixed widths, the year's being the number of its digits. */
  lemma IsoIsRender(unixMs: nat)
    ensures var s := StampOf(unixMs);
            && s.date.year >= 0 && s.date.month >= 0 && s.date.day >= 0
            && s.hour >= 0 && s.minute >= 0 && s.second >= 0 && s.millis >= 0
            && Fits(DateFields(s, Digits(s.date.year)) + TimeFields(s))
            && Iso8601(unixMs) == Render(DateFields(s, Digits(s.date.year)) + TimeFields(s))
  {
    hide StampOf, DateAfter, Render, OfDay, DateText, TimeText, DateFields, TimeFields, Digits;
    NotNegative(unixMs);
    StampRecombines(unixMs);
    var s := StampOf(unixMs);
    DateIsRender(s);
    TimeIsRender(s);
    RenderConcat(DateFields(s, Digits(s.date.year)), TimeFields(s));
  }

  /** What a printed stamp looks like: year, month, day, hour, minute, second and milliseconds in decimal, the year with
      at least four digits, and `-`, `T`, `:`, `.` and `Z` between and after them. */
  lemma PrintedStampReadsBack(unixMs: nat)
    ensures var t, s := Iso8601(unixMs), StampOf(unixMs);
            var d := |t| - 20;
            && d >= 4 && t[d] == '-' && t[d + 3] == '-' && t[d + 6] == 'T' && t[d + 9] == ':' && t[d + 12] == ':'
            && t[d + 15] == '.' && t[d + 19] == 'Z'
            && ValueOf(t[..d], 10) == s.date.year && ValueOf(t[d + 1..d + 3], 10) == s.date.month
            && ValueOf(t[d + 4..d + 6], 10) == s.date.day && ValueOf(t[d + 7..d + 9], 10) == s.hour
            && ValueOf(t[d + 10..d + 12], 10) == s.minute && ValueOf(t[d + 13..d + 15], 10) == s.second
            && ValueOf(t[d + 16..d + 19], 10) == s.millis
  {
    NotNegative(unixMs);
    StampRecombines(unixMs);
    var s := StampOf(unixMs);
    hide StampOf, DateAfter, OfDay, Numeral, Padded, ValueOf, Fixed, DaysIn;
    YearText(s.date.year);
    TwoDigits(s.date.month);
    TwoDigits(s.date.day);
    TwoDigits(s.hour);
    TwoDigits(s.minute);
    TwoDigits(s.second);
    ThreeDigits(s.millis);
    PaddedBack(s.date.year, 10, 4);
    Assembled(Padded(s.date.year, 10, 4), Padded(s.date.month, 10, 2), Padded(s.date.day, 10, 2),
              Padded(s.hour, 10, 2), Padded(s.minute, 10, 2), Padded(s.second, 10, 2), Padded(s.millis, 10, 3));
  }

  lemma TwoDigits(n: nat)
    requires n < 100
    ensures |Padded(n, 10, 2)| == 2 && ValueOf(Padded(n, 10, 2), 10) == n
  {
    Powers();
    PaddedIsFixed(n, 2);
    PaddedBack(n, 10, 2);
    hide Padded, ValueOf;
  }

  lemma ThreeDigits(n: nat)
    requires n < 1000
    ensures |Padded(n, 10, 3)| == 3 && ValueOf(Padded(n, 10, 3), 10) == n
  {
    Powers();
    PaddedIsFixed(n, 3);
    PaddedBack(n, 10, 3);
    hide Padded, ValueOf;
  }

  lemma Assembled(y: string, m: string, d: string, h: string, i: string, s: string, l: string)
    requires |m| == |d| == |h| == |i| == |s| == 2 && |l| == 3
    ensures var t := (y + "-" + m + "-" + d + "T") + (h + ":" + i + ":" + s + "." + l + "Z");
            var n := |y|;
            && |t| == n + 20 && t[..n] == y && t[n] == '-' && t[n + 1..n + 3] == m && t[n + 3] == '-'
            && t[n + 4..n + 6] == d && t[n + 6] == 'T' && t[n + 7..n + 9] == h && t[n + 9] == ':'
            && t[n + 10..n + 12] == i && t[n + 12] == ':' && t[n + 13..n + 15] == s && t[n + 15] == '.'
            && t[n + 16..n + 19] == l && t[n + 19] == 'Z'
  {
  }

  lemma StampBefore(a: Stamp, b: Stamp, width: nat)
    requires ValidStamp(a) && ValidStamp(b) && Less(a, b) && a.date.year >= 0 && b.date.year >= 0
    ensures SameShape(DateFields(a, width) + TimeFields(a), DateFields(b, width) + TimeFields(b))
    ensures Before(DateFields(a, width) + TimeFields(a), DateFields(b, width) + TimeFields(b))
  {
    var f, g := DateFields(a, width) + TimeFields(a), DateFields(b, width) + TimeFields(b);
    hide DaysIn, OfDay;
    if DateLess(a.date, b.date) {
      BeforeAt(f, g, if a.date.year < b.date.year then 0 else if a.date.month < b.date.month then 1 else 2);
    } else {
      TimeOrder(a, b);
      BeforeAt(f, g, if a.hour < b.hour then 3 else if a.minute < b.minute then 4
                     else if a.second < b.second then 5 else 6);
    }
  }

  lemma TimeOrder(a: Stamp, b: Stamp)
    requires ValidStamp(a) && ValidStamp(b) && OfDay(a) < OfDay(b)
    ensures a.hour < b.hour || (a.hour == b.hour && (a.minute < b.minute || (a.minute == b.minute
            && (a.second < b.second || (a.second == b.second && a.millis < b.millis)))))
  {
  }

  lemma {:induction false} BeforeAt(f: seq<Field>, g: seq<Field>, k: nat)
    requires |f| == |g| && k < |f| && f[k].value < g[k].value
    requires forall i :: 0 <= i < k ==> f[i].value == g[i].value
    ensures Before(f, g)
    decreases k
  {
    if k > 0 {
      BeforeAt(f[1..], g[1..], k - 1);
    }
  }

  lemma SameDigitsSort(a: nat, b: nat)
    requires a < b && Digits(StampOf(a).date.year) == Digits(StampOf(b).date.year)
    ensures TextLess(Iso8601(a), Iso8601(b))
  {
    hide StampOf, DateAfter, Render, Iso8601, Before, Fits, SameShape, TextLess, OfDay, DateFields, TimeFields;
    hide Digits, ValidStamp, Less;
    StampIncreases(a, b);
    StampRecombines(a);
    StampRecombines(b);
    IsoIsRender(a);
    IsoIsRender(b);
    var s, t := StampOf(a), StampOf(b);
    var w := Digits(s.date.year);
    StampBefore(s, t, w);
    RenderLess(DateFields(s, w) + TimeFields(s), DateFields(t, w) + TimeFields(t));
  }

  // ---- Years with more digits ----

  /** The first `digits` digits of a year. */
  function Leading(year: nat, digits: nat): nat
    requires digits > 0
    decreases year
  {
    if Digits(year) <= digits then year else Leading(year / 10, digits)
  }

  lemma {:induction false} LeadingText(year: nat, digits: nat)
    requires 0 < digits <= Digits(year)
    ensures Digits(Leading(year, digits)) == digits
    ensures Numeral(Leading(year, digits), 10) <= Numeral(year, 10)
    decreases year
  {
    if Digits(year) > digits {
      assert year >= 10;
      assert Numeral(year, 10) == Numeral(year / 10, 10) + [Digit(year % 10)];
      LeadingText(year / 10, digits);
    }
  }

  lemma TextLessOneWay(a: string, b: string)
    requires TextLess(a, b)
    ensures !TextLess(b, a)
  {
    var k :| 0 <= k < |a| && k < |b| && a[..k] == b[..k] && a[k] < b[k];
    if TextLess(b, a) {
      var l :| 0 <= l < |b| && l < |a| && b[..l] == a[..l] && b[l] < a[l];
      SamePrefix(a, b, k, l);
    }
  }

  /** The first different place of two strings is one place. */
  lemma SamePrefix(a: string, b: string, k: nat, l: nat)
    requires k < |a| && k < |b| && l < |a| && l < |b| && a[..k] == b[..k] && a[..l] == b[..l]
    requires a[k] != b[k] && a[l] != b[l]
    ensures k == l
  {
    assert forall i :: 0 <= i < k ==> a[..k][i] == a[i] && b[..k][i] == b[i];
    assert forall i :: 0 <= i < l ==> a[..l][i] == a[i] && b[..l][i] == b[i];
  }

  lemma IsoStartsWithYear(unixMs: nat) returns (rest: string)
    ensures StampOf(unixMs).date.year >= 1970
    ensures Iso8601(unixMs) == Numeral(StampOf(unixMs).date.year, 10) + ("-" + rest)
  {
    NotNegative(unixMs);
    var s := StampOf(unixMs);
    YearText(s.date.year);
    hide StampOf, Numeral, Padded, Fixed, Digits, TimeText;
    var y, m, d := Numeral(s.date.year, 10), Padded(s.date.month, 10, 2), Padded(s.date.day, 10, 2);
    rest := m + "-" + d + "T" + TimeText(s);
    AfterYear(y, m, d, TimeText(s));
  }

  lemma AfterYear(y: string, m: string, d: string, t: string)
    ensures y + "-" + m + "-" + d + "T" + t == y + ("-" + (m + "-" + d + "T" + t))
  {
  }

  lemma ShorterYear(m: nat, n: nat, x: string, y: string)
    requires Digits(m) < Digits(n)
    ensures var t := Leading(n, Digits(m));
            var a, b := Numeral(m, 10) + ("-" + x), Numeral(n, 10) + ("-" + y);
            (m <= t ==> TextLess(a, b)) && (t < m ==> TextLess(b, a))
  {
    var d := Digits(m);
    var t := Leading(n, d);
    LeadingText(n, d);
    NumeralSize(m);
    NumeralSize(t);
    PaddedIsFixed(m, d);
    PaddedIsFixed(t, d);
    var p, q, r := Numeral(m, 10), Numeral(t, 10), Numeral(n, 10);
    hide Numeral, Leading, TextLess, Fixed, Padded, Power10;
    var tail := DigitsFirst(q, r, y);
    if m < t {
      FixedLess(m, t, d);
      LessBefore(p, q, "-" + x, tail);
    } else if t < m {
      FixedLess(t, m, d);
      LessBefore(q, p, tail, "-" + x);
    } else {
      FirstLess("-" + x, tail);
      LessAfter(p, "-" + x, tail);
    }
  }

  /** What follows the prefix `q` of a longer numeral starts with a digit. */
  lemma DigitsFirst(q: string, r: string, y: string) returns (tail: string)
    requires q <= r && |q| < |r| && forall c :: c in r ==> '0' <= c <= '9' || 'A' <= c <= 'F'
    ensures r + ("-" + y) == q + tail && tail != "" && '0' <= tail[0]
  {
    var more := r[|q|..];
    assert r == q + more && more[0] in r;
    tail := more + ("-" + y);
  }

  lemma FirstLess(a: string, b: string)
    requires a != "" && b != "" && a[0] < b[0]
    ensures TextLess(a, b)
  {
    assert a[..0] == b[..0];
  }

  lemma {:induction false} MoreDigits(m: nat, n: nat)
    requires m <= n
    ensures Digits(m) <= Digits(n)
    decreases n
  {
    if m >= 10 {
      MoreDigits(m / 10, n / 10);
    }
  }

  lemma YearOrder(a: Stamp, b: Stamp)
    requires Less(a, b)
    ensures a.date.year <= b.date.year
  {
  }

  /** Exactly when printed stamps sort as text in the order of time: when the earlier year is at most the number that as
      many first digits of the later year make. That is always so for years of equally many digits. */
  lemma PrintedStampsSort(a: nat, b: nat)
    requires a < b
    ensures StampOf(a).date.year >= 1970 && StampOf(b).date.year >= 1970
    ensures TextLess(Iso8601(a), Iso8601(b))
       <==> StampOf(a).date.year <= Leading(StampOf(b).date.year, Digits(StampOf(a).date.year))
  {
    NotNegative(a);
    NotNegative(b);
    StampIncreases(a, b);
    YearOrder(StampOf(a), StampOf(b));
    hide StampOf, TextLess, Iso8601, Numeral, Less;
    var m, n := StampOf(a).date.year, StampOf(b).date.year;
    MoreDigits(m, n);
    if Digits(m) == Digits(n) {
      SameDigitsSort(a, b);
    } else {
      var x := IsoStartsWithYear(a);
      var y := IsoStartsWithYear(b);
      ShorterYear(m, n, x, y);
      if TextLess(Iso8601(b), Iso8601(a)) {
        TextLessOneWay(Iso8601(b), Iso8601(a));
      }
    }
  }

  /** Through the year 9999 they always do. */
  lemma FourDigitYearsSort(a: nat, b: nat)
    requires a < b && StampOf(b).date.year <= 9999
    ensures TextLess(Iso8601(a), Iso8601(b))
  {
    NotNegative(a);
    NotNegative(b);
    StampIncreases(a, b);
    YearOrder(StampOf(a), StampOf(b));
    hide StampOf, TextLess, Iso8601, Less, Digits;
    FourDigits(StampOf(a).date.year);
    FourDigits(StampOf(b).date.year);
    SameDigitsSort(a, b);
  }

  lemma FourDigits(year: nat)
    requires 1000 <= year <= 9999
    ensures Digits(year) == 4
  {
    YearText(year);
    Powers();
    NumeralFits(year, 4);
  }

  /** The first day of the year 10000 sorts before the first of 1970. */
  lemma Year10000SortsFirst()
    ensures StampOf(0).date == Date(1970, 1, 1) && StampOf(253_402_300_800_000).date == Date(10_000, 1, 1)
    ensures TextLess(Iso8601(253_402_300_800_000), Iso8601(0)) && !TextLess(Iso8601(0), Iso8601(253_402_300_800_000))
  {
    hide Iso8601, Numeral, TextLess, Digits, StampOf, Leading;
    FirstDays();
    FiveDigits();
    var x := IsoStartsWithYear(0);
    var y := IsoStartsWithYear(253_402_300_800_000);
    ShorterYear(1970, 10_000, x, y);
    TextLessOneWay(Iso8601(253_402_300_800_000), Iso8601(0));
  }

  lemma FirstDays()
    ensures StampOf(0).date == Date(1970, 1, 1) && StampOf(253_402_300_800_000).date == Date(10_000, 1, 1)
  {
    hide Civil;
    Epoch();
    FirstOfYear10000();
  }

  lemma FiveDigits()
    ensures Digits(1970) == 4 && Digits(10_000) == 5 && Leading(10_000, 4) == 1000
  {
    FourDigits(1970);
    FourDigits(1000);
    assert Numeral(10_000, 10) == Numeral(1000, 10) + [Digit(0)];
    assert Leading(1000, 4) == 1000;
    hide Numeral;
  }

  lemma FirstOfYear10000()
    ensures Civil(2_932_897) == Date(10_000, 1, 1)
  {
    assert YearStart(399) == 145_731 && YearLength(399) == 366;
    CivilOf(2_932_897, 24, 399, 306);
    assert MarchDate(9_999, 306) == Date(10_000, 1, 1);
    hide Civil;
  }
}

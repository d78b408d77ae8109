/** Rendering an instant as the date-time of section 5.6 of RFC 3339. */
module Timestamp {
  import opened CivilDate

  /** A number and the character printed after it, in a column of `width` digits. */
  datatype Field = Field(value: int, width: nat, suffix: char)

  function Power10(w: nat): nat {
    if w == 0 then 1 else 10 * Power10(w - 1)
  }

  function Digit(n: int): char
    requires 0 <= n <= 9
  {
    '0' + n as char
  }

  /** Zero-padded decimal, at least `w` digits wide. */
  function Pad(n: nat, w: nat): string
    decreases n, w
  {
    if n < 10 && w <= 1 then [Digit(n)]
    else Pad(n / 10, if w == 0 then 0 else w - 1) + [Digit(n % 10)]
  }

  ghost predicate InColumn(f: Field) {
    f.width > 0 && 0 <= f.value < Power10(f.width)
  }

  /** The sign of a negative number counts towards the width. */
  function Column(f: Field): string {
    if f.value >= 0 then Pad(f.value, f.width)
    else "-" + Pad(-f.value, if f.width == 0 then 0 else f.width - 1)
  }

  function Render(fs: seq<Field>): string {
    if fs == [] then "" else Column(fs[0]) + [fs[0].suffix] + Render(fs[1..])
  }

  const SECONDS_PER_DAY := 86_400

  /** The six columns of a timestamp. */
  function FieldsOf(date: Date, ofDay: nat): (fs: seq<Field>)
    ensures |fs| == 6
  {
    [Field(date.year, 4, '-'), Field(date.month, 2, '-'), Field(date.day, 2, 'T'),
     Field(ofDay / 3600, 2, ':'), Field(ofDay / 60 % 60, 2, ':'), Field(ofDay % 60, 2, 'Z')]
  }

  function Fields(secs: int): (fs: seq<Field>)
    ensures |fs| == 6
  {
    FieldsOf(CivilFromDays(secs / SECONDS_PER_DAY), secs % SECONDS_PER_DAY)
  }

  const YEAR_0: int := -62_167_219_200
  const YEAR_10000: int := 253_402_300_800

  /** The instants of the years 0 to 9999. */
  predicate InRange(secs: int) {
    YEAR_0 <= secs < YEAR_10000
  }

  lemma InRangeIsYears(secs: int)
    ensures InRange(secs) <==> 0 <= CivilUncast(secs / SECONDS_PER_DAY).year <= 9999
  {
    FourCenturies(0, 0);
    FourCenturies(25, 10_000);
    DaysInRange(secs);
    DaysOfYears(secs / SECONDS_PER_DAY, 0, 10_000);
  }

  lemma DaysInRange(secs: int)
    ensures InRange(secs) <==> -719_528 <= secs / SECONDS_PER_DAY < 2_932_897
  {
    WholeDays(secs, -719_528);
    WholeDays(secs, 2_932_897);
  }

  /** The calendar repeats every four centuries. */
  lemma FourCenturies(k: int, year: int)
    requires year == 400 * k
    ensures YearStart(year) == 146_097 * k - 719_528
  {
    assert year / 4 == 100 * k && year / 100 == 4 * k && year / 400 == k;
    assert year % 400 == 0 && year % 4 == 0;
  }

  lemma WholeDays(secs: int, day: int)
    ensures day <= secs / SECONDS_PER_DAY <==> day * SECONDS_PER_DAY <= secs
  {}

  function NowIso8601(secs: int): string {
    Render(Fields(secs))
  }

  // ---------------------------------------------------------------- columns

  /** The date of an instant in range. */
  lemma DateInRange(z: int)
    requires 0 <= CivilUncast(z).year <= 9999
    ensures var d := CivilFromDays(z); Valid(d) && DayNumber(d) == z && 0 <= d.year <= 9999
  {
    InYears32Exactly(z);
    CivilFromDaysCorrect(z);
  }

  lemma FieldsInColumns(secs: int)
    requires InRange(secs)
    ensures forall i | 0 <= i < 6 :: InColumn(Fields(secs)[i])
  {
    InRangeIsYears(secs);
    DateInRange(secs / SECONDS_PER_DAY);
    FieldsOfInColumns(CivilFromDays(secs / SECONDS_PER_DAY), secs % SECONDS_PER_DAY);
  }

  lemma FieldsOfInColumns(d: Date, ofDay: nat)
    requires Valid(d) && 0 <= d.year <= 9999 && ofDay < SECONDS_PER_DAY
    ensures forall i | 0 <= i < 6 :: InColumn(FieldsOf(d, ofDay)[i])
  {
    assert Power10(2) == 100 && Power10(4) == 10_000 by {
      assert Power10(1) == 10 && Power10(3) == 1000;
    }
    assert ofDay / 3600 < 24;
  }

  /** A number that fits its column fills it exactly. */
  lemma {:induction false} PadWidth(n: nat, w: nat)
    requires w > 0 && n < Power10(w)
    ensures |Pad(n, w)| == w
    decreases w
  {
    if w > 1 {
      PadWidth(n / 10, w - 1);
    }
  }

  // ---------------------------------------------------------------- order

  /** Dictionary order of two texts, decided at position `k`. */
  predicate LessAt(s: string, t: string, k: nat) {
    k < |s| && k < |t| && s[k] < t[k] && s[..k] == t[..k]
  }

  predicate Less(s: string, t: string) {
    exists k | 0 <= k < |s| :: LessAt(s, t, k)
  }

  lemma LessFront(s: string, t: string, u: string, v: string)
    requires |s| == |t| && Less(s, t)
    ensures Less(s + u, t + v)
  {
    var k :| 0 <= k < |s| && LessAt(s, t, k);
    assert (s + u)[..k] == s[..k] && (t + v)[..k] == t[..k];
    assert LessAt(s + u, t + v, k);
  }

  lemma LessBack(s: string, u: string, v: string)
    requires Less(u, v)
    ensures Less(s + u, s + v)
  {
    var k :| 0 <= k < |u| && LessAt(u, v, k);
    assert (s + u)[..|s| + k] == s + u[..k] && (s + v)[..|s| + k] == s + v[..k];
    assert LessAt(s + u, s + v, |s| + k);
  }

  /** In one column, smaller numbers come first. */
  lemma {:induction false} PadOrder(m: nat, n: nat, w: nat)
    requires w > 0 && m < n < Power10(w)
    ensures Less(Pad(m, w), Pad(n, w))
    decreases w
  {
    if w == 1 {
      assert LessAt(Pad(m, w), Pad(n, w), 0);
    } else if m / 10 < n / 10 {
      PadOrder(m / 10, n / 10, w - 1);
      PadWidth(m / 10, w - 1);
      PadWidth(n / 10, w - 1);
      LessFront(Pad(m / 10, w - 1), Pad(n / 10, w - 1), [Digit(m % 10)], [Digit(n % 10)]);
    } else {
      assert m % 10 < n % 10;
      assert LessAt([Digit(m % 10)], [Digit(n % 10)], 0);
      LessBack(Pad(m / 10, w - 1), [Digit(m % 10)], [Digit(n % 10)]);
    }
  }

  /** The columns agree up to position `k`, where the first has the smaller value. */
  ghost predicate FirstSmaller(fs: seq<Field>, gs: seq<Field>, k: nat) {
    k < |fs| == |gs| && fs[..k] == gs[..k] && fs[k].value < gs[k].value
  }

  ghost predicate SameLayout(fs: seq<Field>, gs: seq<Field>) {
    |fs| == |gs| && forall i | 0 <= i < |fs| :: fs[i].width == gs[i].width && InColumn(fs[i]) && InColumn(gs[i])
  }

  lemma RenderFirst(fs: seq<Field>, gs: seq<Field>)
    requires SameLayout(fs, gs) && FirstSmaller(fs, gs, 0)
    ensures Less(Render(fs), Render(gs))
  {
    var a, b := Column(fs[0]), Column(gs[0]);
    PadOrder(fs[0].value, gs[0].value, fs[0].width);
    PadWidth(fs[0].value, fs[0].width);
    PadWidth(gs[0].value, gs[0].width);
    LessFront(a, b, [fs[0].suffix], [gs[0].suffix]);
    LessFront(a + [fs[0].suffix], b + [gs[0].suffix], Render(fs[1..]), Render(gs[1..]));
  }

  lemma {:induction false} RenderOrder(fs: seq<Field>, gs: seq<Field>, k: nat)
    requires SameLayout(fs, gs) && FirstSmaller(fs, gs, k)
    ensures Less(Render(fs), Render(gs))
    decreases k
  {
    if k == 0 {
      RenderFirst(fs, gs);
    } else {
      FirstSmallerTail(fs, gs, k);
      RenderOrder(fs[1..], gs[1..], k - 1);
      LessBack(Column(fs[0]) + [fs[0].suffix], Render(fs[1..]), Render(gs[1..]));
    }
  }

  lemma FirstSmallerTail(fs: seq<Field>, gs: seq<Field>, k: nat)
    requires FirstSmaller(fs, gs, k) && k > 0
    ensures fs[0] == gs[0] && FirstSmaller(fs[1..], gs[1..], k - 1)
  {
    assert fs[0] == fs[..k][0] && gs[0] == gs[..k][0];
    assert fs[1..][..k - 1] == fs[..k][1..] && gs[1..][..k - 1] == gs[..k][1..];
  }

  /** The first column in which an earlier instant differs from a later one has the smaller value. */
  lemma EarlierHasSmallerField(a: int, b: int) returns (k: nat)
    requires InRange(a) && InRange(b) && a < b
    ensures FirstSmaller(Fields(a), Fields(b), k)
  {
    InRangeIsYears(a);
    InRangeIsYears(b);
    DateInRange(a / SECONDS_PER_DAY);
    DateInRange(b / SECONDS_PER_DAY);
    k := SmallerField(CivilFromDays(a / SECONDS_PER_DAY), a % SECONDS_PER_DAY,
                      CivilFromDays(b / SECONDS_PER_DAY), b % SECONDS_PER_DAY);
  }

  lemma SmallerField(d: Date, s: nat, e: Date, t: nat) returns (k: nat)
    requires Valid(d) && Valid(e) && s < SECONDS_PER_DAY && t < SECONDS_PER_DAY
    requires DayNumber(d) < DayNumber(e) || (DayNumber(d) == DayNumber(e) && s < t)
    ensures FirstSmaller(FieldsOf(d, s), FieldsOf(e, t), k)
  {
    if DayNumber(d) < DayNumber(e) {
      DateOrder(d, e);
      k := SmallerDateField(d, s, e, t);
    } else {
      DayNumberInjective(d, e);
      k := SmallerTimeField(d, s, t);
    }
  }

  lemma SmallerDateField(d: Date, s: nat, e: Date, t: nat) returns (k: nat)
    requires Before(d, e)
    ensures FirstSmaller(FieldsOf(d, s), FieldsOf(e, t), k)
  {
    k := if d.year < e.year then 0 else if d.month < e.month then 1 else 2;
  }

  lemma SmallerTimeField(d: Date, s: nat, t: nat) returns (k: nat)
    requires s < t < SECONDS_PER_DAY
    ensures FirstSmaller(FieldsOf(d, s), FieldsOf(d, t), k)
  {
    k := TimeOrder(s, t);
  }

  lemma DateOrder(d: Date, e: Date)
    requires Valid(d) && Valid(e) && DayNumber(d) < DayNumber(e)
    ensures Before(d, e)
  {
    if Before(e, d) {
      DayNumberIncreases(e, d);
    }
  }

  lemma TimeOrder(s: nat, t: nat) returns (k: nat)
    requires s < t < SECONDS_PER_DAY
    ensures 3 <= k <= 5
    ensures k == 3 ==> s / 3600 < t / 3600
    ensures k == 4 ==> s / 3600 == t / 3600 && s / 60 % 60 < t / 60 % 60
    ensures k == 5 ==> s / 3600 == t / 3600 && s / 60 % 60 == t / 60 % 60 && s % 60 < t % 60
  {
    k := if s / 3600 < t / 3600 then 3 else if s / 60 < t / 60 then 4 else 5;
    assert s / 60 == s / 3600 * 60 + s / 60 % 60;
    assert t / 60 == t / 3600 * 60 + t / 60 % 60;
  }

  /** An earlier instant has the smaller text: section 5.1 of RFC 3339. */
  lemma TimestampOrder(a: int, b: int)
    requires InRange(a) && InRange(b) && a < b
    ensures Less(NowIso8601(a), NowIso8601(b))
  {
    FieldsInColumns(a);
    FieldsInColumns(b);
    var k := EarlierHasSmallerField(a, b);
    RenderOrder(Fields(a), Fields(b), k);
  }

  /** The columns recombine to the instant. */
  lemma FieldsRecombine(secs: int)
    requires InRange(secs)
    ensures var fs := Fields(secs); var date := Date(fs[0].value, fs[1].value, fs[2].value);
      && Valid(date)
      && secs == DayNumber(date) * SECONDS_PER_DAY + fs[3].value * 3600 + fs[4].value * 60 + fs[5].value
      && 0 <= fs[3].value <= 23 && 0 <= fs[4].value <= 59 && 0 <= fs[5].value <= 59
  {
    InRangeIsYears(secs);
    DateInRange(secs / SECONDS_PER_DAY);
    TimeRecombines(secs % SECONDS_PER_DAY);
  }

  lemma TimeRecombines(t: nat)
    requires t < SECONDS_PER_DAY
    ensures t == t / 3600 * 3600 + t / 60 % 60 * 60 + t % 60 && t / 3600 <= 23
  {
    assert t / 60 == t / 3600 * 60 + t / 60 % 60;
  }

  // ---------------------------------------------------------------- reading a timestamp

  predicate AllDigits(s: string) {
    forall i | 0 <= i < |s| :: '0' <= s[i] <= '9'
  }

  /** The number that decimal digits stand for. */
  function Number(s: string): nat
    requires AllDigits(s)
  {
    if s == "" then 0 else 10 * Number(s[..|s| - 1]) + (s[|s| - 1] - '0') as nat
  }

  /** A padded number is digits, and they stand for it, also when it is wider than its column. */
  lemma {:induction false} PadReadsBack(n: nat, w: nat)
    ensures AllDigits(Pad(n, w)) && Number(Pad(n, w)) == n
    decreases n, w
  {
    var s := Pad(n, w);
    if n < 10 && w <= 1 {
      assert s == [Digit(n)] && s[..0] == "";
      assert Number(s[..0]) == 0;
    } else {
      var front := Pad(n / 10, if w == 0 then 0 else w - 1);
      PadReadsBack(n / 10, if w == 0 then 0 else w - 1);
      assert s[..|s| - 1] == front && s[|s| - 1] == Digit(n % 10);
    }
  }

  /** Digits of one length are determined by what they stand for. */
  lemma {:induction false} DigitsUnique(s: string, t: string)
    requires AllDigits(s) && AllDigits(t) && |s| == |t| && Number(s) == Number(t)
    ensures s == t
  {
    if s != "" {
      var n := |s| - 1;
      LastDigitsAgree(Number(s[..n]), (s[n] - '0') as nat, Number(t[..n]), (t[n] - '0') as nat);
      DigitsUnique(s[..n], t[..n]);
      assert s == s[..n] + [s[n]] && t == t[..n] + [t[n]];
    }
  }

  lemma LastDigitsAgree(q: nat, d: nat, r: nat, e: nat)
    requires d <= 9 && e <= 9 && 10 * q + d == 10 * r + e
    ensures q == r && d == e
  {}

  /** A number of `width` digits with a separator behind it. */
  datatype Place = Place(width: nat, suffix: char)

  const DATE_TIME: seq<Place> :=
    [Place(4, '-'), Place(2, '-'), Place(2, 'T'), Place(2, ':'), Place(2, ':'), Place(2, 'Z')]

  /** The text is digits and separators as the places say, and nothing else. */
  predicate Matches(s: string, ps: seq<Place>) {
    if ps == [] then s == ""
    else
      var w := ps[0].width;
      w < |s| && AllDigits(s[..w]) && s[w] == ps[0].suffix && Matches(s[w + 1..], ps[1..])
  }

  /** The numbers that the digits in their places stand for. */
  function Values(s: string, ps: seq<Place>): (vs: seq<int>)
    requires Matches(s, ps)
    ensures |vs| == |ps|
  {
    if ps == [] then [] else [Number(s[..ps[0].width])] + Values(s[ps[0].width + 1..], ps[1..])
  }

  function PlacesOf(fs: seq<Field>): seq<Place> {
    seq(|fs|, i requires 0 <= i < |fs| => Place(fs[i].width, fs[i].suffix))
  }

  function ValuesOf(fs: seq<Field>): seq<int> {
    seq(|fs|, i requires 0 <= i < |fs| => fs[i].value)
  }

  /** Rendered columns read back as the fields. */
  lemma {:induction false} RenderReadsBack(fs: seq<Field>)
    requires forall i | 0 <= i < |fs| :: InColumn(fs[i])
    ensures Matches(Render(fs), PlacesOf(fs)) && Values(Render(fs), PlacesOf(fs)) == ValuesOf(fs)
  {
    if fs != [] {
      RenderReadsBack(fs[1..]);
      ColumnReadsBack(fs[0]);
      PlaceBack(Column(fs[0]), fs[0].suffix, Render(fs[1..]), PlacesOf(fs[1..]));
      Tails(fs);
    }
  }

  lemma ColumnReadsBack(f: Field)
    requires InColumn(f)
    ensures var c := Column(f); |c| == f.width && AllDigits(c) && Number(c) == f.value
  {
    PadWidth(f.value, f.width);
    PadReadsBack(f.value, f.width);
  }

  lemma PlaceBack(digits: string, suffix: char, rest: string, ps: seq<Place>)
    requires AllDigits(digits) && Matches(rest, ps)
    ensures var s, qs := digits + [suffix] + rest, [Place(|digits|, suffix)] + ps;
      Matches(s, qs) && Values(s, qs) == [Number(digits)] + Values(rest, ps)
  {
    var s, qs := digits + [suffix] + rest, [Place(|digits|, suffix)] + ps;
    assert s[..|digits|] == digits && s[|digits| + 1..] == rest && qs[1..] == ps;
  }

  lemma Tails(fs: seq<Field>)
    requires fs != []
    ensures PlacesOf(fs) == [Place(fs[0].width, fs[0].suffix)] + PlacesOf(fs[1..])
    ensures ValuesOf(fs) == [fs[0].value] + ValuesOf(fs[1..])
  {}

  /** The date that the first three numbers name. */
  function DateOf(vs: seq<int>): Date
    requires |vs| == 6
  {
    Date(vs[0], vs[1], vs[2])
  }

  /** The instant that six numbers name. */
  function Instant(vs: seq<int>): int
    requires |vs| == 6 && Valid(DateOf(vs))
  {
    DayNumber(DateOf(vs)) * SECONDS_PER_DAY + vs[3] * 3600 + vs[4] * 60 + vs[5]
  }

  /** Six numbers name a date of the calendar and a time of day. */
  ghost predicate NamesInstant(vs: seq<int>) {
    && |vs| == 6 && Valid(DateOf(vs))
    && 0 <= vs[3] <= 23 && 0 <= vs[4] <= 59 && 0 <= vs[5] <= 59
  }

  /** A timestamp is fourteen digits and six separators, and the digits read back as the instant it was
      printed for. */
  lemma TimestampReadsBack(secs: int)
    requires InRange(secs)
    ensures Matches(NowIso8601(secs), DATE_TIME)
    ensures var vs := Values(NowIso8601(secs), DATE_TIME); NamesInstant(vs) && Instant(vs) == secs
  {
    var fs := Fields(secs);
    FieldsInColumns(secs);
    RenderReadsBack(fs);
    assert PlacesOf(fs) == DATE_TIME;
    assert DateOf(ValuesOf(fs)) == Date(fs[0].value, fs[1].value, fs[2].value);
    FieldsRecombine(secs);
  }

  /** A text in the places is determined by its numbers. */
  lemma {:induction false} TextUnique(s: string, t: string, ps: seq<Place>)
    requires Matches(s, ps) && Matches(t, ps) && Values(s, ps) == Values(t, ps)
    ensures s == t
    decreases |ps|
  {
    if ps != [] {
      var w := ps[0].width;
      assert Number(s[..w]) == Values(s, ps)[0] == Values(t, ps)[0] == Number(t[..w]);
      assert Values(s[w + 1..], ps[1..]) == Values(s, ps)[1..] == Values(t, ps)[1..] == Values(t[w + 1..], ps[1..]);
      DigitsUnique(s[..w], t[..w]);
      TextUnique(s[w + 1..], t[w + 1..], ps[1..]);
      Spliced(s, w);
      Spliced(t, w);
    }
  }

  lemma Spliced(s: string, w: nat)
    requires w < |s|
    ensures s == s[..w] + [s[w]] + s[w + 1..]
  {}

  lemma NumbersUnique(vs: seq<int>, ws: seq<int>)
    requires NamesInstant(vs) && NamesInstant(ws) && Instant(vs) == Instant(ws)
    ensures vs == ws
  {
    SecondsUnique(DayNumber(DateOf(vs)), vs[3], vs[4], vs[5], DayNumber(DateOf(ws)), ws[3], ws[4], ws[5]);
    DayNumberInjective(DateOf(vs), DateOf(ws));
  }

  lemma SecondsUnique(d: int, h: int, m: int, s: int, d': int, h': int, m': int, s': int)
    requires 0 <= h <= 23 && 0 <= m <= 59 && 0 <= s <= 59 && 0 <= h' <= 23 && 0 <= m' <= 59 && 0 <= s' <= 59
    requires d * SECONDS_PER_DAY + h * 3600 + m * 60 + s == d' * SECONDS_PER_DAY + h' * 3600 + m' * 60 + s'
    ensures d == d' && h == h' && m == m' && s == s'
  {}

  /** The timestamp of an instant is the one text in the date-time format that names it. */
  lemma TimestampExactly(secs: int, s: string)
    requires InRange(secs)
    ensures s == NowIso8601(secs) <==>
      Matches(s, DATE_TIME) && NamesInstant(Values(s, DATE_TIME)) && Instant(Values(s, DATE_TIME)) == secs
  {
    var t := NowIso8601(secs);
    TimestampReadsBack(secs);
    if Matches(s, DATE_TIME) && NamesInstant(Values(s, DATE_TIME)) && Instant(Values(s, DATE_TIME)) == secs {
      NumbersUnique(Values(s, DATE_TIME), Values(t, DATE_TIME));
      TextUnique(s, t, DATE_TIME);
    }
  }

  /** A timestamp is twenty characters long, with the separators of the date-time format in their places. */
  lemma TimestampShape(secs: int)
    requires InRange(secs)
    ensures var s := NowIso8601(secs);
      |s| == 20 && s[4] == '-' && s[7] == '-' && s[10] == 'T' && s[13] == ':' && s[16] == ':' && s[19] == 'Z'
  {
    TimestampReadsBack(secs);
    DateTimeShape(NowIso8601(secs));
  }

  lemma DateTimeShape(s: string)
    requires Matches(s, DATE_TIME)
    ensures |s| == 20 && s[4] == '-' && s[7] == '-' && s[10] == 'T' && s[13] == ':' && s[16] == ':' && s[19] == 'Z'
  {
    assert s[0..] == s && DATE_TIME[0..] == DATE_TIME && DATE_TIME[6..] == [];
    PlaceAt(s, 0, 0, 4);
    PlaceAt(s, 1, 5, 7);
    PlaceAt(s, 2, 8, 10);
    PlaceAt(s, 3, 11, 13);
    PlaceAt(s, 4, 14, 16);
    PlaceAt(s, 5, 17, 19);
  }

  lemma PlaceAt(s: string, i: nat, o: nat, e: nat)
    requires i < |DATE_TIME| && e == o + DATE_TIME[i].width && o <= |s| && Matches(s[o..], DATE_TIME[i..])
    ensures e < |s| && s[e] == DATE_TIME[i].suffix && Matches(s[e + 1..], DATE_TIME[i + 1..])
  {
    assert s[o..][e - o + 1..] == s[e + 1..] && DATE_TIME[i..][1..] == DATE_TIME[i + 1..];
  }
}

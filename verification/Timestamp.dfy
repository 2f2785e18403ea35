/** Times with a zone, and their JSON text in the format of RFC 3339, section 5.6. */
module Timestamp {
  import opened Prelude
  import opened Decimal

  // ---- Clock readings and instants ----

  /** What clock and calendar show in a zone that many seconds east of UTC. */
  datatype Reading = Reading(
    year: int, month: int, day: int, hour: int, minute: int, second: int, nano: int, offset: int)

  predicate IsLeap(year: int) {
    year % 4 == 0 && (year % 100 != 0 || year % 400 == 0)
  }

  function DaysIn(month: int, year: int): int {
    if month == 2 then (if IsLeap(year) then 29 else 28)
    else if month in {4, 6, 9, 11} then 30
    else 31
  }

  predicate IsReading(r: Reading) {
    && 1 <= r.month <= 12 && 1 <= r.day <= DaysIn(r.month, r.year)
    && 0 <= r.hour < 24 && 0 <= r.minute < 60 && 0 <= r.second < 60 && 0 <= r.nano < 1_000_000_000
  }

  type Stamp = r: Reading | IsReading(r) witness Reading(2024, 1, 1, 0, 0, 0, 0, 0)

  function DaysBeforeYear(year: int): int {
    365 * (year - 1) + (year - 1) / 4 - (year - 1) / 100 + (year - 1) / 400
  }

  function DaysBeforeMonth(month: int, year: int): int
    decreases month
  {
    if month <= 1 then 0 else DaysBeforeMonth(month - 1, year) + DaysIn(month - 1, year)
  }

  /** Seconds since the start of year 1, UTC. */
  function Seconds(s: Stamp): int {
    (DaysBeforeYear(s.year) + DaysBeforeMonth(s.month, s.year) + s.day - 1) * 86_400
    + s.hour * 3_600 + s.minute * 60 + s.second - s.offset
  }

  /** The zero instant, in whatever zone it is read. */
  predicate IsZero(s: Stamp) {
    Seconds(s) == 0 && s.nano == 0
  }

  lemma {:induction false} MonthsAdd(month: int, year: int)
    ensures DaysBeforeMonth(month, year) >= 0
    ensures month >= 2 ==> DaysBeforeMonth(month, year) >= 28
    decreases month
  {
    if month > 1 {
      MonthsAdd(month - 1, year);
    }
  }

  lemma {:induction false} DayOfYear(month: int, year: int)
    requires 1 <= month <= 12
    ensures DaysBeforeMonth(month, year) + DaysIn(month, year) <= if IsLeap(year) then 366 else 365
    decreases 12 - month
  {
    if month < 12 {
      DayOfYear(month + 1, year);
    } else {
      assert DaysBeforeMonth(4, year) == DaysBeforeMonth(1, year) + 62 + DaysIn(2, year);
      assert DaysBeforeMonth(8, year) == DaysBeforeMonth(4, year) + 122;
      assert DaysBeforeMonth(12, year) == DaysBeforeMonth(8, year) + 122;
    }
  }

  lemma LaterThanZero(s: Stamp)
    requires s.year >= 2 && s.offset <= 86_400
    ensures !IsZero(s)
  {
    MonthsAdd(s.month, s.year);
    assert DaysBeforeYear(s.year) >= 365;
  }

  /** In UTC one reading is the zero instant: midnight at the start of year 1. */
  lemma ZeroIff(s: Stamp)
    requires s.offset == 0
    ensures IsZero(s) <==> s == Reading(1, 1, 1, 0, 0, 0, 0, 0)
  {
    MonthsAdd(s.month, s.year);
    DayOfYear(s.month, s.year);
    if s.year >= 2 {
      LaterThanZero(s);
    } else if s.year == 0 {
      assert DaysBeforeYear(0) == -366;
    } else if s.year < 0 {
      assert DaysBeforeYear(s.year) <= -730;
    }
  }

  // ---- Numbers ----

  lemma NinePlaces()
    ensures Pow10(9) == 1_000_000_000
  {
    assert Pow10(3) == 1_000;
    assert Pow10(6) == 1_000_000;
  }

  function TrimZeros(s: string): string {
    if s != "" && s[|s| - 1] == '0' then TrimZeros(s[..|s| - 1]) else s
  }

  /** Digits behind the point, as a number of width places; further digits are ignored. */
  function Places(s: string, width: nat): nat
    requires AllDigits(s)
  {
    if |s| <= width then Number(s) * Pow10(width - |s|) else Number(s[..width])
  }

  lemma {:induction false} TrimmedReadsBack(s: string, width: nat)
    requires AllDigits(s) && |s| <= width
    ensures var t := TrimZeros(s);
            AllDigits(t) && |t| <= |s| && (Number(s) > 0 ==> t != "") && Places(t, width) == Places(s, width)
  {
    if s != "" && s[|s| - 1] == '0' {
      var n := |s| - 1;
      TrimmedReadsBack(s[..n], width);
      TenTimes(Number(s[..n]), width - |s|);
    }
  }

  lemma TenTimes(n: nat, k: nat)
    ensures n * Pow10(k + 1) == 10 * n * Pow10(k)
  {
    assert Pow10(k + 1) == 10 * Pow10(k);
  }

  function DigitsLen(s: string): (n: nat)
    ensures n <= |s| && AllDigits(s[..n])
  {
    if s == "" || !IsDigit(s[0]) then 0 else 1 + DigitsLen(s[1..])
  }

  lemma {:induction false} DigitsEnd(s: string, rest: string)
    requires AllDigits(s) && (rest == "" || !IsDigit(rest[0]))
    ensures DigitsLen(s + rest) == |s|
  {
    if s == "" {
      assert s + rest == rest;
    } else {
      assert (s + rest)[1..] == s[1..] + rest;
      DigitsEnd(s[1..], rest);
    }
  }

  // ---- Text ----

  function Two(n: int): string
    requires 0 <= n < 100
  {
    [Digit(n / 10), Digit(n % 10)]
  }

  function YearText(year: int): string {
    if year < 0 then "-" + Pad(-year, 4) else Pad(year, 4)
  }

  /** Month to second. */
  function DateText(s: Stamp): (t: string)
    ensures |t| == 15
  {
    "-" + Two(s.month) + "-" + Two(s.day) + "T" + Two(s.hour) + ":" + Two(s.minute) + ":" + Two(s.second)
  }

  function NanoText(nano: nat): string
    requires nano < 1_000_000_000
  {
    if nano == 0 then "" else ['.'] + TrimZeros(Pad(nano, 9))
  }

  /** Whole minutes, rounded toward zero. */
  function ZoneMinutes(offset: int): int {
    if offset < 0 then -(-offset / 60) else offset / 60
  }

  function HoursText(h: nat): string {
    if h < 100 then Two(h) else Pad(h, 2)
  }

  function ZoneText(offset: int): string {
    var z := ZoneMinutes(offset);
    if offset == 0 then "Z"
    else if z < 0 then "-" + HoursText(-z / 60) + ":" + Two(-z % 60)
    else "+" + HoursText(z / 60) + ":" + Two(z % 60)
  }

  function Text(s: Stamp): string {
    YearText(s.year) + DateText(s) + (NanoText(s.nano) + ZoneText(s.offset))
  }

  function TwoDigits(t: string, i: nat): int
    requires i + 1 < |t|
  {
    10 * (t[i] as int - '0' as int) + (t[i + 1] as int - '0' as int)
  }

  /** The text ends in a zone, and that has not got two digits of hours below 24. */
  predicate HasBadZone(t: string)
    requires |t| >= 6
  {
    t[|t| - 1] != 'Z' && (IsDigit(t[|t| - 6]) || TwoDigits(t, |t| - 5) >= 24)
  }

  /** The text if the format has room for it: the fifth character must end the year, and the zone must
      not be a day off. Both checks are made on the text. */
  function Encode(s: Stamp): Option<string> {
    var t := Text(s);
    if t[4] != '-' || HasBadZone(t) then None else Some(t)
  }

  // ---- When a time has a text ----

  lemma TwoReadsBack(n: int)
    requires 0 <= n < 100
    ensures TwoDigits(Two(n), 0) == n && IsDigit(Two(n)[0]) && IsDigit(Two(n)[1])
  {}

  lemma YearIsFourDigitsIff(year: int)
    ensures |YearText(year)| >= 4
    ensures 0 <= year <= 9999 <==> |YearText(year)| == 4
    ensures 0 <= year <= 9999 ==> AllDigits(YearText(year)) && Number(YearText(year)) == year
    ensures |YearText(year)| > 4 ==> IsDigit(YearText(year)[4])
  {
    assert Pow10(4) == 10_000;
    PadReadsBack(if year < 0 then -year else year, 4);
  }

  lemma LongHours(h: nat)
    requires h >= 100
    ensures |HoursText(h)| >= 3 && AllDigits(HoursText(h))
  {
    assert Pow10(2) == 100;
    PadReadsBack(h, 2);
  }

  /** Six characters exactly for hours of two digits. */
  lemma ZoneTextIs(offset: int)
    requires offset != 0
    ensures var t, z := ZoneText(offset), ZoneMinutes(offset);
            var m := if z < 0 then -z else z;
            && |t| >= 6 && t[|t| - 1] != 'Z'
            && (m < 6000 ==> t == [if z < 0 then '-' else '+'] + Two(m / 60) + ":" + Two(m % 60))
            && (m >= 6000 ==> IsDigit(t[|t| - 6]))
  {
    var z := ZoneMinutes(offset);
    var m := if z < 0 then -z else z;
    TwoReadsBack(m % 60);
    if m >= 6000 {
      LongHours(m / 60);
      var t, h := ZoneText(offset), HoursText(m / 60);
      assert t == [if z < 0 then '-' else '+'] + h + ":" + Two(m % 60);
      assert t[|t| - 6] == h[|h| - 3];
    }
  }

  lemma TextEnds(s: Stamp)
    ensures var t, zone := Text(s), ZoneText(s.offset);
            && |t| >= 20 && t[|t| - |zone|..] == zone
            && (t[4] == '-' <==> 0 <= s.year <= 9999)
  {
    YearIsFourDigitsIff(s.year);
    if s.offset != 0 {
      ZoneTextIs(s.offset);
    }
    var t, year, date := Text(s), YearText(s.year), DateText(s);
    assert t[4] == if |year| > 4 then year[4] else date[0];
  }

  lemma BadZoneIff(offset: int)
    requires offset != 0
    ensures |ZoneText(offset)| >= 6
    ensures HasBadZone(ZoneText(offset)) <==> !(-86_400 < offset < 86_400)
  {
    var t, z := ZoneText(offset), ZoneMinutes(offset);
    var m := if z < 0 then -z else z;
    ZoneTextIs(offset);
    if m < 6000 {
      TwoReadsBack(m / 60);
      assert t[1] == Two(m / 60)[0] && t[2] == Two(m / 60)[1];
      assert TwoDigits(t, 1) == m / 60;
    }
  }

  lemma ZoneIsAtTheEnd(front: string, zone: string)
    requires |front| >= 6 && (|zone| >= 6 || zone == "Z")
    ensures HasBadZone(front + zone) <==> zone != "Z" && HasBadZone(zone)
  {
    var t := front + zone;
    assert t[|t| - 1] == zone[|zone| - 1];
    if |zone| >= 6 {
      assert t[|t| - 6] == zone[|zone| - 6] && t[|t| - 5] == zone[|zone| - 5] && t[|t| - 4] == zone[|zone| - 4];
    }
  }

  predicate HasText(s: Stamp) {
    0 <= s.year <= 9999 && -86_400 < s.offset < 86_400
  }

  /** A time has a text exactly if its year has four digits and its zone is less than a day off. */
  lemma EncodesIff(s: Stamp)
    ensures Encode(s).Some? <==> HasText(s)
  {
    TextEnds(s);
    var front := YearText(s.year) + DateText(s) + NanoText(s.nano);
    assert Text(s) == front + ZoneText(s.offset);
    if s.offset != 0 {
      BadZoneIff(s.offset);
    }
    YearIsFourDigitsIff(s.year);
    ZoneIsAtTheEnd(front, ZoneText(s.offset));
  }

  // ---- Reading a text back ----

  function ParseTwo(s: string, i: nat, low: int, high: int): Option<int>
    requires i + 1 < |s|
  {
    if IsDigit(s[i]) && IsDigit(s[i + 1]) && low <= TwoDigits(s, i) <= high then Some(TwoDigits(s, i)) else None
  }

  function ParseNano(s: string): (int, string) {
    if |s| >= 2 && s[0] == '.' && IsDigit(s[1])
    then var n := DigitsLen(s[1..]); (Places(s[1..][..n], 9), s[1..][n..])
    else (0, s)
  }

  function ParseZone(s: string): Option<int> {
    if s == "Z" then Some(0)
    else if |s| != 6 || s[0] !in {'+', '-'} || s[3] != ':' then None
    else
      var h :- ParseTwo(s, 1, 0, 23);
      var m :- ParseTwo(s, 4, 0, 59);
      Some(if s[0] == '-' then -(h * 60 + m) * 60 else (h * 60 + m) * 60)
  }

  function ParseDate(year: int, t: string): Option<Reading>
    requires |t| == 15
  {
    if t[0] != '-' || t[3] != '-' || t[6] != 'T' || t[9] != ':' || t[12] != ':' then None
    else
      var month :- ParseTwo(t, 1, 1, 12);
      var day :- ParseTwo(t, 4, 1, DaysIn(month, year));
      var hour :- ParseTwo(t, 7, 0, 23);
      var minute :- ParseTwo(t, 10, 0, 59);
      var second :- ParseTwo(t, 13, 0, 59);
      Some(Reading(year, month, day, hour, minute, second, 0, 0))
  }

  function Parse(t: string): Option<Reading> {
    if |t| < 19 || !AllDigits(t[..4]) then None
    else
      var date :- ParseDate(Number(t[..4]), t[4..19]);
      var (nano, zone) := ParseNano(t[19..]);
      var offset :- ParseZone(zone);
      Some(date.(nano := nano, offset := offset))
  }

  /** What a text keeps of a time: the seconds of the zone's offset are lost. */
  function WholeMinutes(s: Stamp): Stamp {
    s.(offset := ZoneMinutes(s.offset) * 60)
  }

  lemma PlacesReadBack(f: string, rest: string)
    requires f != "" && AllDigits(f) && (rest == "" || !IsDigit(rest[0]))
    ensures ParseNano(['.'] + (f + rest)) == (Places(f, 9), rest)
  {
    var s := ['.'] + (f + rest);
    DigitsEnd(f, rest);
    assert s[1..] == f + rest && s[1] == f[0];
    assert (f + rest)[..|f|] == f && (f + rest)[|f|..] == rest;
  }

  lemma PointFirst(f: string, rest: string)
    ensures ['.'] + f + rest == ['.'] + (f + rest)
  {}

  lemma NanoReadsBack(nano: nat, rest: string)
    requires nano < 1_000_000_000 && rest != "" && !IsDigit(rest[0]) && rest[0] != '.'
    ensures ParseNano(NanoText(nano) + rest) == (nano, rest)
  {
    if nano == 0 {
      assert NanoText(nano) + rest == rest;
    } else {
      NanoPlaces(nano);
      PlacesReadBack(TrimZeros(Pad(nano, 9)), rest);
      PointFirst(TrimZeros(Pad(nano, 9)), rest);
    }
  }

  lemma NanoPlaces(nano: nat)
    requires nano < 1_000_000_000
    ensures var f := TrimZeros(Pad(nano, 9));
            AllDigits(f) && |f| <= 9 && (nano > 0 ==> f != "") && Places(f, 9) == nano
  {
    NinePlaces();
    PadReadsBack(nano, 9);
    TrimmedReadsBack(Pad(nano, 9), 9);
  }

  lemma ZoneReadsBack(offset: int)
    requires -86_400 < offset < 86_400
    ensures ParseZone(ZoneText(offset)) == Some(ZoneMinutes(offset) * 60)
  {
    if offset != 0 {
      var z := ZoneMinutes(offset);
      var m := if z < 0 then -z else z;
      ZoneTextIs(offset);
      SignedZone(if z < 0 then '-' else '+', m / 60, m % 60);
    }
  }

  lemma SignedZone(sign: char, hours: nat, minutes: nat)
    requires sign in {'+', '-'} && hours < 24 && minutes < 60
    ensures ParseZone([sign] + Two(hours) + ":" + Two(minutes)) ==
              Some(if sign == '-' then -(hours * 60 + minutes) * 60 else (hours * 60 + minutes) * 60)
  {
    TwoReadsBack(hours);
    TwoReadsBack(minutes);
  }

  lemma DateReadsBack(s: Stamp)
    ensures ParseDate(s.year, DateText(s)) == Some(s.(nano := 0, offset := 0))
  {
    TwoReadsBack(s.month);
    TwoReadsBack(s.day);
    TwoReadsBack(s.hour);
    TwoReadsBack(s.minute);
    TwoReadsBack(s.second);
  }

  lemma EncodedReadsBack(s: Stamp)
    requires Encode(s).Some?
    ensures Parse(Encode(s).value) == Some(WholeMinutes(s))
  {
    EncodesIff(s);
    YearIsFourDigitsIff(s.year);
    DateReadsBack(s);
    if s.offset != 0 {
      ZoneTextIs(s.offset);
    }
    NanoReadsBack(s.nano, ZoneText(s.offset));
    ZoneReadsBack(s.offset);
    var t, year, date, tail := Text(s), YearText(s.year), DateText(s), NanoText(s.nano) + ZoneText(s.offset);
    assert t[..4] == year && t[4..19] == date && t[19..] == tail;
  }

  /** The instant survives exactly if the zone's offset has no seconds. */
  lemma WholeMinutesIff(s: Stamp)
    ensures Seconds(WholeMinutes(s)) == Seconds(s) <==> s.offset % 60 == 0
    ensures WholeMinutes(s) == s <==> s.offset % 60 == 0
  {}

  // ---- The text, character by character ----

  /** Where each part stands, what separates the parts, and what the digits mean. */
  lemma TextIs(s: Stamp)
    requires HasText(s)
    ensures var t := Text(s);
            && Encode(s) == Some(t) && |t| >= 20
            && AllDigits(t[..4]) && Number(t[..4]) == s.year
            && t[4] == '-' && TwoDigits(t, 5) == s.month && t[7] == '-' && TwoDigits(t, 8) == s.day
            && t[10] == 'T' && TwoDigits(t, 11) == s.hour && t[13] == ':' && TwoDigits(t, 14) == s.minute
            && t[16] == ':' && TwoDigits(t, 17) == s.second
  {
    EncodesIff(s);
    TextEnds(s);
    YearIsFourDigitsIff(s.year);
    var t, year, date := Text(s), YearText(s.year), DateText(s);
    assert t[..4] == year && t[4..19] == date;
    assert forall i :: 0 <= i < 15 ==> t[4 + i] == date[i];
    DateIs(s);
  }

  lemma DateIs(s: Stamp)
    ensures var t := DateText(s);
            && t[0] == '-' && TwoDigits(t, 1) == s.month && t[3] == '-' && TwoDigits(t, 4) == s.day
            && t[6] == 'T' && TwoDigits(t, 7) == s.hour && t[9] == ':' && TwoDigits(t, 10) == s.minute
            && t[12] == ':' && TwoDigits(t, 13) == s.second
  {}

  /** Behind the seconds: a point and the decimals of the second without trailing zeros, if there are any;
      then Z, or a sign, the hours and the minutes of the zone. */
  lemma TailIs(s: Stamp)
    requires HasText(s)
    ensures |Text(s)| >= 19
    ensures var t, places, zone := Text(s)[19..], NanoText(s.nano), ZoneText(s.offset);
            && t == places + zone
            && (s.nano == 0 ==> places == "")
            && (s.nano > 0 ==>
                  && 2 <= |places| <= 10 && places[0] == '.' && places[|places| - 1] != '0'
                  && AllDigits(places[1..]) && Places(places[1..], 9) == s.nano)
            && (s.offset == 0 ==> zone == "Z")
            && (s.offset != 0 ==>
                  && |zone| == 6 && zone[0] == (if ZoneMinutes(s.offset) < 0 then '-' else '+') && zone[3] == ':'
                  && ZoneMinutes(s.offset) ==
                       (if zone[0] == '-' then -1 else 1) * (TwoDigits(zone, 1) * 60 + TwoDigits(zone, 4)))
  {
    YearIsFourDigitsIff(s.year);
    var places := NanoText(s.nano);
    assert Text(s)[19..] == places + ZoneText(s.offset);
    if s.nano > 0 {
      NanoPlaces(s.nano);
      TrimmedEnds(Pad(s.nano, 9));
      assert places[1..] == TrimZeros(Pad(s.nano, 9));
    }
    if s.offset != 0 {
      ZoneIs(s.offset);
    }
  }

  lemma ZoneIs(offset: int)
    requires offset != 0 && -86_400 < offset < 86_400
    ensures var t, z := ZoneText(offset), ZoneMinutes(offset);
            && |t| == 6 && t[0] == (if z < 0 then '-' else '+') && t[3] == ':'
            && z == (if t[0] == '-' then -1 else 1) * (TwoDigits(t, 1) * 60 + TwoDigits(t, 4))
  {
    var z := ZoneMinutes(offset);
    var m := if z < 0 then -z else z;
    ZoneTextIs(offset);
    TwoReadsBack(m / 60);
    TwoReadsBack(m % 60);
    var t := ZoneText(offset);
    assert t[1] == Two(m / 60)[0] && t[2] == Two(m / 60)[1] && t[4] == Two(m % 60)[0] && t[5] == Two(m % 60)[1];
  }

  lemma {:induction false} TrimmedEnds(s: string)
    ensures var t := TrimZeros(s); t != "" ==> t[|t| - 1] != '0'
  {
    if s != "" && s[|s| - 1] == '0' {
      TrimmedEnds(s[..|s| - 1]);
    }
  }

  // ---- Length and characters ----

  predicate IsAscii(s: string) {
    forall i :: 0 <= i < |s| ==> s[i] as int < 0x80
  }

  /** Digits, and the characters that separate them. */
  predicate IsTimeText(s: string) {
    forall i :: 0 <= i < |s| ==> IsDigit(s[i]) || s[i] in {'-', '+', ':', '.', 'T', 'Z'}
  }

  lemma EncodedIsPlain(s: Stamp)
    requires Encode(s).Some?
    ensures 20 <= |Encode(s).value| <= 35 && IsTimeText(Encode(s).value) && IsAscii(Encode(s).value)
  {
    EncodesIff(s);
    YearIsFourDigitsIff(s.year);
    DateIsPlain(s);
    NanoIsPlain(s.nano);
    ZoneIsPlain(s.offset);
    BothTimeText(YearText(s.year), DateText(s));
    BothTimeText(NanoText(s.nano), ZoneText(s.offset));
    BothTimeText(YearText(s.year) + DateText(s), NanoText(s.nano) + ZoneText(s.offset));
  }

  lemma DateIsPlain(s: Stamp)
    ensures IsTimeText(DateText(s))
  {
    BothTimeText("-", Two(s.month));
    BothTimeText("-" + Two(s.month), "-");
    BothTimeText("-" + Two(s.month) + "-", Two(s.day));
    ClockIsPlain(s);
    assert DateText(s) == ("-" + Two(s.month) + "-" + Two(s.day)) + DateText(s)[6..];
    BothTimeText("-" + Two(s.month) + "-" + Two(s.day), DateText(s)[6..]);
  }

  lemma ClockIsPlain(s: Stamp)
    ensures IsTimeText(DateText(s)[6..])
  {
    assert DateText(s)[6..] == "T" + Two(s.hour) + ":" + Two(s.minute) + ":" + Two(s.second);
  }

  lemma NanoIsPlain(nano: nat)
    requires nano < 1_000_000_000
    ensures |NanoText(nano)| <= 10 && IsTimeText(NanoText(nano))
  {
    NanoPlaces(nano);
  }

  lemma BothTimeText(a: string, b: string)
    requires IsTimeText(a) && IsTimeText(b)
    ensures IsTimeText(a + b)
  {}

  lemma ZoneIsPlain(offset: int)
    requires -86_400 < offset < 86_400
    ensures 1 <= |ZoneText(offset)| <= 6 && IsTimeText(ZoneText(offset))
  {
    if offset != 0 {
      ZoneTextIs(offset);
    }
  }
}

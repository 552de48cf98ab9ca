/** Aware timestamps, their ISO-8601 text, and the UTC normalisation every packet check relies on. */
module Timestamps {
  import opened Outcomes
  import opened Text
  import opened Calendar

  /** What `datetime.fromisoformat` yields: local fields, with or without an offset east of UTC. */
  datatype Stamp =
    | Naive(local: DateTime)
    | Aware(local: DateTime, offset: int)  // microseconds, strictly within a day of zero

  predicate ValidStamp(s: Stamp) {
    ValidDateTime(s.local) && (s.Aware? ==> -DAY < s.offset < DAY)
  }

  predicate ValidAware(s: Stamp) {
    s.Aware? && ValidStamp(s)
  }

  /** The moment an aware timestamp denotes, in microseconds of UTC. */
  function Instant(s: Stamp): int
    requires ValidAware(s)
  {
    Micros(s.local) - s.offset
  }

  function Utc(u: int): (s: Stamp)
    requires Representable(u)
    ensures ValidAware(s) && s.offset == 0 && Instant(s) == u
  {
    Aware(FromMicros(u), 0)
  }

  /** Conversion to UTC: refuses naive stamps, overflows outside years 1 to 9999. */
  function Canonicalize(s: Stamp): (r: Outcome<Stamp>)
    requires ValidStamp(s)
    ensures r.Returns? <==> s.Aware? && Representable(Instant(s))
    ensures r.Returns? ==> ValidAware(r.value) && r.value.offset == 0 && Instant(r.value) == Instant(s)
    ensures r.Returns? <==> s.Aware? && Representable(Micros(s.local) - s.offset)
    ensures r.Returns? ==> Micros(r.value.local) + s.offset == Micros(s.local)
    ensures r.Raises? ==> r.error == if s.Naive? then ValueError else OverflowError
  {
    if s.Naive? then Raises(ValueError)
    else if !Representable(Instant(s)) then Raises(OverflowError)
    else Returns(Utc(Instant(s)))
  }

  /** Timestamps already in UTC convert to themselves; none of them overflows. */
  lemma CanonicalizeKeepsUtc(t: DateTime)
    requires ValidDateTime(t)
    ensures Canonicalize(Aware(t, 0)) == Returns(Aware(t, 0))
  {
    MicrosInRange(t);
    UtcOfMoment(t, Micros(t));
  }

  lemma UtcOfMoment(t: DateTime, u: int)
    requires ValidDateTime(t) && Representable(u) && FromMicros(u) == t
    ensures Utc(u) == Aware(t, 0)
  {
  }

  /** The result is the one date-time from which the written local time is `offset` ahead. */
  lemma CanonicalizeIs(s: Stamp, t: DateTime)
    requires ValidAware(s) && ValidDateTime(t)
    ensures Canonicalize(s) == Returns(Aware(t, 0)) <==> Micros(t) + s.offset == Micros(s.local)
  {
    if Micros(t) + s.offset == Micros(s.local) {
      MicrosInRange(t);
      CanonicalizeTo(s, t, Micros(t));
    }
  }

  lemma CanonicalizeTo(s: Stamp, t: DateTime, u: int)
    requires ValidAware(s) && ValidDateTime(t) && Representable(u) && FromMicros(u) == t && Instant(s) == u
    ensures Canonicalize(s) == Returns(Aware(t, 0))
  {
    UtcOfMoment(t, u);
  }

  // ---------- Text form ----------

  lemma Widths()
    ensures Pow10(2) == 100 && Pow10(4) == 10_000 && Pow10(6) == 1_000_000
  {
    assert Pow10(1) == 10 && Pow10(3) == 1000 && Pow10(5) == 100_000;
  }

  function Field(n: nat, w: nat, separator: string, rest: string): string
    requires n < Pow10(w)
  {
    Digits(n, w) + (separator + rest)
  }

  function DateTimeText(t: DateTime, rest: string): string
    requires ValidDateTime(t)
  {
    Widths();
    Field(t.date.year, 4, "-", Field(t.date.month, 2, "-", Field(t.date.day, 2, "T",
      Field(t.hour, 2, ":", Field(t.minute, 2, ":", Field(t.second, 2, "", rest))))))
  }

  /** The fraction is dropped when it is zero. */
  function FractionText(micro: int, rest: string): string
    requires 0 <= micro < SECOND
  {
    Widths();
    if micro == 0 then rest else "." + Field(micro, 6, "", rest)
  }

  /** The seconds of an offset are dropped when the offset is whole minutes. */
  function OffsetSecondsText(r: int): string
    requires 0 <= r < MINUTE
  {
    Widths();
    if r == 0 then "" else ":" + Field(r / SECOND, 2, "", FractionText(r % SECOND, ""))
  }

  function SignedText(sign: char, hours: int, minutes: int, seconds: int): string
    requires 0 <= hours < 24 && 0 <= minutes < 60 && 0 <= seconds < MINUTE
  {
    Widths();
    [sign] + Field(hours, 2, ":", Field(minutes, 2, "", OffsetSecondsText(seconds)))
  }

  function OffsetText(offset: int): string
    requires -DAY < offset < DAY
  {
    var a := if offset < 0 then -offset else offset;
    SplitTimeOfDay(a);
    SignedText(if offset < 0 then '-' else '+', a / HOUR, a % HOUR / MINUTE, a % MINUTE)
  }

  /** Python's `isoformat`. */
  function IsoFormat(s: Stamp): string
    requires ValidStamp(s)
  {
    DateTimeText(s.local, FractionText(s.local.micro, if s.Naive? then "" else OffsetText(s.offset)))
  }

  // ---------- The layout of the text ----------

  lemma FieldSplits(n: nat, w: nat, separator: string, rest: string)
    requires n < Pow10(w)
    ensures var text := Field(n, w, separator, rest);
            && |text| == w + |separator| + |rest| && text[..w] == Digits(n, w)
            && text[w..w + |separator|] == separator && text[w + |separator|..] == rest
  {
    assert Field(n, w, separator, rest) == Digits(n, w) + (separator + rest);
  }

  /** A slice behind position `k` is a slice of what stands there. */
  lemma TailSlice(s: string, k: nat, tail: string, i: nat, j: nat)
    requires k <= |s| && s[k..] == tail && i <= j <= |tail|
    ensures s[k + i..k + j] == tail[i..j]
  {
    assert forall n :: i <= n < j ==> s[k..][n] == s[k + n];
  }

  lemma TailOfTail(s: string, k: nat, tail: string, i: nat)
    requires k <= |s| && s[k..] == tail && i <= |tail|
    ensures s[k + i..] == tail[i..]
  {
    assert forall n :: i <= n < |tail| ==> s[k..][n] == s[k + n];
  }

  /** Year, month and day behind '-' and before 'T'. */
  lemma DateLayout(t: DateTime, rest: string)
    requires ValidDateTime(t) && Pow10(2) == 100 && Pow10(4) == 10_000
    ensures var text := DateTimeText(t, rest);
            && |text| == 19 + |rest|
            && text[..4] == Digits(t.date.year, 4) && text[4..5] == "-"
            && text[5..7] == Digits(t.date.month, 2) && text[7..8] == "-"
            && text[8..10] == Digits(t.date.day, 2) && text[10..11] == "T"
            && text[11..] == ClockText(t, rest)
  {
    var clock := ClockText(t, rest);
    var day := Field(t.date.day, 2, "T", clock);
    var month := Field(t.date.month, 2, "-", day);
    var text := Field(t.date.year, 4, "-", month);
    ClockLayout(t, rest);
    FieldSplits(t.date.day, 2, "T", clock);
    FieldSplits(t.date.month, 2, "-", day);
    FieldSplits(t.date.year, 4, "-", month);
    TailSlice(text, 5, month, 0, 2);
    TailSlice(text, 5, month, 2, 3);
    TailOfTail(text, 5, month, 3);
    TailSlice(text, 8, day, 0, 2);
    TailSlice(text, 8, day, 2, 3);
    TailOfTail(text, 8, day, 3);
  }

  function ClockText(t: DateTime, rest: string): string
    requires ValidDateTime(t) && Pow10(2) == 100
  {
    Field(t.hour, 2, ":", Field(t.minute, 2, ":", Field(t.second, 2, "", rest)))
  }

  /** Hour, minute and second behind ':'. */
  lemma ClockLayout(t: DateTime, rest: string)
    requires ValidDateTime(t) && Pow10(2) == 100
    ensures var text := ClockText(t, rest);
            && |text| == 8 + |rest|
            && text[..2] == Digits(t.hour, 2) && text[2..3] == ":"
            && text[3..5] == Digits(t.minute, 2) && text[5..6] == ":"
            && text[6..8] == Digits(t.second, 2) && text[8..] == rest
  {
    var second := Field(t.second, 2, "", rest);
    var minute := Field(t.minute, 2, ":", second);
    var text := Field(t.hour, 2, ":", minute);
    FieldSplits(t.second, 2, "", rest);
    FieldSplits(t.minute, 2, ":", second);
    FieldSplits(t.hour, 2, ":", minute);
    TailSlice(text, 3, minute, 0, 2);
    TailSlice(text, 3, minute, 2, 3);
    TailOfTail(text, 3, minute, 3);
    TailSlice(text, 6, second, 0, 2);
    TailOfTail(text, 6, second, 2);
  }

  /** After the second, a fraction of six digits unless it is zero, then the zone. */
  lemma FractionLayout(micro: int, zone: string)
    requires 0 <= micro < SECOND && Pow10(6) == 1_000_000
    ensures FractionText(micro, zone) == if micro == 0 then zone else "." + Digits(micro, 6) + zone
  {
    if micro > 0 { assert "." + Digits(micro, 6) + zone == "." + (Digits(micro, 6) + ("" + zone)); }
  }

  /** The zone: its sign, hours and minutes east of UTC, and seconds only where they are not zero. */
  lemma ZoneLayout(offset: int)
    requires -DAY < offset < DAY && Pow10(2) == 100
    ensures var zone, a := OffsetText(offset), if offset < 0 then -offset else offset;
            && 0 <= a / HOUR < 100 && 0 <= a % HOUR / MINUTE < 100
            && |zone| >= 6 && (a % MINUTE == 0 <==> |zone| == 6)
            && zone[..1] == (if offset < 0 then "-" else "+")
            && zone[1..3] == Digits(a / HOUR, 2) && zone[3..4] == ":" && zone[4..6] == Digits(a % HOUR / MINUTE, 2)
  {
    var a := if offset < 0 then -offset else offset;
    var sign := if offset < 0 then '-' else '+';
    SplitTimeOfDay(a);
    SignedLayout(sign, a / HOUR, a % HOUR / MINUTE, a % MINUTE);
  }

  lemma SignedLayout(sign: char, hours: int, minutes: int, seconds: int)
    requires 0 <= hours < 24 && 0 <= minutes < 60 && 0 <= seconds < MINUTE && Pow10(2) == 100
    ensures var zone := SignedText(sign, hours, minutes, seconds);
            && |zone| >= 6 && (seconds == 0 <==> |zone| == 6) && zone[..1] == [sign]
            && zone[1..3] == Digits(hours, 2) && zone[3..4] == ":" && zone[4..6] == Digits(minutes, 2)
  {
    var tail := OffsetSecondsText(seconds);
    FieldSplits(minutes, 2, "", tail);
    FieldSplits(hours, 2, ":", Field(minutes, 2, "", tail));
    TailLength(seconds);
    SignedParts([sign], Field(hours, 2, ":", Field(minutes, 2, "", tail)), Field(minutes, 2, "", tail));
  }

  lemma TailLength(seconds: int)
    requires 0 <= seconds < MINUTE
    ensures OffsetSecondsText(seconds) == "" <==> seconds == 0
  {
  }

  lemma SignedParts(sign: string, hour: string, minute: string)
    requires |sign| == 1 && |hour| == 3 + |minute| && |minute| >= 2 && hour[3..] == minute
    ensures var zone := sign + hour;
            && zone[..1] == sign && zone[1..3] == hour[..2] && zone[3..4] == hour[2..3] && zone[4..6] == minute[..2]
  {
  }

  /** The zone part of the text. */
  function ZoneText(s: Stamp): string
    requires ValidStamp(s)
  {
    if s.Naive? then "" else OffsetText(s.offset)
  }

  /** Where each field stands in the printed text, and what separates it from the next. */
  lemma IsoLayout(s: Stamp)
    requires ValidStamp(s)
    ensures Pow10(2) == 100 && Pow10(4) == 10_000 && Pow10(6) == 1_000_000
    ensures var text, t := IsoFormat(s), s.local;
            && |text| >= 19
            && text[..4] == Digits(t.date.year, 4) && text[4..5] == "-"
            && text[5..7] == Digits(t.date.month, 2) && text[7..8] == "-"
            && text[8..10] == Digits(t.date.day, 2) && text[10..11] == "T"
            && text[11..13] == Digits(t.hour, 2) && text[13..14] == ":"
            && text[14..16] == Digits(t.minute, 2) && text[16..17] == ":"
            && text[17..19] == Digits(t.second, 2)
            && text[19..] == if t.micro == 0 then ZoneText(s) else "." + Digits(t.micro, 6) + ZoneText(s)
  {
    Widths();
    LayoutWith(s.local, FractionText(s.local.micro, ZoneText(s)));
    FractionLayout(s.local.micro, ZoneText(s));
  }

  lemma LayoutWith(t: DateTime, rest: string)
    requires ValidDateTime(t) && Pow10(2) == 100 && Pow10(4) == 10_000
    ensures var text := DateTimeText(t, rest);
            && |text| == 19 + |rest|
            && text[..4] == Digits(t.date.year, 4) && text[4..5] == "-"
            && text[5..7] == Digits(t.date.month, 2) && text[7..8] == "-"
            && text[8..10] == Digits(t.date.day, 2) && text[10..11] == "T"
            && text[11..13] == Digits(t.hour, 2) && text[13..14] == ":"
            && text[14..16] == Digits(t.minute, 2) && text[16..17] == ":"
            && text[17..19] == Digits(t.second, 2) && text[19..] == rest
  {
    var text, clock := DateTimeText(t, rest), ClockText(t, rest);
    DateLayout(t, rest);
    ClockLayout(t, rest);
    TailSlice(text, 11, clock, 0, 2);
    TailSlice(text, 11, clock, 2, 3);
    TailSlice(text, 11, clock, 3, 5);
    TailSlice(text, 11, clock, 5, 6);
    TailSlice(text, 11, clock, 6, 8);
    TailOfTail(text, 11, clock, 8);
  }

  // ---------- Reading it back ----------

  function ReadField(s: string, w: nat, separator: string): Option<(nat, string)> {
    if |s| < w + |separator| then None
    else
      var n :- ReadDigits(s, w);
      if s[w..w + |separator|] == separator then Some((n, s[w + |separator|..])) else None
  }

  function ReadDateTime(s: string): Option<(seq<nat>, string)> {
    var (year, r1) :- ReadField(s, 4, "-");
    var (month, r2) :- ReadField(r1, 2, "-");
    var (day, r3) :- ReadField(r2, 2, "T");
    var (hour, r4) :- ReadField(r3, 2, ":");
    var (minute, r5) :- ReadField(r4, 2, ":");
    var (second, r6) :- ReadField(r5, 2, "");
    Some(([year, month, day, hour, minute, second], r6))
  }

  function ReadFraction(s: string): Option<(nat, string)> {
    if s != "" && s[0] == '.' then ReadField(s[1..], 6, "") else Some((0, s))
  }

  function ReadOffset(s: string): Option<int> {
    var (sign, hours, minutes, seconds) :- ReadOffsetParts(s);
    var a := hours * HOUR + minutes * MINUTE + seconds;
    if minutes < 60 && a < DAY then Some(if sign == '-' then -a else a) else None
  }

  function ReadOffsetParts(s: string): Option<(char, nat, nat, int)> {
    if s == "" || (s[0] != '+' && s[0] != '-') then None
    else
      var (hours, r1) :- ReadField(s[1..], 2, ":");
      var (minutes, r2) :- ReadField(r1, 2, "");
      var seconds :- ReadOffsetSeconds(r2);
      Some((s[0], hours, minutes, seconds))
  }

  function ReadOffsetSeconds(s: string): Option<int> {
    if s == "" then Some(0)
    else if s[0] != ':' then None
    else
      var (seconds, r1) :- ReadField(s[1..], 2, "");
      var (micro, r2) :- ReadFraction(r1);
      if seconds < 60 && r2 == "" then Some(seconds * SECOND + micro) else None
  }

  /** `datetime.fromisoformat` on the texts `isoformat` prints. */
  function ReadIso(text: string): (r: Option<Stamp>)
    ensures r.Some? ==> ValidStamp(r.value)
  {
    var (f, r1) :- ReadDateTime(text);
    var (micro, r2) :- ReadFraction(r1);
    var t := DateTime(Date(f[0], f[1], f[2]), f[3], f[4], f[5], micro);
    if !ValidDateTime(t) then None
    else if r2 == "" then Some(Naive(t))
    else
      var offset :- ReadOffset(r2);
      if -DAY < offset < DAY then Some(Aware(t, offset)) else None
  }

  lemma FieldRead(n: nat, w: nat, separator: string, rest: string)
    requires n < Pow10(w)
    ensures ReadField(Field(n, w, separator, rest), w, separator) == Some((n, rest))
  {
    DigitsRead(n, w, separator + rest);
    var s := Field(n, w, separator, rest);
    assert s[w..] == separator + rest;
    assert s[w..w + |separator|] == separator && s[w + |separator|..] == rest;
  }

  lemma DateTimeRead(t: DateTime, rest: string)
    requires ValidDateTime(t)
    ensures ReadDateTime(DateTimeText(t, rest)) ==
            Some(([t.date.year, t.date.month, t.date.day, t.hour, t.minute, t.second], rest))
  {
    Widths();
    var t6 := Field(t.second, 2, "", rest);
    var t5 := Field(t.minute, 2, ":", t6);
    var t4 := Field(t.hour, 2, ":", t5);
    var t3 := Field(t.date.day, 2, "T", t4);
    var t2 := Field(t.date.month, 2, "-", t3);
    FieldRead(t.second, 2, "", rest);
    FieldRead(t.minute, 2, ":", t6);
    FieldRead(t.hour, 2, ":", t5);
    FieldRead(t.date.day, 2, "T", t4);
    FieldRead(t.date.month, 2, "-", t3);
    FieldRead(t.date.year, 4, "-", t2);
  }

  lemma FractionRead(micro: int, rest: string)
    requires 0 <= micro < SECOND
    requires rest == "" || rest[0] != '.'
    ensures ReadFraction(FractionText(micro, rest)) == Some((micro, rest))
  {
    Widths();
    if micro > 0 {
      FieldRead(micro, 6, "", rest);
      assert ("." + Field(micro, 6, "", rest))[1..] == Field(micro, 6, "", rest);
    }
  }

  lemma OffsetSecondsRead(r: int)
    requires 0 <= r < MINUTE
    ensures ReadOffsetSeconds(OffsetSecondsText(r)) == Some(r)
  {
    if r > 0 {
      Widths();
      var seconds := Field(r / SECOND, 2, "", FractionText(r % SECOND, ""));
      assert (":" + seconds)[1..] == seconds;
      FieldRead(r / SECOND, 2, "", FractionText(r % SECOND, ""));
      FractionRead(r % SECOND, "");
    }
  }

  lemma SignedRead(sign: char, hours: int, minutes: int, seconds: int)
    requires 0 <= hours < 24 && 0 <= minutes < 60 && 0 <= seconds < MINUTE
    requires sign == '+' || sign == '-'
    ensures ReadOffsetParts(SignedText(sign, hours, minutes, seconds)) == Some((sign, hours, minutes, seconds))
  {
    Widths();
    var tail := OffsetSecondsText(seconds);
    var rest := Field(minutes, 2, "", tail);
    var text := SignedText(sign, hours, minutes, seconds);
    assert text[0] == sign && text[1..] == Field(hours, 2, ":", rest);
    FieldRead(hours, 2, ":", rest);
    FieldRead(minutes, 2, "", tail);
    OffsetSecondsRead(seconds);
  }

  lemma OffsetRead(offset: int)
    requires -DAY < offset < DAY
    ensures ReadOffset(OffsetText(offset)) == Some(offset)
  {
    var a := if offset < 0 then -offset else offset;
    var h, m, r := a / HOUR, a % HOUR / MINUTE, a % MINUTE;
    OffsetParts(a);
    var sign := if offset < 0 then '-' else '+';
    assert OffsetText(offset) == SignedText(sign, h, m, r);
    SignedRead(sign, h, m, r);
  }

  lemma OffsetParts(a: int)
    requires 0 <= a < DAY
    ensures a / HOUR * HOUR + a % HOUR / MINUTE * MINUTE + a % MINUTE == a
    ensures a % HOUR / MINUTE < 60
  {
    SplitTimeOfDay(a);
    assert a % MINUTE == a % MINUTE / SECOND * SECOND + a % SECOND;
  }

  /** Round trip: `fromisoformat` inverts `isoformat` on every timestamp, naive or aware. */
  lemma IsoRoundTrip(s: Stamp)
    requires ValidStamp(s)
    ensures ReadIso(IsoFormat(s)) == Some(s)
  {
    var zone := if s.Naive? then "" else OffsetText(s.offset);
    DateTimeRead(s.local, FractionText(s.local.micro, zone));
    FractionRead(s.local.micro, zone);
    if s.Aware? { OffsetRead(s.offset); }
  }

  // ---------- Normalised text ----------

  /** The text every representable moment normalises to. */
  function CanonicalText(u: int): string
    requires Representable(u)
  {
    IsoFormat(Utc(u))
  }

  /** Parse, convert to UTC, print. */
  function Normalize(text: string): (r: Outcome<string>)
    ensures r.Raises? ==> r.error == ValueError || r.error == OverflowError
  {
    var parsed := ReadIso(text);
    if parsed.None? then Raises(ValueError)
    else
      var utc :- Canonicalize(parsed.value);
      Returns(IsoFormat(utc))
  }

  /** On printed timestamps, normalising subtracts the offset and prints the result at offset zero. */
  lemma NormalizePrinted(s: Stamp)
    requires ValidStamp(s)
    ensures Normalize(IsoFormat(s)) ==
            match Canonicalize(s)
            case Returns(utc) => Returns(IsoFormat(utc))
            case Raises(e) => Raises(e)
  {
    IsoRoundTrip(s);
  }

  /** The text is an aware timestamp, whatever moment it denotes. */
  predicate AwareText(text: string) {
    ReadIso(text).Some? && ReadIso(text).value.Aware?
  }

  /** An aware text whose moment in UTC falls before year 1 or after year 9999. */
  predicate OutOfRange(text: string) {
    AwareText(text) && !Representable(Instant(ReadIso(text).value))
  }

  /** The moment an aware text denotes, when it has one in range. */
  function MomentOf(text: string): (r: Option<int>)
    ensures r.Some? ==> Representable(r.value)
  {
    var s :- ReadIso(text);
    if s.Aware? && Representable(Instant(s)) then Some(Instant(s)) else None
  }

  lemma PrintedOutOfRange(s: Stamp)
    requires ValidAware(s) && !Representable(Instant(s))
    ensures OutOfRange(IsoFormat(s))
  {
    IsoRoundTrip(s);
  }

  lemma PrintedNotEmpty(s: Stamp)
    requires ValidStamp(s)
    ensures IsoFormat(s) != ""
  {
    Widths();
    assert |Digits(s.local.date.year, 4)| == 4;
  }

  /** 0001-01-01T00:00:00+01:00 falls before year 1. */
  lemma FirstHourOutOfRange() returns (text: string)
    ensures OutOfRange(text) && text != ""
  {
    var s := Aware(FromMicros(FIRST_MICRO), HOUR);
    PrintedOutOfRange(s);
    PrintedNotEmpty(s);
    text := IsoFormat(s);
  }

  lemma FieldOrder(a: nat, b: nat, w: nat, separator: string, x: string, y: string)
    requires a < Pow10(w) && b < Pow10(w)
    ensures Less(Field(a, w, separator, x), Field(b, w, separator, y)) <==> a < b || (a == b && Less(x, y))
  {
    DigitsOrder(a, b, w, separator + x, separator + y);
    LessAfterPrefix(separator, x, y);
  }

  /** Printed date-times order by their fields, then by the text that follows. */
  lemma DateTimeTextOrder(a: DateTime, b: DateTime, x: string, y: string)
    requires ValidDateTime(a) && ValidDateTime(b)
    requires Less(x, y) <==> a.micro < b.micro
    ensures Less(DateTimeText(a, x), DateTimeText(b, y)) <==> Before(a, b)
  {
    Widths();
    var x6, y6 := Field(a.second, 2, "", x), Field(b.second, 2, "", y);
    var x5, y5 := Field(a.minute, 2, ":", x6), Field(b.minute, 2, ":", y6);
    var x4, y4 := Field(a.hour, 2, ":", x5), Field(b.hour, 2, ":", y5);
    var x3, y3 := Field(a.date.day, 2, "T", x4), Field(b.date.day, 2, "T", y4);
    var x2, y2 := Field(a.date.month, 2, "-", x3), Field(b.date.month, 2, "-", y3);
    FieldOrder(a.second, b.second, 2, "", x, y);
    FieldOrder(a.minute, b.minute, 2, ":", x6, y6);
    FieldOrder(a.hour, b.hour, 2, ":", x5, y5);
    FieldOrder(a.date.day, b.date.day, 2, "T", x4, y4);
    FieldOrder(a.date.month, b.date.month, 2, "-", x3, y3);
    FieldOrder(a.date.year, b.date.year, 4, "-", x2, y2);
  }

  /** A text without a fraction continues with '+', which sorts before the '.' of one that has a fraction. */
  lemma FractionOrder(a: int, b: int)
    requires 0 <= a < SECOND && 0 <= b < SECOND
    ensures Less(FractionText(a, OffsetText(0)), FractionText(b, OffsetText(0))) <==> a < b
  {
    Widths();
    var zone := OffsetText(0);
    assert zone[0] == '+';
    if a > 0 && b > 0 {
      LessAfterChar('.', '.', Field(a, 6, "", zone), Field(b, 6, "", zone));
      FieldOrder(a, b, 6, "", zone, zone);
    }
    LessTrichotomy(zone, zone);
  }

  /** Canonical texts sort as strings exactly as their moments sort in time. */
  lemma CanonicalTextOrder(u: int, v: int)
    requires Representable(u) && Representable(v)
    ensures Less(CanonicalText(u), CanonicalText(v)) <==> u < v
    ensures CanonicalText(u) == CanonicalText(v) <==> u == v
  {
    var a, b := FromMicros(u), FromMicros(v);
    FractionOrder(a.micro, b.micro);
    DateTimeTextOrder(a, b, FractionText(a.micro, OffsetText(0)), FractionText(b.micro, OffsetText(0)));
    MicrosOrder(a, b);
    IsoRoundTrip(Utc(u));
    IsoRoundTrip(Utc(v));
  }

  /** Normalising succeeds exactly on texts with a moment in range, and prints that moment. */
  lemma NormalizePrintsMoment(text: string)
    ensures MomentOf(text).Some? <==> AwareText(text) && !OutOfRange(text)
    ensures Normalize(text) == Raises(ValueError) <==> !AwareText(text)
    ensures Normalize(text) == Raises(OverflowError) <==> OutOfRange(text)
    ensures Normalize(text).Returns? <==> MomentOf(text).Some?
    ensures Normalize(text).Returns? ==> Normalize(text).value == CanonicalText(MomentOf(text).value)
  {
  }

  lemma CanonicalTextRead(u: int)
    requires Representable(u)
    ensures MomentOf(CanonicalText(u)) == Some(u)
  {
    IsoRoundTrip(Utc(u));
  }

  lemma {:induction false} DigitsOnly(n: nat, w: nat, c: char)
    requires n < Pow10(w) && c in Digits(n, w)
    ensures '0' <= c <= '9'
  {
    if w > 0 && c != Digit(n % 10) { DigitsOnly(n / 10, w - 1, c); }
  }

  lemma FieldWithout(n: nat, w: nat, separator: string, rest: string, c: char)
    requires n < Pow10(w) && c !in separator && c !in rest && !('0' <= c <= '9')
    ensures c !in Field(n, w, separator, rest)
  {
    if c in Digits(n, w) { DigitsOnly(n, w, c); }
  }

  lemma DateTimeHasNoZulu(t: DateTime, zone: string)
    requires ValidDateTime(t) && 'Z' !in zone
    ensures 'Z' !in DateTimeText(t, FractionText(t.micro, zone))
  {
    Widths();
    var tail := FractionText(t.micro, zone);
    FieldWithout(t.micro, 6, "", zone, 'Z');
    var t6 := Field(t.second, 2, "", tail);
    var t5 := Field(t.minute, 2, ":", t6);
    var t4 := Field(t.hour, 2, ":", t5);
    var t3 := Field(t.date.day, 2, "T", t4);
    var t2 := Field(t.date.month, 2, "-", t3);
    FieldWithout(t.second, 2, "", tail, 'Z');
    FieldWithout(t.minute, 2, ":", t6, 'Z');
    FieldWithout(t.hour, 2, ":", t5, 'Z');
    FieldWithout(t.date.day, 2, "T", t4, 'Z');
    FieldWithout(t.date.month, 2, "-", t3, 'Z');
    FieldWithout(t.date.year, 4, "-", t2, 'Z');
  }

  lemma UtcZone()
    ensures OffsetText(0) == "+00:00"
  {
    Widths();
    assert Digits(0, 2) == "00" by { assert Digits(0, 1) == Digits(0, 0) + "0"; }
    assert SignedText('+', 0, 0, 0) == "+00:00" by { assert OffsetSecondsText(0) == "" && "00" + ("" + "") == "00"; }
  }

  /** Canonical texts spell their zone as an offset, never as 'Z'. */
  lemma CanonicalTextHasNoZulu(u: int)
    requires Representable(u)
    ensures 'Z' !in CanonicalText(u)
  {
    UtcZone();
    DateTimeHasNoZulu(FromMicros(u), OffsetText(0));
  }

  /** Reading a normalised text gives the same moment, so normalising again changes nothing. */
  lemma NormalizeIdempotent(text: string)
    requires Normalize(text).Returns?
    ensures var n := Normalize(text).value;
            MomentOf(n) == MomentOf(text) && Normalize(n) == Returns(n)
  {
    NormalizePrintsMoment(text);
    CanonicalTextRead(MomentOf(text).value);
    NormalizePrintsMoment(Normalize(text).value);
  }

  /** Comparing normalised texts as strings is comparing moments, whatever offsets were written. */
  lemma NormalizedOrderIsTimeOrder(a: string, b: string)
    requires Normalize(a).Returns? && Normalize(b).Returns?
    ensures Less(Normalize(a).value, Normalize(b).value) <==> MomentOf(a).value < MomentOf(b).value
    ensures Normalize(a) == Normalize(b) <==> MomentOf(a) == MomentOf(b)
  {
    NormalizePrintsMoment(a);
    NormalizePrintsMoment(b);
    CanonicalTextOrder(MomentOf(a).value, MomentOf(b).value);
  }

  /** The same for timestamps as values, at any offset down to the microsecond. */
  lemma CanonicalizedOrderIsTimeOrder(a: Stamp, b: Stamp)
    requires ValidStamp(a) && ValidStamp(b) && Canonicalize(a).Returns? && Canonicalize(b).Returns?
    ensures var x, y := IsoFormat(Canonicalize(a).value), IsoFormat(Canonicalize(b).value);
            && (Less(x, y) <==> Instant(a) < Instant(b))
            && (x == y <==> Instant(a) == Instant(b))
  {
    CanonicalTextOrder(Instant(a), Instant(b));
  }

  // ---------- Times written without an offset ----------

  /** Python's `replace("Z", "+00:00")`. */
  function ExpandZulu(s: string): string {
    if s == "" then "" else (if s[0] == 'Z' then "+00:00" else [s[0]]) + ExpandZulu(s[1..])
  }

  lemma {:induction false} ExpandNothing(s: string)
    requires 'Z' !in s
    ensures ExpandZulu(s) == s
  {
    if s != "" {
      ExpandNothing(s[1..]);
      assert s == [s[0]] + s[1..];
    }
  }

  lemma {:induction false} ExpandLast(a: string)
    requires 'Z' !in a
    ensures ExpandZulu(a + "Z") == a + "+00:00"
  {
    if a == "" {
      assert ExpandZulu("Z") == "+00:00" + ExpandZulu("Z"[1..]);
    } else {
      assert (a + "Z")[1..] == a[1..] + "Z";
      ExpandLast(a[1..]);
      assert a == [a[0]] + a[1..];
    }
  }

  lemma DateTimeAppend(t: DateTime, rest: string, zone: string)
    requires ValidDateTime(t)
    ensures DateTimeText(t, rest + zone) == DateTimeText(t, rest) + zone
  {
    Widths();
    var t6 := Field(t.second, 2, "", rest);
    var t5 := Field(t.minute, 2, ":", t6);
    var t4 := Field(t.hour, 2, ":", t5);
    var t3 := Field(t.date.day, 2, "T", t4);
    var t2 := Field(t.date.month, 2, "-", t3);
    FieldAppend(t.second, 2, "", rest, zone);
    FieldAppend(t.minute, 2, ":", t6, zone);
    FieldAppend(t.hour, 2, ":", t5, zone);
    FieldAppend(t.date.day, 2, "T", t4, zone);
    FieldAppend(t.date.month, 2, "-", t3, zone);
    FieldAppend(t.date.year, 4, "-", t2, zone);
  }

  lemma FieldAppend(n: nat, w: nat, separator: string, rest: string, more: string)
    requires n < Pow10(w)
    ensures Field(n, w, separator, rest + more) == Field(n, w, separator, rest) + more
  {
    assert Digits(n, w) + (separator + (rest + more)) == Digits(n, w) + (separator + rest) + more;
  }

  lemma FractionAppend(micro: int, zone: string)
    requires 0 <= micro < SECOND
    ensures FractionText(micro, zone) == FractionText(micro, "") + zone
  {
    Widths();
    if micro > 0 { assert "" + zone == zone && "." + (Digits(micro, 6) + zone) == "." + Digits(micro, 6) + zone; }
  }

  /** A time printed without an offset and followed by 'Z' is that time in UTC. */
  lemma ZuluIsUtc(t: DateTime)
    requires ValidDateTime(t)
    ensures ReadIso(ExpandZulu(IsoFormat(Naive(t)) + "Z")) == Some(Aware(t, 0))
  {
    var text := IsoFormat(Naive(t));
    DateTimeHasNoZulu(t, "");
    ExpandLast(text);
    UtcZone();
    FractionAppend(t.micro, "+00:00");
    DateTimeAppend(t, FractionText(t.micro, ""), "+00:00");
    IsoRoundTrip(Aware(t, 0));
  }

  /** The local zone of the machine: the offset east of UTC, in microseconds, at each local time. */
  type Zone = DateTime -> int

  /** A moment of years 1 to 9999. */
  type Moment = u: int | Representable(u) witness FIRST_MICRO

  /** The moment a timestamp denotes, in range or not; without an offset it is local time. */
  function RawMoment(s: Stamp, zone: Zone): int
    requires ValidStamp(s)
  {
    Micros(s.local) - if s.Naive? then zone(s.local) else s.offset
  }

  /** The text, after `Z` is spelled out, is a timestamp whose moment is in range. */
  predicate Denotes(text: string, zone: Zone) {
    var s := ReadIso(ExpandZulu(text));
    s.Some? && Representable(RawMoment(s.value, zone))
  }

  function Denoted(text: string, zone: Zone): Moment
    requires Denotes(text, zone)
  {
    RawMoment(ReadIso(ExpandZulu(text)).value, zone)
  }

  /** Parse, convert to UTC from the written offset or from local time, print. */
  function NormalizeLocal(text: string, zone: Zone): (r: Outcome<string>)
    ensures r.Returns? <==> Denotes(text, zone)
    ensures r.Returns? ==> r.value == CanonicalText(Denoted(text, zone))
    ensures r.Raises? ==> r.error == if ReadIso(ExpandZulu(text)).None? then ValueError else OverflowError
  {
    var parsed := ReadIso(ExpandZulu(text));
    if parsed.None? then Raises(ValueError)
    else
      var u := RawMoment(parsed.value, zone);
      if Representable(u) then Returns(IsoFormat(Utc(u))) else Raises(OverflowError)
  }

  /** Reading as local time subtracts the written offset, or else the local one, and prints the result in UTC. */
  lemma NormalizeLocalRead(text: string, s: Stamp, zone: Zone)
    requires ReadIso(ExpandZulu(text)) == Some(s)
    ensures var offset := if s.Naive? then zone(s.local) else s.offset;
            match NormalizeLocal(text, zone)
            case Returns(utc) => exists t :: Printed(utc, t) && Micros(t) + offset == Micros(s.local)
            case Raises(_) => !Representable(Micros(s.local) - offset)
  {
    if Denotes(text, zone) {
      var t := Utc(Denoted(text, zone)).local;
      assert Printed(IsoFormat(Utc(Denoted(text, zone))), t);
    }
  }

  /** The text is the date-time, printed at offset zero. */
  ghost predicate Printed(text: string, t: DateTime) {
    ValidDateTime(t) && text == IsoFormat(Aware(t, 0))
  }

  /** Texts printed by a UTC clock denote the moment they were printed at. */
  lemma ClockTextDenotes(u: int, zone: Zone)
    requires Representable(u)
    ensures Denotes(CanonicalText(u), zone) && Denoted(CanonicalText(u), zone) == u
  {
    CanonicalTextHasNoZulu(u);
    ExpandNothing(CanonicalText(u));
    IsoRoundTrip(Utc(u));
  }
}

/**
  The `last_update` stamp of the Kibana export:
  `datetime.now(timezone.utc).isoformat(" ")[:-16]`.  An aware UTC time
  prints as `YYYY-MM-DD HH:MM:SS[.ffffff]+00:00`, where the fraction is
  there only when the microseconds are not zero, so cutting a fixed 16
  characters from the end keeps `YYYY-MM-DD HH:MM` only in the usual case.
*/
module Timestamps {
  import opened Strings

  /** A UTC time as `datetime` holds it. */
  datatype Instant = Instant(year: nat, month: nat, day: nat, hour: nat, minute: nat, second: nat, micro: nat)

  predicate ValidInstant(t: Instant) {
    1 <= t.year <= 9999 && 1 <= t.month <= 12 && 1 <= t.day <= 31 &&
    t.hour < 24 && t.minute < 60 && t.second < 60 && t.micro < 1000000
  }

  function Pow10(w: nat): (r: nat)
    ensures r >= 1
  {
    if w == 0 then 1 else 10 * Pow10(w - 1)
  }

  /** `"%0*d" % (w, n)`: the digits of `n`, with zeros in front up to width `w`. */
  function Pad(n: nat, w: nat): string {
    var d := Digits(n);
    if |d| >= w then d else seq(w - |d|, _ => '0') + d
  }

  /** A number below `10^w` has at most `w` digits. */
  lemma {:induction false} DigitsWidth(n: nat, w: nat)
    requires 1 <= w && n < Pow10(w)
    ensures |Digits(n)| <= w
  {
    if n >= 10 {
      assert w >= 2;
      DigitsWidth(n / 10, w - 1);
    }
  }

  /** Padding a number that fits gives exactly `w` digits. */
  lemma PadWidth(n: nat, w: nat)
    requires 1 <= w && n < Pow10(w)
    ensures |Pad(n, w)| == w
  {
    DigitsWidth(n, w);
  }

  /** `t.isoformat(" ")` for a time in UTC. */
  function IsoFormat(t: Instant): string {
    Pad(t.year, 4) + "-" + Pad2(t.month) + "-" + Pad2(t.day) + " " +
    Pad2(t.hour) + ":" + Pad2(t.minute) + ":" + Pad2(t.second) +
    (if t.micro != 0 then "." + Pad(t.micro, 6) else "") + "+00:00"
  }

  /** The date and the time of day to the minute, `YYYY-MM-DD HH:MM`. */
  function Minutes(t: Instant): string {
    Pad(t.year, 4) + "-" + Pad2(t.month) + "-" + Pad2(t.day) + " " + Pad2(t.hour) + ":" + Pad2(t.minute)
  }

  /**
    The printed time is 25 characters long, or 32 with the fraction, and
    always starts with the date and the time to the minute.
  */
  lemma IsoFormatShape(t: Instant)
    requires ValidInstant(t)
    ensures |IsoFormat(t)| == if t.micro == 0 then 25 else 32
    ensures |Minutes(t)| == 16
    ensures IsoFormat(t)[..16] == Minutes(t)
  {
    var rest := Seconds(t);
    IsoFormatSplit(t);
    MinutesWidth(t);
    Pad2RoundTrip(t.second);
    if t.micro != 0 {
      assert Pow10(6) == 1000000;
      PadWidth(t.micro, 6);
    }
    assert |rest| == if t.micro == 0 then 9 else 16;
  }

  /** What follows the minutes: `:SS`, the fraction if any, and the offset. */
  function Seconds(t: Instant): string {
    ":" + Pad2(t.second) + (if t.micro != 0 then "." + Pad(t.micro, 6) else "") + "+00:00"
  }

  lemma IsoFormatSplit(t: Instant)
    ensures IsoFormat(t) == Minutes(t) + Seconds(t)
  {
  }

  lemma MinutesWidth(t: Instant)
    requires ValidInstant(t)
    ensures |Minutes(t)| == 16
  {
    assert Pow10(4) == 10000;
    PadWidth(t.year, 4);
    Pad2RoundTrip(t.month);
    Pad2RoundTrip(t.day);
    Pad2RoundTrip(t.hour);
    Pad2RoundTrip(t.minute);
  }

  /** `isoformat(" ")[:-16]`, as written. */
  function LastUpdate(t: Instant): string {
    Slice(IsoFormat(t), 0, -16)
  }

  /**
    The stamp is the time to the minute only when the microseconds are not
    zero; at a whole second it is the first nine characters, the date
    without the last digit of the day.
  */
  lemma LastUpdateCut(t: Instant)
    requires ValidInstant(t)
    ensures t.micro != 0 ==> LastUpdate(t) == Minutes(t)
    ensures t.micro == 0 ==> LastUpdate(t) == Minutes(t)[..9]
  {
    IsoFormatShape(t);
    var iso := IsoFormat(t);
    assert LastUpdate(t) == iso[..|iso| - 16];
    if t.micro == 0 {
      assert iso[..9] == iso[..16][..9];
    }
  }

  /** At 03:04:05 on 2 January 2024, to the microsecond, the stamp is `2024-01-0`. */
  lemma LastUpdateWholeSecond()
    ensures LastUpdate(Instant(2024, 1, 2, 3, 4, 5, 0)) == "2024-01-0"
  {
    var t := Instant(2024, 1, 2, 3, 4, 5, 0);
    LastUpdateCut(t);
    MinutesOf2024(t);
  }

  lemma MinutesOf2024(t: Instant)
    requires ValidInstant(t) && t.year == 2024 && t.month == 1 && t.day == 2
    ensures Minutes(t)[..9] == "2024-01-0"
  {
    Year2024();
    MinutesPrefix(t);
    assert Pad2(1) == "01";
    assert Pad2(2)[..1] == "0";
  }

  /** The first nine characters: the year, the month and the first digit of the day. */
  lemma MinutesPrefix(t: Instant)
    requires ValidInstant(t)
    ensures Minutes(t)[..9] == Pad(t.year, 4) + "-" + Pad2(t.month) + "-" + Pad2(t.day)[..1]
  {
    assert Pow10(4) == 10000;
    PadWidth(t.year, 4);
    Pad2RoundTrip(t.month);
    Pad2RoundTrip(t.day);
    var head := Pad(t.year, 4) + "-" + Pad2(t.month) + "-";
    var tail := " " + Pad2(t.hour) + ":" + Pad2(t.minute);
    assert Minutes(t) == head + Pad2(t.day) + tail;
    assert (head + Pad2(t.day) + tail)[..9] == head + Pad2(t.day)[..1];
  }

  lemma Year2024()
    ensures Pad(2024, 4) == "2024"
  {
    assert Digits(20) == Digits(2) + "0";
    assert Digits(202) == Digits(20) + "2";
    assert Digits(2024) == Digits(202) + "4";
  }

  /** The stamp meant: `isoformat(" ")[:16]`, the time to the minute. */
  function LastUpdateMinutes(t: Instant): (r: string)
    requires ValidInstant(t)
    ensures |r| == 16 && r == Minutes(t)
  {
    IsoFormatShape(t);
    IsoFormat(t)[..16]
  }
}

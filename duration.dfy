/**
 * The seconds-to-text formatter used by the motion and return-to-auto timeout bars,
 * together with a reader of the texts it produces.
 */
module Duration {
  import opened Opt
  import opened Decimal

  /**
   * Under a minute the seconds are shown as "<s>s"; from a minute on, the value is
   * split into hours and minutes and shown as "<h>h <m>m", "<h>h" (no minutes) or
   * "<m>m" (no hours); the seconds left over are dropped.
   */
  function FmtDuration(seconds: int): string {
    if seconds < 60 then IntText(seconds) + "s"
    else
      // divmod(seconds, 60) then divmod(minutes, 60); both operands are positive here
      var minutes := seconds / 60;
      FmtHoursMinutes(minutes / 60, minutes % 60)
  }

  /** The text of h hours and m minutes: "<h>h <m>m", "<h>h" when m is 0, "<m>m" when h is 0. */
  function FmtHoursMinutes(h: nat, m: nat): string {
    if h != 0 then
      if m != 0 then NatText(h) + "h " + NatText(m) + "m" else NatText(h) + "h"
    else
      NatText(m) + "m"
  }

  /** The unit letters of the hours-and-minutes text. */
  lemma HoursMinutesShape(h: nat, m: nat)
    ensures var r := FmtHoursMinutes(h, m);
      && |r| >= 2 && r[|r| - 1] != 's'
      && ((r[|r| - 1] == 'h') <==> h != 0 && m == 0)
      && (('h' in r) <==> h != 0)
  {
    NotInDigits(NatText(h), 'h');
    NotInDigits(NatText(m), 'h');
  }

  /**
   * The text ends in 's' exactly below a minute, ends in 'h' exactly for whole hours
   * of at least one, and contains an 'h' exactly from an hour on.
   */
  lemma FmtDurationShape(seconds: int)
    ensures var r := FmtDuration(seconds);
      && |r| >= 2
      && ((r[|r| - 1] == 's') <==> seconds < 60)
      && ((r[|r| - 1] == 'h') <==> seconds >= 3600 && (seconds / 60) % 60 == 0)
      && (('h' in r) <==> seconds >= 3600)
  {
    if seconds < 60 {
      NotInDigits(if seconds < 0 then NatText(-seconds) else NatText(seconds), 'h');
    } else {
      var minutes := seconds / 60;
      HoursMinutesShape(minutes / 60, minutes % 60);
    }
  }

  /** The position of the first c in s, if any. */
  function IndexOf(s: string, c: char): (r: Option<nat>)
    ensures r.None? <==> c !in s
    ensures r.Some? ==> r.value < |s| && s[r.value] == c && forall j :: 0 <= j < r.value ==> s[j] != c
  {
    if |s| == 0 then None
    else if s[0] == c then Some(0)
    else match IndexOf(s[1..], c)
      case None => None
      case Some(i) => Some(i + 1)
  }

  /** n counted in units of the given number of seconds. */
  function Scaled(n: Option<nat>, unitSeconds: nat): (r: Option<int>)
    ensures r.Some? <==> n.Some?
  {
    match n
    case None => None
    case Some(k) => Some(unitSeconds * k)
  }

  /** The sum of two readings, when both are numbers. */
  function Both(a: Option<int>, b: Option<int>): (r: Option<int>)
    ensures r.Some? <==> a.Some? && b.Some?
  {
    if a.Some? && b.Some? then Some(a.value + b.value) else None
  }

  /** A count as str() writes it, and only such a text: canonical digits. */
  function ReadCount(d: string): (r: Option<nat>)
    ensures r.Some? <==> Canonical(d)
  {
    if Canonical(d) then
      CanonicalIsNatText(d);
      ParseDigits(d)
    else None
  }

  /** A count of at least one, as the hours of a duration of an hour or more are. */
  function ReadPositive(d: string): (r: Option<nat>)
    ensures r.Some? ==> r.value >= 1 && r == ReadCount(d)
  {
    match ReadCount(d)
    case Some(n) => if n >= 1 then Some(n) else None
    case None => None
  }

  /** A count from 1 to 59, as the minutes shown beside hours, or alone, are. */
  function ReadMinuteCount(d: string): (r: Option<nat>)
    ensures r.Some? ==> 1 <= r.value < 60 && r == ReadCount(d)
  {
    match ReadPositive(d)
    case Some(n) => if n < 60 then Some(n) else None
    case None => None
  }

  /** The number before "s": an integer below a minute, written as str() writes it. */
  function ReadSeconds(body: string): (r: Option<int>)
    ensures r.Some? ==> r.value < 60
  {
    if |body| >= 1 && body[0] == '-' then
      match ReadPositive(body[1..])
      case Some(n) => Some(0 - n)
      case None => None
    else
      match ReadCount(body)
      case Some(n) => if n < 60 then Some(n) else None
      case None => None
  }

  /** The text of a count reads back as that count. */
  lemma CountOfText(n: nat)
    ensures ReadCount(NatText(n)) == Some(n)
    ensures n >= 1 ==> ReadPositive(NatText(n)) == Some(n)
    ensures 1 <= n < 60 ==> ReadMinuteCount(NatText(n)) == Some(n)
  {
    NatTextCanonical(n);
    NatTextRoundTrip(n);
  }

  /** A count that reads is the text of the count it reads as. */
  lemma CountIsText(d: string)
    requires ReadCount(d).Some?
    ensures NatText(ReadCount(d).value) == d
  {
    CanonicalIsNatText(d);
  }

  /** A number of seconds that reads is the text of the number it reads as. */
  lemma SecondsAreText(body: string)
    requires ReadSeconds(body).Some?
    ensures IntText(ReadSeconds(body).value) == body
  {
    if |body| >= 1 && body[0] == '-' {
      CountIsText(body[1..]);
      assert body == "-" + body[1..];
    } else {
      CountIsText(body);
    }
  }

  /** A text ending in 'm', without that 'm': either "<h>h <m>" or "<m>". */
  function ReadMinutesForm(body: string): Option<int> {
    match IndexOf(body, 'h')
    case Some(i) => if i + 1 < |body| && body[i + 1] == ' ' then ReadHoursMinutes(body[..i], body[i + 2..]) else None
    case None => Scaled(ReadMinuteCount(body), 60)
  }

  /** The hours before "h " and the minutes after it, both present. */
  function ReadHoursMinutes(d: string, e: string): (r: Option<int>)
    ensures r.Some? <==> ReadPositive(d).Some? && ReadMinuteCount(e).Some?
    ensures r.Some? ==> r.value == 3600 * ReadPositive(d).value + 60 * ReadMinuteCount(e).value
  {
    Both(Scaled(ReadPositive(d), 3600), Scaled(ReadMinuteCount(e), 60))
  }

  /**
   * The number of seconds a text in the formatter's own notation stands for:
   * "<s>s" is s seconds (below a minute), "<h>h" is h hours, "<m>m" is m minutes,
   * "<h>h <m>m" is both, with at least one hour and 1 to 59 minutes. Numbers are
   * written as str() writes them. Any other text stands for nothing.
   */
  function ReadDuration(t: string): Option<int> {
    if |t| == 0 then None
    else
      var body, unit := t[..|t| - 1], t[|t| - 1];
      if unit == 's' then ReadSeconds(body)
      else if unit == 'h' then Scaled(ReadPositive(body), 3600)
      else if unit == 'm' then ReadMinutesForm(body)
      else None
  }

  /** The first 'h' after a run of digits is the one that ends them. */
  lemma FirstLetterAfterDigits(d: string, rest: string, c: char)
    requires AllDigits(d) && !IsDigit(c) && |rest| >= 1 && rest[0] == c
    ensures IndexOf(d + rest, c) == Some(|d|)
  {
    var r := IndexOf(d + rest, c);
    assert (d + rest)[|d|] == c;
    assert r.Some?;
    assert forall j :: 0 <= j < |d| ==> (d + rest)[j] == d[j];
  }

  /** The "<h>h <m>m" form reads back as h hours and m minutes. */
  lemma HoursMinutesReadBack(h: nat, m: nat)
    requires h >= 1 && 1 <= m < 60
    ensures ReadDuration(NatText(h) + "h " + NatText(m) + "m") == Some(3600 * h + 60 * m)
  {
    var d, e := NatText(h), NatText(m);
    var body := d + "h " + e;
    var t := body + "m";
    assert t[..|t| - 1] == body && t[|t| - 1] == 'm';
    HoursMinutesLayout(d, e);
    CountOfText(h);
    CountOfText(m);
    ReadMinutesFormAt(body, |d|, h, m);
  }

  /** Where the pieces of "<h>h <m>" sit. */
  lemma HoursMinutesLayout(d: string, e: string)
    requires AllDigits(d)
    ensures var body := d + "h " + e;
      && IndexOf(body, 'h') == Some(|d|) && |d| + 1 < |body| && body[|d| + 1] == ' '
      && body[..|d|] == d && body[|d| + 2..] == e
  {
    var body := d + "h " + e;
    FirstLetterAfterDigits(d, "h " + e, 'h');
    assert d + ("h " + e) == body;
    assert body[..|d|] == d;
    assert body[|d| + 2..] == e;
  }

  /** How ReadMinutesForm reads a body whose first 'h' is followed by a space. */
  lemma ReadMinutesFormAt(body: string, i: nat, h: nat, m: nat)
    requires IndexOf(body, 'h') == Some(i) && i + 1 < |body| && body[i + 1] == ' '
    requires ReadPositive(body[..i]) == Some(h) && ReadMinuteCount(body[i + 2..]) == Some(m)
    ensures ReadMinutesForm(body) == Some(3600 * h + 60 * m)
  {
    var d, e := body[..i], body[i + 2..];
    assert ReadHoursMinutes(d, e) == Some(3600 * h + 60 * m);
    assert ReadMinutesForm(body) == ReadHoursMinutes(d, e);
  }


  /** A run of digits followed by a unit letter reads back through that unit. */
  lemma SingleUnitReadBack(n: nat, unit: char)
    requires unit == 'h' || unit == 'm'
    requires n >= 1 && (unit == 'm' ==> n < 60)
    ensures ReadDuration(NatText(n) + [unit]) == Some(if unit == 'h' then 3600 * n else 60 * n)
  {
    var t := NatText(n) + [unit];
    assert t[..|t| - 1] == NatText(n);
    CountOfText(n);
    NotInDigits(NatText(n), 'h');
  }

  /** The whole minutes of a duration of a minute or more, split into hours and minutes. */
  lemma WholeMinutes(seconds: int)
    requires seconds >= 60
    ensures var minutes := seconds / 60;
      && seconds / 60 * 60 == 3600 * (minutes / 60) + 60 * (minutes % 60)
      && (minutes / 60 >= 1 || minutes % 60 >= 1) && minutes % 60 < 60
  {
    var minutes := seconds / 60;
    assert minutes == 60 * (minutes / 60) + minutes % 60;
  }

  /** (3600 h + 60 m) seconds of whole minutes split back into h hours and m minutes. */
  lemma SplitMinutes(h: nat, m: nat)
    requires m < 60
    ensures (3600 * h + 60 * m) / 60 == 60 * h + m
    ensures (60 * h + m) / 60 == h && (60 * h + m) % 60 == m
  {
  }

  /** The formatter writes whole hours and minutes as FmtHoursMinutes does. */
  lemma FmtWholeMinutes(h: nat, m: nat)
    requires m < 60 && (h >= 1 || m >= 1)
    ensures FmtDuration(3600 * h + 60 * m) == FmtHoursMinutes(h, m)
  {
    SplitMinutes(h, m);
  }

  /** The text of a number of seconds below a minute reads back as that number. */
  lemma SecondsOfText(seconds: int)
    requires seconds < 60
    ensures ReadSeconds(IntText(seconds)) == Some(seconds)
  {
    var body := IntText(seconds);
    if seconds < 0 {
      assert body[1..] == NatText(-seconds);
      CountOfText(-seconds);
    } else {
      CountOfText(seconds);
    }
  }

  /** The hours-and-minutes text reads back as those hours and minutes. */
  lemma HoursMinutesTextReadsBack(h: nat, m: nat)
    requires m < 60 && (h >= 1 || m >= 1)
    ensures ReadDuration(FmtHoursMinutes(h, m)) == Some(3600 * h + 60 * m)
  {
    if h != 0 && m != 0 {
      HoursMinutesReadBack(h, m);
    } else if h != 0 {
      SingleUnitReadBack(h, 'h');
    } else {
      SingleUnitReadBack(m, 'm');
    }
  }

  /**
   * Reading the text back gives the seconds exactly below a minute, and otherwise
   * the whole minutes: the leftover seconds are always dropped.
   */
  lemma FmtDurationReadsBack(seconds: int)
    ensures ReadDuration(FmtDuration(seconds)) == Some(if seconds < 60 then seconds else seconds / 60 * 60)
  {
    if seconds < 60 {
      var t := FmtDuration(seconds);
      assert t[..|t| - 1] == IntText(seconds);
      SecondsOfText(seconds);
    } else {
      var minutes := seconds / 60;
      WholeMinutes(seconds);
      HoursMinutesTextReadsBack(minutes / 60, minutes % 60);
    }
  }

  /** A text with "h " at position i is the part before, "h ", and the part after. */
  lemma SplitAround(s: string, i: nat)
    requires i + 1 < |s| && s[i] == 'h' && s[i + 1] == ' '
    ensures s == s[..i] + "h " + s[i + 2..]
  {
    assert s[i..i + 2] == "h ";
    assert s == s[..i] + s[i..i + 2] + s[i + 2..];
  }

  /** "<h>h <m>m" is written back as it was. */
  lemma HoursMinutesWriteBack(body: string, i: nat, h: nat, m: nat)
    requires IndexOf(body, 'h') == Some(i) && i + 1 < |body| && body[i + 1] == ' '
    requires ReadPositive(body[..i]) == Some(h) && ReadMinuteCount(body[i + 2..]) == Some(m)
    ensures FmtHoursMinutes(h, m) == body + "m"
  {
    CountIsText(body[..i]);
    CountIsText(body[i + 2..]);
    SplitAround(body, i);
  }

  /** "<h>h <m>m" and "<m>m" are written back as they were. */
  lemma MinutesFormWriteBack(body: string)
    requires ReadMinutesForm(body).Some?
    ensures FmtDuration(ReadMinutesForm(body).value) == body + "m"
  {
    match IndexOf(body, 'h')
    case Some(i) =>
      var h, m := ReadPositive(body[..i]).value, ReadMinuteCount(body[i + 2..]).value;
      HoursMinutesWriteBack(body, i, h, m);
      FmtWholeMinutes(h, m);
    case None =>
      CountIsText(body);
      FmtWholeMinutes(0, ReadMinuteCount(body).value);
  }

  /** Every text the reader accepts is the very text the formatter writes for its value. */
  lemma ReadDurationWritesBack(t: string)
    requires ReadDuration(t).Some?
    ensures FmtDuration(ReadDuration(t).value) == t
  {
    var body, unit := t[..|t| - 1], t[|t| - 1];
    assert t == body + [unit];
    if unit == 's' {
      SecondsAreText(body);
      assert FmtDuration(ReadSeconds(body).value) == body + "s";
    } else if unit == 'h' {
      CountIsText(body);
      FmtWholeMinutes(ReadPositive(body).value, 0);
    } else {
      MinutesFormWriteBack(body);
    }
  }

  /**
   * The formatter's text is the only text that reads as what it reads as: no other
   * spelling (a leading zero, "0h 65m" for "1h 5m") stands for the same seconds.
   */
  lemma FmtDurationUnique(seconds: int, t: string)
    requires ReadDuration(t) == ReadDuration(FmtDuration(seconds))
    ensures t == FmtDuration(seconds)
  {
    FmtDurationReadsBack(seconds);
    ReadDurationWritesBack(t);
    if seconds >= 60 {
      SameText(seconds);
    }
  }

  /** The whole minutes of a duration are written as the duration is. */
  lemma SameText(seconds: int)
    requires seconds >= 60
    ensures FmtDuration(seconds / 60 * 60) == FmtDuration(seconds)
  {
    var minutes := seconds / 60;
    WholeMinutes(seconds);
    FmtWholeMinutes(minutes / 60, minutes % 60);
  }

}

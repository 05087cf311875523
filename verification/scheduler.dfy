/** The send-slot schedule of the worker (main.py): the configured
    `HH:MM` list, the per-day slot identifier, and the tolerance window
    around a slot. Wall-clock time is a parameter. */
module Scheduler {
  import opened Wrappers
  import opened Text
  import opened Calendar

  // ---------------------------------------------------------------------
  // parse_times
  // ---------------------------------------------------------------------

  /** A configured send time; `int()` accepts any integer, so the range is
      only checked later, by `within_window`. */
  datatype Slot = Slot(hh: int, mm: int)

  /** One stripped, non-blank part: `hh, mm = part.split(":")` then two
      `int()` calls. Anything but exactly one colon, or a side that is not
      an integer, raises `ValueError` (`None`). */
  function ParseSlot(part: string): Option<Slot> {
    var pieces := Split(part, ':');
    if |pieces| != 2 then None
    else
      match (ParseInt(pieces[0]), ParseInt(pieces[1]))
      case (Some(h), Some(m)) => Some(Slot(h, m))
      case _ => None
  }

  /** The slots of the comma-separated parts seen so far, in order; blank
      parts are skipped and any malformed part makes the whole call fail. */
  function SlotsOf(parts: seq<string>): Option<seq<Slot>> {
    if parts == [] then Some([])
    else
      var prev := SlotsOf(parts[..|parts| - 1]);
      var part := Strip(parts[|parts| - 1]);
      if prev.None? then None
      else if part == [] then prev
      else
        match ParseSlot(part)
        case None => None
        case Some(s) => Some(prev.value + [s])
  }

  function Times(times: string): Option<seq<Slot>> {
    SlotsOf(Split(times, ','))
  }

  /** `parse_times`: one pass over the comma-separated parts. */
  method ParseTimes(times: string) returns (r: Option<seq<Slot>>)
    ensures r == Times(times)
  {
    var parts := Split(times, ',');
    var out: seq<Slot> := [];
    for i := 0 to |parts|
      invariant SlotsOf(parts[..i]) == Some(out)
    {
      assert parts[..i + 1][..i] == parts[..i];
      var part := Strip(parts[i]);
      if part != [] {
        var s := ParseSlot(part);
        if s.None? {
          NoneStaysNone(parts, i + 1);
          return None;
        }
        out := out + [s.value];
      }
    }
    assert parts[..|parts|] == parts;
    r := Some(out);
  }

  /** Once a part fails to parse, no later part can rescue the call. */
  lemma {:induction false} NoneStaysNone(parts: seq<string>, i: nat)
    requires i <= |parts| && SlotsOf(parts[..i]).None?
    ensures SlotsOf(parts).None?
    decreases |parts| - i
  {
    if i < |parts| {
      assert parts[..i + 1][..i] == parts[..i];
      NoneStaysNone(parts, i + 1);
    } else {
      assert parts[..i] == parts;
    }
  }

  /** The call succeeds exactly when every non-blank part is a well-formed
      `HH:MM`, and then it has one slot per non-blank part. */
  lemma SlotsOfDefined(parts: seq<string>)
    ensures SlotsOf(parts).Some?
            <==> forall i :: 0 <= i < |parts| && !AllWs(parts[i]) ==> ParseSlot(Strip(parts[i])).Some?
    ensures SlotsOf(parts).Some? ==> |SlotsOf(parts).value| == |NonBlankParts(parts)|
  {
    if SlotsOf(parts).Some? {
      SlotsOfSomeParses(parts);
      SlotsOfLength(parts);
    } else {
      SlotsOfNoneWitness(parts);
    }
  }

  lemma SlotsOfSomeParses(parts: seq<string>)
    requires SlotsOf(parts).Some?
    ensures forall i :: 0 <= i < |parts| && !AllWs(parts[i]) ==> ParseSlot(Strip(parts[i])).Some?
  {
    forall i | 0 <= i < |parts| && !AllWs(parts[i])
      ensures ParseSlot(Strip(parts[i])).Some?
    {
      var q := parts[..i + 1];
      if SlotsOf(q).None? {
        NoneStaysNone(parts, i + 1);
      }
      SlotsOfStepSome(q);
      assert q[|q| - 1] == parts[i];
    }
  }

  lemma SlotsOfStepSome(parts: seq<string>)
    requires parts != [] && SlotsOf(parts).Some?
    ensures SlotsOf(parts[..|parts| - 1]).Some?
    ensures AllWs(parts[|parts| - 1]) || ParseSlot(Strip(parts[|parts| - 1])).Some?
  {
    SlotsOfStep(parts);
  }

  lemma {:induction false} SlotsOfNoneWitness(parts: seq<string>)
    requires SlotsOf(parts).None?
    ensures exists i :: 0 <= i < |parts| && !AllWs(parts[i]) && ParseSlot(Strip(parts[i])).None?
  {
    var p := parts[..|parts| - 1];
    SlotsOfStep(parts);
    if SlotsOf(p).None? {
      SlotsOfNoneWitness(p);
      var i :| 0 <= i < |p| && !AllWs(p[i]) && ParseSlot(Strip(p[i])).None?;
      assert parts[i] == p[i];
    } else {
      assert parts[|p|] == parts[|parts| - 1];
    }
  }

  lemma {:induction false} SlotsOfLength(parts: seq<string>)
    requires SlotsOf(parts).Some?
    ensures |SlotsOf(parts).value| == |NonBlankParts(parts)|
  {
    if parts != [] {
      SlotsOfStep(parts);
      SlotsOfLength(parts[..|parts| - 1]);
    }
  }

  /** One more part: the call still succeeds exactly when it did before and
      the new part is blank or well formed; a well-formed part adds one
      slot. */
  lemma SlotsOfStep(parts: seq<string>)
    requires parts != []
    ensures var p, last := parts[..|parts| - 1], parts[|parts| - 1];
      && (SlotsOf(parts).Some? <==> SlotsOf(p).Some? && (AllWs(last) || ParseSlot(Strip(last)).Some?))
      && NonBlankParts(parts) == (if AllWs(last) then NonBlankParts(p) else NonBlankParts(p) + [last])
      && (SlotsOf(parts).Some? ==> |SlotsOf(parts).value| == |SlotsOf(p).value| + (if AllWs(last) then 0 else 1))
  {
  }

  function NonBlankParts(parts: seq<string>): seq<string> {
    if parts == [] then []
    else
      var p := NonBlankParts(parts[..|parts| - 1]);
      if AllWs(parts[|parts| - 1]) then p else p + [parts[|parts| - 1]]
  }

  /** The text form of a slot, `f"{hh:02d}:{mm:02d}"`. */
  function SlotText(s: Slot): string
    requires s.hh >= 0 && s.mm >= 0
  {
    ZeroPad(s.hh, 2) + ":" + ZeroPad(s.mm, 2)
  }

  function SlotTexts(slots: seq<Slot>): (r: seq<string>)
    requires forall i :: 0 <= i < |slots| ==> slots[i].hh >= 0 && slots[i].mm >= 0
    ensures |r| == |slots|
    ensures forall i :: 0 <= i < |r| ==> r[i] == SlotText(slots[i])
  {
    if slots == [] then [] else SlotTexts(slots[..|slots| - 1]) + [SlotText(slots[|slots| - 1])]
  }

  /** Splitting text with no separator in it gives the text back whole. */
  lemma {:induction false} SplitNoSep(s: string, sep: char)
    requires sep !in s
    ensures Split(s, sep) == [s]
    decreases |s|
  {
    if s != [] {
      SplitNoSep(s[1..], sep);
      assert [s[0]] + s[1..] == s;
    }
  }

  /** Splitting at the first separator. */
  lemma {:induction false} SplitAtSep(a: string, sep: char, b: string)
    requires sep !in a
    ensures Split(a + [sep] + b, sep) == [a] + Split(b, sep)
    decreases |a|
  {
    var s := a + [sep] + b;
    if a == [] {
      assert s[0] == sep && s[1..] == b;
    } else {
      assert s[1..] == a[1..] + [sep] + b;
      SplitAtSep(a[1..], sep, b);
      assert [a[0]] + a[1..] == a;
    }
  }

  /** `Join` then `Split` is the identity on separator-free parts. */
  lemma {:induction false} SplitJoin(parts: seq<string>, sep: char)
    requires parts != []
    requires forall i :: 0 <= i < |parts| ==> sep !in parts[i]
    ensures Split(Join(parts, [sep]), sep) == parts
  {
    if |parts| == 1 {
      SplitNoSep(parts[0], sep);
    } else {
      SplitJoin(parts[1..], sep);
      SplitAtSep(parts[0], sep, Join(parts[1..], [sep]));
      assert [parts[0]] + parts[1..] == parts;
    }
  }

  lemma DigitsExclude(s: string, c: char)
    requires AllDigits(s) && !IsDigit(c)
    ensures c !in s
  {
  }

  lemma SlotTextParses(s: Slot)
    requires 0 <= s.hh < 100 && 0 <= s.mm < 100
    ensures !AllWs(SlotText(s)) && Strip(SlotText(s)) == SlotText(s)
    ensures ',' !in SlotText(s)
    ensures ParseSlot(SlotText(s)) == Some(s)
  {
    SlotTextUnpadded(s);
    var h, m := ZeroPad(s.hh, 2), ZeroPad(s.mm, 2);
    DigitsExclude(h, ',');
    DigitsExclude(m, ',');
    assert SlotText(s) == h + [':'] + m;
    SlotTextSplits(s);
  }

  lemma SlotTextUnpadded(s: Slot)
    requires 0 <= s.hh < 100 && 0 <= s.mm < 100
    ensures !AllWs(SlotText(s)) && Strip(SlotText(s)) == SlotText(s)
  {
    var h, m := ZeroPad(s.hh, 2), ZeroPad(s.mm, 2);
    var t := SlotText(s);
    assert t[0] == h[0] && IsDigit(h[0]);
    assert t[|t| - 1] == m[|m| - 1] && IsDigit(m[|m| - 1]);
    StripUnpadded(t);
  }

  lemma SlotTextSplits(s: Slot)
    requires 0 <= s.hh < 100 && 0 <= s.mm < 100
    ensures ParseSlot(SlotText(s)) == Some(s)
  {
    var h, m := ZeroPad(s.hh, 2), ZeroPad(s.mm, 2);
    DigitsExclude(h, ':');
    DigitsExclude(m, ':');
    assert SlotText(s) == h + [':'] + m;
    SplitAtSep(h, ':', m);
    SplitNoSep(m, ':');
    assert Split(SlotText(s), ':') == [h, m];
    ParseIntZeroPad(s.hh, 2);
    ParseIntZeroPad(s.mm, 2);
  }

  /** Round trip: the comma-joined `HH:MM` texts of any slot list (hours
      and minutes of at most two digits) parse back to the same slots, in
      the same order. */
  lemma {:induction false} TimesRoundTrip(slots: seq<Slot>)
    requires forall i :: 0 <= i < |slots| ==> 0 <= slots[i].hh < 100 && 0 <= slots[i].mm < 100
    ensures Times(Join(SlotTexts(slots), ",")) == Some(slots)
  {
    var texts := SlotTexts(slots);
    if slots == [] {
      assert Split([], ',') == [[]];
      assert SlotsOf([[]]) == SlotsOf([]);
    } else {
      forall i | 0 <= i < |texts|
        ensures ',' !in texts[i]
      {
        SlotTextParses(slots[i]);
      }
      SplitJoin(texts, ',');
      SlotsOfTexts(slots);
    }
  }

  lemma {:induction false} SlotsOfTexts(slots: seq<Slot>)
    requires forall i :: 0 <= i < |slots| ==> 0 <= slots[i].hh < 100 && 0 <= slots[i].mm < 100
    ensures SlotsOf(SlotTexts(slots)) == Some(slots)
  {
    if slots != [] {
      var p, x := slots[..|slots| - 1], slots[|slots| - 1];
      var parts := SlotTexts(slots);
      assert parts[..|parts| - 1] == SlotTexts(p) by {
        assert SlotTexts(slots) == SlotTexts(p) + [SlotText(x)];
      }
      assert SlotsOf(parts[..|parts| - 1]) == Some(p) by {
        SlotsOfTexts(p);
      }
      assert Strip(parts[|parts| - 1]) == SlotText(x) && SlotText(x) != [] && ParseSlot(SlotText(x)) == Some(x) by {
        SlotTextParses(x);
      }
      LastSplit(slots);
    }
  }

  lemma LastSplit<T>(s: seq<T>)
    requires s != []
    ensures s[..|s| - 1] + [s[|s| - 1]] == s
  {
  }

  /** The configured default `06:00,12:00,18:00`. */
  lemma DefaultTimes()
    ensures Times("06:00,12:00,18:00") == Some([Slot(6, 0), Slot(12, 0), Slot(18, 0)])
  {
    var slots := [Slot(6, 0), Slot(12, 0), Slot(18, 0)];
    TimesRoundTrip(slots);
    DefaultTexts();
    DefaultJoin();
  }

  lemma DefaultTexts()
    ensures SlotTexts([Slot(6, 0), Slot(12, 0), Slot(18, 0)]) == ["06:00", "12:00", "18:00"]
  {
    var slots := [Slot(6, 0), Slot(12, 0), Slot(18, 0)];
    assert ZeroPad(0, 2) == "00" && ZeroPad(6, 2) == "06";
    assert ZeroPad(12, 2) == "12" by {
      assert Decimal(12) == Decimal(1) + [DigitChar(2)];
    }
    assert ZeroPad(18, 2) == "18" by {
      assert Decimal(18) == Decimal(1) + [DigitChar(8)];
    }
    assert SlotText(slots[0]) == "06:00";
    assert SlotText(slots[1]) == "12:00";
    assert SlotText(slots[2]) == "18:00";
  }

  lemma DefaultJoin()
    ensures Join(["06:00", "12:00", "18:00"], ",") == "06:00,12:00,18:00"
  {
    var texts := ["06:00", "12:00", "18:00"];
    assert texts[1..] == ["12:00", "18:00"] && texts[1..][1..] == ["18:00"];
    assert Join(["12:00", "18:00"], ",") == "12:00" + "," + "18:00";
    assert Join(texts, ",") == "06:00" + "," + ("12:00" + "," + "18:00");
  }

  // ---------------------------------------------------------------------
  // slot_id
  // ---------------------------------------------------------------------

  /** `f"{n:02d}"`: a negative number keeps its sign in front of its digits. */
  function Pad2(n: int): (r: string)
    ensures 0 <= n < 100 ==> |r| == 2 && AllDigits(r) && DigitsValue(r) == n
  {
    if n < 0 then "-" + Decimal(-n)
    else
      ZeroPadValue(n, 2);
      assert Pow10(2) == 100;
      ZeroPad(n, 2)
  }

  /** `slot_id`: `YYYY-MM-DD_HHMM` for the date of `now`. */
  function SlotId(date: CalendarDate, hh: int, mm: int): (r: string)
    ensures 0 <= hh < 100 && 0 <= mm < 100 ==> |r| == 15 && r[..10] == IsoFormat(date) && r[10] == '_'
  {
    IsoFormat(date) + "_" + Pad2(hh) + Pad2(mm)
  }

  /** The ISO text of a date determines the date. */
  lemma IsoFormatInjective(d1: CalendarDate, d2: CalendarDate)
    requires IsoFormat(d1) == IsoFormat(d2)
    ensures d1 == d2
  {
    assert Pow10(4) == 10000 && Pow10(2) == 100;
    ZeroPadValue(d1.year, 4); ZeroPadValue(d1.month, 2); ZeroPadValue(d1.day, 2);
    ZeroPadValue(d2.year, 4); ZeroPadValue(d2.month, 2); ZeroPadValue(d2.day, 2);
    FieldsInjective(ZeroPad(d1.year, 4), ZeroPad(d1.month, 2), ZeroPad(d1.day, 2),
                    ZeroPad(d2.year, 4), ZeroPad(d2.month, 2), ZeroPad(d2.day, 2), "-");
  }

  /** Fixed-width fields joined by one separator can be read back field by
      field. */
  lemma FieldsInjective(a1: string, b1: string, c1: string, a2: string, b2: string, c2: string, sep: string)
    requires |a1| == |a2| && |b1| == |b2|
    requires a1 + sep + b1 + sep + c1 == a2 + sep + b2 + sep + c2
    ensures a1 == a2 && b1 == b2 && c1 == c2
  {
    var s1, s2 := a1 + sep + b1 + sep + c1, a2 + sep + b2 + sep + c2;
    var n, m := |a1| + |sep|, |a1| + |sep| + |b1| + |sep|;
    assert a1 == s1[..|a1|] && a2 == s2[..|a1|];
    assert b1 == s1[n..n + |b1|] && b2 == s2[n..n + |b1|];
    assert c1 == s1[m..] && c2 == s2[m..];
  }

  /** Distinct slots of distinct days never share an identifier, so the
      "already sent" bookkeeping is per day and per time. */
  lemma SlotIdInjective(d1: CalendarDate, h1: int, m1: int, d2: CalendarDate, h2: int, m2: int)
    requires 0 <= h1 < 100 && 0 <= m1 < 100 && 0 <= h2 < 100 && 0 <= m2 < 100
    requires SlotId(d1, h1, m1) == SlotId(d2, h2, m2)
    ensures d1 == d2 && h1 == h2 && m1 == m2
  {
    var s := SlotId(d1, h1, m1);
    assert s[..10] == IsoFormat(d1) == IsoFormat(d2);
    IsoFormatInjective(d1, d2);
    assert s[11..13] == Pad2(h1) == Pad2(h2);
    assert s[13..] == Pad2(m1) == Pad2(m2);
  }

  // ---------------------------------------------------------------------
  // within_window
  // ---------------------------------------------------------------------

  /** A wall-clock reading in the configured time zone, as `datetime` holds
      it. */
  datatype Moment = Moment(date: CalendarDate, hour: int, minute: int, second: int, micro: int)

  predicate ValidMoment(m: Moment) {
    0 <= m.hour < 24 && 0 <= m.minute < 60 && 0 <= m.second < 60 && 0 <= m.micro < 1000000
  }

  type DateTime = m: Moment | ValidMoment(m) witness Moment(Date(1970, 1, 1), 0, 0, 0, 0)

  const MicrosPerMinute: int := 60000000

  /** Microseconds since the start of the calendar; subtracting two of these
      is what `datetime` subtraction does for two readings in the same zone. */
  function Micros(m: DateTime): int {
    ((Ordinal(m.date) * 1440 + m.hour * 60 + m.minute) * 60 + m.second) * 1000000 + m.micro
  }

  /** Microseconds since midnight. */
  function ClockMicros(m: DateTime): (r: int)
    ensures 0 <= r < 1440 * MicrosPerMinute
  {
    (m.hour * 60 + m.minute) * MicrosPerMinute + m.second * 1000000 + m.micro
  }

  /** `now.replace(hour=hh, minute=mm, second=0, microsecond=0)`, which
      raises `ValueError` for an hour or minute out of range. */
  function Replace(now: DateTime, hh: int, mm: int): Option<DateTime> {
    if 0 <= hh < 24 && 0 <= mm < 60 then Some(Moment(now.date, hh, mm, 0, 0)) else None
  }

  function Abs(x: int): nat {
    if x < 0 then -x else x
  }

  /** `within_window`: the distance between now and hh:mm of the same day is
      at most `window` minutes; `None` where the replace raises. */
  function WithinWindow(now: DateTime, hh: int, mm: int, window: int): (r: Option<bool>)
    ensures r.None? <==> !(0 <= hh < 24 && 0 <= mm < 60)
    ensures r.Some? ==> (r.value <==> Abs(ClockMicros(now) - (hh * 60 + mm) * MicrosPerMinute) <= window * MicrosPerMinute)
  {
    match Replace(now, hh, mm)
    case None => None
    case Some(target) => Some(Abs(Micros(now) - Micros(target)) <= window * 60 * 1000000)
  }

  /** The target is always on now's own day: a slot counts only if its
      clock time lies within `window` minutes of now's clock minute, so a
      slot just after midnight is not reached from late the previous
      evening. */
  lemma WithinWindowSameDay(now: DateTime, hh: int, mm: int, window: int)
    requires WithinWindow(now, hh, mm, window) == Some(true)
    ensures hh * 60 + mm - window <= now.hour * 60 + now.minute <= hh * 60 + mm + window
  {
    var n := now.hour * 60 + now.minute;
    var t := hh * 60 + mm;
    var extra := now.second * 1000000 + now.micro;
    assert 0 <= extra < MicrosPerMinute;
    assert ClockMicros(now) == n * MicrosPerMinute + extra;
  }

  /** Exactly at the slot time every non-negative window matches; a
      negative window never does. */
  lemma WithinWindowAtSlot(now: DateTime, window: int)
    ensures now.second == 0 && now.micro == 0 && window >= 0 ==> WithinWindow(now, now.hour, now.minute, window) == Some(true)
    ensures window < 0 ==> WithinWindow(now, now.hour, now.minute, window) == Some(false)
  {
  }

  // ---------------------------------------------------------------------
  // Active slot selection (the first loop of run_once)
  // ---------------------------------------------------------------------

  /** The first slot, in list order, whose window contains now; `Err` when
      an out-of-range slot is reached first (its `within_window` raises). */
  function ActiveSlot(slots: seq<Slot>, now: DateTime, window: int): (r: Result<Option<Slot>>)
  {
    if slots == [] then Ok(None)
    else
      match WithinWindow(now, slots[0].hh, slots[0].mm, window)
      case None => Err
      case Some(true) => Ok(Some(slots[0]))
      case Some(false) => ActiveSlot(slots[1..], now, window)
  }

  /** What the search result means: a found slot is the first matching one
      and every earlier one was valid and outside its window; no slot means
      all were valid and none matched; failure means some invalid slot came
      before any match. */
  lemma {:induction false} ActiveSlotIsFirstMatch(slots: seq<Slot>, now: DateTime, window: int)
    ensures ActiveSlot(slots, now, window) == Ok(None)
            <==> forall i :: 0 <= i < |slots| ==> WithinWindow(now, slots[i].hh, slots[i].mm, window) == Some(false)
    ensures ActiveSlot(slots, now, window).Ok? && ActiveSlot(slots, now, window).value.Some?
            <==> exists i :: 0 <= i < |slots| && FirstMatchAt(slots, now, window, i)
    ensures forall i :: 0 <= i < |slots| && FirstMatchAt(slots, now, window, i)
                        ==> ActiveSlot(slots, now, window) == Ok(Some(slots[i]))
  {
    if slots != [] {
      ActiveSlotIsFirstMatch(slots[1..], now, window);
      var w := WithinWindow(now, slots[0].hh, slots[0].mm, window);
      forall i | 0 <= i < |slots| - 1
        ensures FirstMatchAt(slots, now, window, i + 1) <==> w == Some(false) && FirstMatchAt(slots[1..], now, window, i)
      {
        assert forall j :: 0 <= j < i ==> slots[1..][j] == slots[j + 1];
        if w == Some(false) && FirstMatchAt(slots[1..], now, window, i) {
          assert forall j :: 1 <= j < i + 1 ==> slots[j] == slots[1..][j - 1];
        }
      }
      if w == Some(true) {
        assert FirstMatchAt(slots, now, window, 0);
      } else if w == Some(false) {
        if exists i :: 0 <= i < |slots[1..]| && FirstMatchAt(slots[1..], now, window, i) {
          var i :| 0 <= i < |slots[1..]| && FirstMatchAt(slots[1..], now, window, i);
          assert FirstMatchAt(slots, now, window, i + 1);
        }
      }
    }
  }

  /** Slot `i` matches and every slot before it is valid and does not. */
  predicate FirstMatchAt(slots: seq<Slot>, now: DateTime, window: int, i: int)
    requires 0 <= i < |slots|
  {
    WithinWindow(now, slots[i].hh, slots[i].mm, window) == Some(true)
    && forall j :: 0 <= j < i ==> WithinWindow(now, slots[j].hh, slots[j].mm, window) == Some(false)
  }

  /** The loop of `run_once` that picks the active slot. */
  method FindActiveSlot(slots: seq<Slot>, now: DateTime, window: int) returns (r: Result<Option<Slot>>)
    ensures r == ActiveSlot(slots, now, window)
  {
    for i := 0 to |slots|
      invariant ActiveSlot(slots, now, window) == ActiveSlot(slots[i..], now, window)
    {
      assert slots[i..][1..] == slots[i + 1..];
      var w := WithinWindow(now, slots[i].hh, slots[i].mm, window);
      if w.None? {
        return Err;
      } else if w.value {
        return Ok(Some(slots[i]));
      }
    }
    return Ok(None);
  }
}

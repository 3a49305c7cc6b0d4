/** Reminder parsing: a day word, a time of day, and the calendar arithmetic that turns them into
  * a moment. The local UTC offset, in seconds, is a parameter.
  */
module Reminder {

  import opened Wrappers
  import opened Text

  const DAY_MS: int := 86_400_000
  const DAY_SECS: int := 86_400

  // ---------- numbers ----------

  function DigitsIn(s: string): string {
    if s == "" then "" else (if IsDigit(s[0]) then [s[0]] else []) + DigitsIn(s[1..])
  }

  function LeadingDigits(s: string): string {
    if s == "" || !IsDigit(s[0]) then "" else [s[0]] + LeadingDigits(s[1..])
  }

  function TrailingDigits(s: string): string {
    if s == "" || !IsDigit(s[|s| - 1]) then "" else TrailingDigits(s[..|s| - 1]) + [s[|s| - 1]]
  }

  /** parse::<u32>() of a run of digits: fails on no digits and on overflow. */
  function ParseU32(digits: string): Option<nat> {
    if digits == "" || DecimalValue(digits) >= 0x1_0000_0000 then None else Some(DecimalValue(digits))
  }

  // ---------- time of day ----------

  predicate Morning(first: char, second: char) {
    (first == '凌' && second == '晨') || (first == '早' && second == '上') || (first == '上' && second == '午')
  }

  predicate Afternoon(first: char, second: char) {
    (first == '中' && second == '午') || (first == '下' && second == '午') || (first == '晚' && second == '上')
  }

  /** The 12-hour prefix: its offset and the text after it. */
  function HalfDay(s: string): (r: (nat, string))
    ensures r.0 == 0 || r.0 == 12
  {
    if |s| >= 2 && Morning(s[0], s[1]) then (0, s[2..])
    else if |s| >= 2 && Afternoon(s[0], s[1]) then (12, s[2..])
    else (0, s)
  }

  function NormalizeHour(h: nat, pmOffset: nat): nat {
    var h := h % 24;
    if pmOffset == 12 && h < 12 then h + 12 else h
  }

  /** `N点`, `N点半`, `N点MM`: head and rest around the character 点. */
  function OClock(head: string, rest: string, pmOffset: nat): Option<(nat, nat)> {
    match ParseU32(DigitsIn(head))
    case None => None
    case Some(h) =>
      if h > 23 then None
      else if "半" <= rest then Some((NormalizeHour(h + pmOffset, pmOffset), 30))
      else
        var m := ParseU32(LeadingDigits(rest));
        Some((NormalizeHour(h + pmOffset, pmOffset), if m.Some? && m.value < 60 then m.value else 0))
  }

  predicate IsColon(c: char) {
    c == ':' || c == '：'
  }

  function FirstColon(s: string): (i: nat)
    ensures i <= |s| && (i < |s| ==> IsColon(s[i])) && forall k :: 0 <= k < i ==> !IsColon(s[k])
  {
    if s == "" || IsColon(s[0]) then 0 else 1 + FirstColon(s[1..])
  }

  /** `HH:MM` around the first colon. */
  function ClockTime(s: string): Option<(nat, nat)> {
    var i := FirstColon(s);
    if i == |s| then None else
    var h, m := ParseU32(TrailingDigits(s[..i])), ParseU32(LeadingDigits(s[i + 1..]));
    if h.Some? && m.Some? && h.value <= 23 && m.value < 60 then Some((h.value, m.value)) else None
  }

  function TimeOf(s: string): Option<(nat, nat)> {
    var (pm, t) := HalfDay(TrimStart(s));
    match Find(t, "点")
    case Some(i) => OClock(t[..i], t[i + 1..], pm)
    case None => ClockTime(t)
  }

  method ParseTime(s: string) returns (time: Option<(nat, nat)>)
    ensures time == TimeOf(s)
  {
    var (pm, t) := HalfDay(TrimStart(s));
    var hpos := Find(t, "点");
    if hpos.Some? {
      return OClock(t[..hpos.value], t[hpos.value + 1..], pm);
    }
    time := ParseClock(t);
  }

  /** The scan for the first colon. */
  method ParseClock(t: string) returns (time: Option<(nat, nat)>)
    ensures time == ClockTime(t)
  {
    for ci := 0 to |t|
      invariant forall k :: 0 <= k < ci ==> !IsColon(t[k])
    {
      if IsColon(t[ci]) {
        var h := ParseU32(TrailingDigits(t[..ci]));
        if h.None? {
          return None;
        }
        var m := ParseU32(LeadingDigits(t[ci + 1..]));
        if m.None? {
          return None;
        }
        if h.value <= 23 && m.value < 60 {
          return Some((h.value, m.value));
        }
        return None;
      }
    }
    return None;
  }

  lemma HourIsLegal(h: nat, pmOffset: nat)
    requires h <= 23 && (pmOffset == 0 || pmOffset == 12)
    ensures NormalizeHour(h + pmOffset, pmOffset) == if pmOffset == 12 then 12 + h % 12 else h
  {
  }

  lemma OClockIsLegal(head: string, rest: string, pmOffset: nat)
    requires pmOffset == 0 || pmOffset == 12
    ensures OClock(head, rest, pmOffset).Some? ==>
              var (h, m) := OClock(head, rest, pmOffset).value;
              && h < 24 && m < 60
              && h == if pmOffset == 12 then 12 + DecimalValue(DigitsIn(head)) % 12 else DecimalValue(DigitsIn(head))
  {
    var h := ParseU32(DigitsIn(head));
    if h.Some? && h.value <= 23 { HourIsLegal(h.value, pmOffset); }
  }

  lemma ClockIsLegal(s: string)
    ensures ClockTime(s).Some? ==> ClockTime(s).value.0 < 24 && ClockTime(s).value.1 < 60
  {
  }

  /** Whatever the text, a parsed time is a legal hour and minute; an afternoon "N o'clock" is
    * 12 + N mod 12, a morning one N itself. */
  lemma TimeIsLegal(s: string)
    ensures TimeOf(s).Some? ==> TimeOf(s).value.0 < 24 && TimeOf(s).value.1 < 60
    ensures var (pm, t) := HalfDay(TrimStart(s));
            TimeOf(s).Some? && Find(t, "点").Some? ==>
              var n := DecimalValue(DigitsIn(t[..Find(t, "点").value]));
              TimeOf(s).value.0 == if pm == 12 then 12 + n % 12 else n
  {
    var (pm, t) := HalfDay(TrimStart(s));
    match Find(t, "点")
    case Some(i) => OClockIsLegal(t[..i], t[i + 1..], pm);
    case None => ClockIsLegal(t);
  }

  lemma HalfDayStrips(first: char, second: char, rest: string)
    requires Morning(first, second) || Afternoon(first, second)
    ensures HalfDay(TrimStart([first, second] + rest)) == (if Morning(first, second) then 0 else 12, rest)
  {
    var s := [first, second] + rest;
    assert !IsWhitespace(first);
    assert TrimStart(s) == s && s[2..] == rest;
  }

  /** The six prefixes. */
  lemma HalfDaysAre(first: char, second: char)
    ensures Morning(first, second) <==> [first, second] in ["凌晨", "早上", "上午"]
    ensures Afternoon(first, second) <==> [first, second] in ["中午", "下午", "晚上"]
  {
    var w := [first, second];
    assert w[0] == first && w[1] == second;
    assert w == "凌晨" <==> w[0] == '凌' && w[1] == '晨';
    assert w == "早上" <==> w[0] == '早' && w[1] == '上';
    assert w == "上午" <==> w[0] == '上' && w[1] == '午';
    assert w == "中午" <==> w[0] == '中' && w[1] == '午';
    assert w == "下午" <==> w[0] == '下' && w[1] == '午';
    assert w == "晚上" <==> w[0] == '晚' && w[1] == '上';
  }

  /** The colon form takes no notice of the half of the day, whichever of the six prefixes it is. */
  lemma ColonIgnoresHalfDay(first: char, second: char, rest: string)
    requires (Morning(first, second) || Afternoon(first, second)) && Find(rest, "点").None?
    ensures TimeOf([first, second] + rest) == ClockTime(rest)
  {
    HalfDayStrips(first, second, rest);
  }

  /** Half past three in the afternoon, written with a colon, is read as half past three at night. */
  lemma AfternoonColonIsNight(rest: string)
    requires rest == "3:30"
    ensures TimeOf(['下', '午'] + rest) == Some((3, 30))
  {
    NoneWith(rest, "点", 0);
    ColonIgnoresHalfDay('下', '午', rest);
    ClockOfThreeThirty();
  }

  lemma OClockHour(s: string, pm: nat, head: string, rest: string, h: nat)
    requires HalfDay(TrimStart(s)) == (pm, head + ['点'] + rest) && '点' !in head
    requires ParseU32(DigitsIn(head)) == Some(h) && h <= 23
    ensures TimeOf(s).Some? && TimeOf(s).value.0 == NormalizeHour(h + pm, pm)
  {
    TimeOfOClock(s, pm, head, rest);
    OClockGives(head, rest, pm, h);
  }

  lemma OClockGives(head: string, rest: string, pm: nat, h: nat)
    requires ParseU32(DigitsIn(head)) == Some(h) && h <= 23
    ensures OClock(head, rest, pm).Some? && OClock(head, rest, pm).value.0 == NormalizeHour(h + pm, pm)
  {
  }

  lemma TimeOfOClock(s: string, pm: nat, head: string, rest: string)
    requires HalfDay(TrimStart(s)) == (pm, head + ['点'] + rest) && '点' !in head
    ensures TimeOf(s) == OClock(head, rest, pm)
  {
    FirstOClock(head, rest);
  }

  /** Twelve o'clock is noon after every prefix: before dawn and late in the evening too. */
  lemma TwelveIsNoon(first: char, second: char, head: string, rest: string, h: nat)
    requires Morning(first, second) || Afternoon(first, second)
    requires ParseU32(DigitsIn(head)) == Some(h) && h == 12 && '点' !in head
    ensures var s := [first, second] + (head + ['点'] + rest); TimeOf(s).Some? && TimeOf(s).value.0 == h
  {
    var pm := if Morning(first, second) then 0 else 12;
    HalfDayStrips(first, second, head + ['点'] + rest);
    OClockHour([first, second] + (head + ['点'] + rest), pm, head, rest, h);
    HourIsLegal(h, pm);
  }

  lemma FirstOClock(head: string, rest: string)
    requires '点' !in head
    ensures var t := head + ['点'] + rest;
            Find(t, "点") == Some(|head|) && t[..|head|] == head && t[|head| + 1..] == rest
  {
    var t := head + ['点'] + rest;
    assert t[|head|..|head| + 1] == ['点'];
    assert At(t, "点", |head|);
    forall j | 0 <= j < |head| ensures !At(t, "点", j) {
      assert t[j..j + 1][0] == head[j];
    }
  }

  lemma ClockOfThreeThirty()
    ensures ClockTime("3:30") == Some((3, 30))
  {
    var s := "3:30";
    assert FirstColon(s) == 1;
    assert s[..1] == "3" && s[2..] == "30";
    assert "3"[..0] == "" && "30"[1..] == "0" && "0"[1..] == "" && "30"[..1] == "3";
    assert TrailingDigits("3") == "3" && LeadingDigits("0") == "0" && LeadingDigits("30") == "30";
    assert DecimalValue("3") == 3 && DecimalValue("30") == 30;
  }

  lemma NoneWith(s: string, word: string, k: nat)
    requires k < |word| && word[k] !in s
    ensures Find(s, word).None?
  {
    forall i: nat ensures !At(s, word, i) {
      assert i + |word| <= |s| ==> s[i..i + |word|][k] == s[i + k];
    }
  }

  // ---------- the day ----------

  function Mentions(s: string, word: string): bool {
    Find(s, word).Some?
  }

  /** The text after the first occurrence of `word`. */
  function After(s: string, word: string): string
    requires Mentions(s, word)
  {
    s[Find(s, word).value + |word|..]
  }

  function UtcDay(nowMs: int): int {
    nowMs / DAY_MS
  }

  /** Days from the UTC day of now to the next given weekday (0 is Sunday), never 0. */
  function WeekdayOffset(nowMs: int, target: int): int {
    var today := (UtcDay(nowMs) + 4) % 7;
    var off := (target - today) % 7;
    if off == 0 then 7 else off
  }

  const WEEK: seq<(string, int)> :=
    [("周一", 1), ("周二", 2), ("周三", 3), ("周四", 4), ("周五", 5), ("周六", 6), ("周日", 0)]

  function WeekdayIn(s: string, nowMs: int, week: seq<(string, int)>): Option<(int, string)> {
    if week == [] then None
    else if Mentions(s, week[0].0) then Some((WeekdayOffset(nowMs, week[0].1), After(s, week[0].0)))
    else WeekdayIn(s, nowMs, week[1..])
  }

  function DayWord(s: string): Option<(int, string)> {
    if Mentions(s, "大后天") then Some((3, After(s, "大后天")))
    else if Mentions(s, "后天") then Some((2, After(s, "后天")))
    else if Mentions(s, "明天") then Some((1, After(s, "明天")))
    else if Mentions(s, "今天") then Some((0, After(s, "今天")))
    else if Mentions(s, "昨天") then Some((-1, After(s, "昨天")))
    else None
  }

  function ParseDay(s: string, nowMs: int): Option<(int, string)> {
    var named := Mentions(s, "今天") || Mentions(s, "明天") || Mentions(s, "后天") || Mentions(s, "昨天")
                 || Mentions(s, "大后天") || Mentions(s, "周");
    if !named && TimeOf(s).Some? then Some((0, s))
    else match DayWord(s)
      case Some(d) => Some(d)
      case None => WeekdayIn(s, nowMs, WEEK)
  }

  // ---------- the moment ----------

  function LocalDay(ms: int, offset: int): int {
    (ms / 1000 + offset) / DAY_SECS
  }

  function DayStart(nowMs: int, offset: int): int {
    (LocalDay(nowMs, offset) * DAY_SECS - offset) * 1000
  }

  function MomentOf(day: int, time: (nat, nat), nowMs: int, offset: int): int {
    var at := DayStart(nowMs, offset) + day * DAY_MS + (time.0 * 3600 + time.1 * 60) * 1000;
    if at <= nowMs && day == 0 then at + DAY_MS else at
  }

  /** Seven days a week, three day words ahead, yesterday: the day offsets there are. */
  function ParseRemind(content: string, nowMs: int, offset: int): Option<int> {
    match ParseDay(content, nowMs)
    case None => None
    case Some((day, rest)) =>
      var time := match TimeOf(rest) case Some(t) => t case None => (9, 0);
      Some(MomentOf(day, time, nowMs, offset))
  }

  lemma DayStartBounds(nowMs: int, offset: int)
    ensures DayStart(nowMs, offset) <= nowMs < DayStart(nowMs, offset) + DAY_MS
  {
    var secs := nowMs / 1000;
    var local := secs + offset;
    assert nowMs == secs * 1000 + nowMs % 1000;
    assert local == local / DAY_SECS * DAY_SECS + local % DAY_SECS;
  }

  /** A same-day reminder falls within the next 24 hours. */
  lemma SameDayIsWithinADay(time: (nat, nat), nowMs: int, offset: int)
    requires time.0 < 24 && time.1 < 60
    ensures nowMs < MomentOf(0, time, nowMs, offset) <= nowMs + DAY_MS
  {
    DayStartBounds(nowMs, offset);
  }

  /** Any other day offset lands on exactly that local day. */
  lemma OffsetLandsOnDay(day: int, time: (nat, nat), nowMs: int, offset: int)
    requires time.0 < 24 && time.1 < 60 && day != 0
    ensures LocalDay(MomentOf(day, time, nowMs, offset), offset) == LocalDay(nowMs, offset) + day
  {
    var today := LocalDay(nowMs, offset);
    var inDay := time.0 * 3600 + time.1 * 60;
    var secs := (today + day) * DAY_SECS - offset + inDay;
    assert MomentOf(day, time, nowMs, offset) == secs * 1000;
    DivideExact((today + day), inDay);
  }

  lemma DivideExact(days: int, rest: int)
    requires 0 <= rest < DAY_SECS
    ensures (days * DAY_SECS + rest) / DAY_SECS == days
  {
  }

  lemma WeekdayOffsetRange(nowMs: int, target: int)
    ensures 1 <= WeekdayOffset(nowMs, target) <= 7
  {
  }

  lemma {:induction false} WeekdayInRange(s: string, nowMs: int, week: seq<(string, int)>)
    ensures WeekdayIn(s, nowMs, week).Some? ==> 1 <= WeekdayIn(s, nowMs, week).value.0 <= 7
  {
    if week != [] {
      WeekdayOffsetRange(nowMs, week[0].1);
      WeekdayInRange(s, nowMs, week[1..]);
    }
  }

  lemma DayWordRange(s: string)
    ensures DayWord(s).Some? ==> -1 <= DayWord(s).value.0 <= 3
  {
  }

  lemma DayRange(s: string, nowMs: int)
    ensures ParseDay(s, nowMs).Some? ==> -1 <= ParseDay(s, nowMs).value.0 <= 7
  {
    DayWordRange(s);
    WeekdayInRange(s, nowMs, WEEK);
  }

  /** The text names yesterday, and no day word that is looked for before it. */
  predicate SaysYesterday(s: string) {
    && Mentions(s, "昨天") && !Mentions(s, "大后天") && !Mentions(s, "后天")
    && !Mentions(s, "明天") && !Mentions(s, "今天")
  }

  lemma YesterdayByText(content: string, nowMs: int)
    requires ParseDay(content, nowMs).Some?
    ensures ParseDay(content, nowMs).value.0 == -1 <==> SaysYesterday(content)
  {
    WeekdayInRange(content, nowMs, WEEK);
  }

  /** A reminder lies in the future exactly when its text does not say "yesterday". */
  lemma FutureIffNotYesterday(content: string, nowMs: int, offset: int)
    requires ParseRemind(content, nowMs, offset).Some?
    ensures ParseRemind(content, nowMs, offset).value > nowMs <==> !SaysYesterday(content)
  {
    var (day, rest) := ParseDay(content, nowMs).value;
    var time := match TimeOf(rest) case Some(t) => t case None => (9, 0);
    YesterdayByText(content, nowMs);
    DayRange(content, nowMs);
    TimeIsLegal(rest);
    if day == 0 {
      SameDayIsWithinADay(time, nowMs, offset);
    } else {
      DayStartBounds(nowMs, offset);
      DayShift(day, nowMs, offset, time);
    }
  }

  /** The day a text names: of the day words, tried in this order, the first that is found. */
  ghost predicate NamesDay(s: string, day: int) {
    || (day == 3 && Mentions(s, "大后天"))
    || (day == 2 && Mentions(s, "后天") && !Mentions(s, "大后天"))
    || (day == 1 && Mentions(s, "明天") && !Mentions(s, "后天") && !Mentions(s, "大后天"))
    || (day == 0 && Mentions(s, "今天") && !Mentions(s, "明天") && !Mentions(s, "后天") && !Mentions(s, "大后天"))
    || (day == -1 && SaysYesterday(s))
  }

  lemma NamedDayIsParsed(content: string, nowMs: int, day: int)
    requires NamesDay(content, day)
    ensures ParseDay(content, nowMs).Some? && ParseDay(content, nowMs).value.0 == day
  {
  }

  /** The time of day a reminder is for: the one written after the day, else nine o'clock. */
  function TimeFor(rest: string): (time: (nat, nat))
    ensures time.0 < 24 && time.1 < 60
  {
    TimeIsLegal(rest);
    match TimeOf(rest) case Some(t) => t case None => (9, 0)
  }

  lemma ParsedMoment(content: string, nowMs: int, offset: int)
    requires ParseDay(content, nowMs).Some?
    ensures var (day, rest) := ParseDay(content, nowMs).value;
            ParseRemind(content, nowMs, offset) == Some(MomentOf(day, TimeFor(rest), nowMs, offset))
  {
  }

  lemma MomentLandsOnDay(content: string, nowMs: int, offset: int, day: int)
    requires ParseDay(content, nowMs).Some? && ParseDay(content, nowMs).value.0 == day && day != 0
    ensures ParseRemind(content, nowMs, offset).Some?
    ensures LocalDay(ParseRemind(content, nowMs, offset).value, offset) == LocalDay(nowMs, offset) + day
  {
    ParsedMoment(content, nowMs, offset);
    OffsetLandsOnDay(day, TimeFor(ParseDay(content, nowMs).value.1), nowMs, offset);
  }

  /** The reminder is on the local day its text names; for "today" within the next 24 hours. */
  lemma NamedDayIsReached(content: string, nowMs: int, offset: int, day: int)
    requires NamesDay(content, day)
    ensures ParseRemind(content, nowMs, offset).Some?
    ensures var at := ParseRemind(content, nowMs, offset).value;
            if day == 0 then nowMs < at <= nowMs + DAY_MS
            else LocalDay(at, offset) == LocalDay(nowMs, offset) + day
  {
    NamedDayIsParsed(content, nowMs, day);
    if day == 0 {
      ParsedMoment(content, nowMs, offset);
      SameDayIsWithinADay(TimeFor(ParseDay(content, nowMs).value.1), nowMs, offset);
    } else {
      MomentLandsOnDay(content, nowMs, offset, day);
    }
  }

  lemma SecondOfDay(days: int, secs: int)
    requires 0 <= secs < DAY_SECS
    ensures (days * DAY_SECS + secs) % DAY_SECS == secs
  {
  }

  lemma WholeSeconds(secs: int, offset: int)
    ensures (secs - offset) * 1000 / 1000 + offset == secs
  {
  }

  lemma MomentSeconds(day: int, time: (nat, nat), nowMs: int, offset: int) returns (days: int)
    ensures MomentOf(day, time, nowMs, offset) / 1000 + offset == days * DAY_SECS + (time.0 * 3600 + time.1 * 60)
  {
    var inDay := time.0 * 3600 + time.1 * 60;
    var today := LocalDay(nowMs, offset);
    var at := DayStart(nowMs, offset) + day * DAY_MS + inDay * 1000;
    days := if at <= nowMs && day == 0 then today + 1 else today + day;
    assert MomentOf(day, time, nowMs, offset) == (days * DAY_SECS + inDay - offset) * 1000;
    WholeSeconds(days * DAY_SECS + inDay, offset);
  }

  /** The second of the local day. */
  function LocalSecond(ms: int, offset: int): int {
    (ms / 1000 + offset) % DAY_SECS
  }

  lemma MomentIsAtItsTime(day: int, time: (nat, nat), nowMs: int, offset: int)
    requires time.0 < 24 && time.1 < 60
    ensures LocalSecond(MomentOf(day, time, nowMs, offset), offset) == time.0 * 3600 + time.1 * 60
  {
    var days := MomentSeconds(day, time, nowMs, offset);
    SecondOfDay(days, time.0 * 3600 + time.1 * 60);
  }

  /** Whatever the day, the reminder is at the written time, or at nine, by the local clock. */
  lemma ReminderIsAtItsTime(content: string, nowMs: int, offset: int, time: (nat, nat))
    requires ParseRemind(content, nowMs, offset).Some?
    requires var written := TimeOf(ParseDay(content, nowMs).value.1);
             written == Some(time) || (written.None? && time == (9, 0))
    ensures LocalSecond(ParseRemind(content, nowMs, offset).value, offset) == time.0 * 3600 + time.1 * 60
  {
    ParsedMoment(content, nowMs, offset);
    assert time == TimeFor(ParseDay(content, nowMs).value.1);
    MomentIsAtItsTime(ParseDay(content, nowMs).value.0, time, nowMs, offset);
  }

  /** It does happen: the bare word for yesterday is read as nine o'clock of that day. */
  lemma YesterdayIsPast(nowMs: int, offset: int)
    ensures ParseRemind("昨天", nowMs, offset).Some? && ParseRemind("昨天", nowMs, offset).value <= nowMs
  {
    YesterdayIsNamed();
    FutureIffNotYesterday("昨天", nowMs, offset);
  }

  lemma YesterdayIsNamed()
    ensures Mentions("昨天", "昨天") && DayWord("昨天") == Some((-1, "")) && SaysYesterday("昨天")
    ensures forall nowMs :: ParseDay("昨天", nowMs) == Some((-1, ""))
  {
    var s := "昨天";
    assert At(s, s, 0);
    assert s[2..] == "";
    NoneWith(s, "后天", 0);
    NoneWith(s, "明天", 0);
    NoneWith(s, "今天", 0);
  }

  /** A day word that is not in the list counts for nothing: with a time the reminder is for the same day. */
  lemma OtherWordsAreToday(content: string, nowMs: int)
    requires '后' !in content && '明' !in content && '今' !in content && '昨' !in content && '周' !in content
    requires TimeOf(content).Some?
    ensures ParseDay(content, nowMs) == Some((0, content))
  {
    NoneWith(content, "今天", 0);
    NoneWith(content, "明天", 0);
    NoneWith(content, "后天", 0);
    NoneWith(content, "昨天", 0);
    NoneWith(content, "大后天", 1);
    NoneWith(content, "周", 0);
  }

  /** It does happen: three days ago at some o'clock is read as that hour of the same day. */
  lemma ThreeDaysAgoIsToday(digit: char, rest: string, nowMs: int)
    requires IsDigit(digit)
    requires '后' !in rest && '明' !in rest && '今' !in rest && '昨' !in rest && '周' !in rest
    ensures var s := ['大', '前', '天', digit] + ['点'] + rest; ParseDay(s, nowMs) == Some((0, s))
  {
    var head := ['大', '前', '天', digit];
    var s := head + ['点'] + rest;
    assert !IsWhitespace(s[0]);
    assert TrimStart(s) == s;
    DigitsAfterWord('大', '前', '天', digit);
    OClockHour(s, 0, head, rest, digit as int - '0' as int);
    OtherWordsAreToday(s, nowMs);
  }

  lemma DigitsAfterWord(a: char, b: char, c: char, digit: char)
    requires !IsDigit(a) && !IsDigit(b) && !IsDigit(c) && IsDigit(digit)
    ensures ParseU32(DigitsIn([a, b, c, digit])) == Some(digit as int - '0' as int)
  {
    NoDigit(a, [b, c, digit]);
    NoDigit(b, [c, digit]);
    NoDigit(c, [digit]);
    assert [a] + [b, c, digit] == [a, b, c, digit] && [b] + [c, digit] == [b, c, digit] && [c] + [digit] == [c, digit];
    assert [digit][1..] == "" && DigitsIn([digit]) == [digit];
    OneDigit(digit);
  }

  lemma OneDigit(digit: char)
    requires IsDigit(digit)
    ensures ParseU32([digit]) == Some(digit as int - '0' as int)
  {
    OneDigitReads(digit);
  }

  lemma NoDigit(c: char, s: string)
    requires !IsDigit(c)
    ensures DigitsIn([c] + s) == DigitsIn(s)
  {
    assert ([c] + s)[1..] == s;
    assert [] + DigitsIn(s) == DigitsIn(s);
  }

  lemma DayShift(day: int, nowMs: int, offset: int, time: (nat, nat))
    requires day != 0 && -1 <= day && time.0 < 24 && time.1 < 60
    requires DayStart(nowMs, offset) <= nowMs < DayStart(nowMs, offset) + DAY_MS
    ensures MomentOf(day, time, nowMs, offset) > nowMs <==> day >= 1
  {
  }

  // ---------- weekdays ----------

  /** The offset is the one number from 1 to 7 that leads from today's UTC day to the weekday. */
  lemma WeekdayOffsetExact(nowMs: int, target: int, off: int)
    requires 0 <= target < 7 && 1 <= off <= 7
    ensures (UtcDay(nowMs) + off + 4) % 7 == target <==> off == WeekdayOffset(nowMs, target)
  {
    WeekdayArithmetic(UtcDay(nowMs) + 4, target, off);
  }

  lemma WeekdayArithmetic(day: int, target: int, off: int)
    requires 0 <= target < 7 && 1 <= off <= 7
    ensures (day + off) % 7 == target <==>
            off == (var o := (target - day % 7) % 7; if o == 0 then 7 else o)
  {
    var r := day % 7;
    assert (day + off) % 7 == (r + off) % 7;
    assert (target - r) % 7 == if target >= r then target - r else target - r + 7;
  }

  /** It leads to the local weekday exactly when the local and the UTC date agree. */
  lemma WeekdayIsLocalIff(nowMs: int, offset: int, target: int)
    requires 0 <= target < 7 && -DAY_SECS < offset < DAY_SECS
    ensures (LocalDay(nowMs, offset) + WeekdayOffset(nowMs, target) + 4) % 7 == target <==>
            LocalDay(nowMs, offset) == UtcDay(nowMs)
  {
    var off := WeekdayOffset(nowMs, target);
    WeekdayOffsetRange(nowMs, target);
    WeekdayOffsetExact(nowMs, target, off);
    LocalDayNear(nowMs, offset);
    ShiftedWeekday(UtcDay(nowMs) + off + 4, LocalDay(nowMs, offset) - UtcDay(nowMs), target);
  }

  /** It does happen: at 20:00 UTC on a Thursday, eight hours east, "Monday" is counted to a Tuesday. */
  lemma WeekdayCanBeOffByOne()
    ensures WeekdayOffset(72_000_000, 1) == 4 && (LocalDay(72_000_000, 28_800) + 4 + 4) % 7 == 2
  {
  }

  lemma LocalDayNear(nowMs: int, offset: int)
    requires -DAY_SECS < offset < DAY_SECS
    ensures -1 <= LocalDay(nowMs, offset) - UtcDay(nowMs) <= 1
  {
    var secs := nowMs / 1000;
    assert secs / DAY_SECS == UtcDay(nowMs);
    var d := secs / DAY_SECS;
    assert d * DAY_SECS <= secs < d * DAY_SECS + DAY_SECS;
    DayBetween(secs + offset, d);
  }

  lemma DayBetween(local: int, d: int)
    requires (d - 1) * DAY_SECS <= local < (d + 2) * DAY_SECS
    ensures d - 1 <= local / DAY_SECS <= d + 1
  {
  }

  lemma ShiftedWeekday(day: int, shift: int, target: int)
    requires day % 7 == target && -1 <= shift <= 1
    ensures (day + shift) % 7 == target <==> shift == 0
  {
  }

  // ---------- named weekdays ----------

  const NUMERALS: string := "一二三四五六日"

  /** The text names this day of the week, none before it, and no day word. */
  ghost predicate NamesWeekday(s: string, i: nat) {
    && i < |WEEK| && Mentions(s, WEEK[i].0) && (forall k :: 0 <= k < i ==> !Mentions(s, WEEK[k].0))
    && DayWord(s).None?
  }

  /** The seven names in the order of the numerals, Monday first. */
  lemma WeekIsComplete(i: nat)
    requires i < 7
    ensures |WEEK| == 7 && WEEK[i].0 == ['周', NUMERALS[i]] && WEEK[i].1 == (i + 1) % 7
  {
  }

  lemma {:induction false} FirstNamedIsTaken(s: string, nowMs: int, week: seq<(string, int)>, i: nat)
    requires i < |week| && Mentions(s, week[i].0) && forall k :: 0 <= k < i ==> !Mentions(s, week[k].0)
    ensures WeekdayIn(s, nowMs, week) == Some((WeekdayOffset(nowMs, week[i].1), After(s, week[i].0)))
  {
    if i > 0 {
      assert forall k :: 0 <= k < i - 1 ==> week[1..][k] == week[k + 1];
      FirstNamedIsTaken(s, nowMs, week[1..], i - 1);
    }
  }

  lemma MentionsPart(s: string, a: char, b: char)
    requires Mentions(s, [a, b])
    ensures Mentions(s, [a])
  {
    var i := Find(s, [a, b]).value;
    assert s[i..i + 1] == [s[i..i + 2][0]];
    assert At(s, [a], i);
  }

  lemma NamedWeekdayOffset(content: string, nowMs: int, i: nat, target: int)
    requires NamesWeekday(content, i) && target == (i + 1) % 7
    ensures ParseDay(content, nowMs).Some? && ParseDay(content, nowMs).value.0 == WeekdayOffset(nowMs, target)
  {
    WeekIsComplete(i);
    MentionsPart(content, '周', NUMERALS[i]);
    FirstNamedIsTaken(content, nowMs, WEEK, i);
  }

  lemma OffsetLeadsToWeekday(nowMs: int, target: int)
    requires 0 <= target < 7
    ensures var off := WeekdayOffset(nowMs, target); 1 <= off <= 7 && (UtcDay(nowMs) + off + 4) % 7 == target
  {
    WeekdayOffsetRange(nowMs, target);
    WeekdayOffsetExact(nowMs, target, WeekdayOffset(nowMs, target));
  }

  /** A named weekday is one to seven days off, and is that weekday counted from the UTC day of now. */
  lemma NamedWeekdayIsNext(content: string, nowMs: int, i: nat, target: int)
    requires NamesWeekday(content, i) && target == (i + 1) % 7
    ensures ParseDay(content, nowMs).Some?
    ensures var day := ParseDay(content, nowMs).value.0; 1 <= day <= 7 && (UtcDay(nowMs) + day + 4) % 7 == target
  {
    NamedWeekdayOffset(content, nowMs, i, target);
    OffsetLeadsToWeekday(nowMs, target);
  }

  // ---------- what the digits say ----------

  lemma {:induction false} TrailingRun(pre: string, a: string)
    requires AllDigits(a) && (pre != "" ==> !IsDigit(pre[|pre| - 1]))
    ensures TrailingDigits(pre + a) == a
  {
    if a == "" {
      assert pre + a == pre;
    } else {
      assert (pre + a)[..|pre + a| - 1] == pre + a[..|a| - 1];
      TrailingRun(pre, a[..|a| - 1]);
    }
  }

  lemma {:induction false} LeadingRun(b: string, tail: string)
    requires AllDigits(b) && (tail != "" ==> !IsDigit(tail[0]))
    ensures LeadingDigits(b + tail) == b
  {
    if b == "" {
      assert b + tail == tail;
    } else {
      assert (b + tail)[1..] == b[1..] + tail;
      LeadingRun(b[1..], tail);
    }
  }

  lemma FirstColonAt(head: string, colon: char, rest: string)
    requires IsColon(colon) && forall k :: 0 <= k < |head| ==> !IsColon(head[k])
    ensures var t := head + [colon] + rest;
            FirstColon(t) == |head| && t[..|head|] == head && t[|head| + 1..] == rest
  {
    var t := head + [colon] + rest;
    assert t[|head|] == colon && forall k :: 0 <= k < |head| ==> t[k] == head[k];
  }

  /** `HH:MM`, with whatever before and after: the digits on either side of the first colon are hour and minute,
    * or there is no time at all. */
  lemma ClockReadsDigits(pre: string, a: string, colon: char, b: string, tail: string)
    requires AllDigits(a) && a != "" && AllDigits(b) && b != "" && IsColon(colon)
    requires (pre != "" ==> !IsDigit(pre[|pre| - 1])) && (tail != "" ==> !IsDigit(tail[0]))
    requires forall k :: 0 <= k < |pre| ==> !IsColon(pre[k])
    ensures var h, m := DecimalValue(a), DecimalValue(b);
            ClockTime(pre + a + [colon] + (b + tail)) == if h <= 23 && m < 60 then Some((h, m)) else None
  {
    FirstColonAt(pre + a, colon, b + tail);
    TrailingRun(pre, a);
    LeadingRun(b, tail);
  }

  /** `N点半` is half past; `N点MM` gives the minute, a number past 59 counts as none. */
  lemma OClockReadsMinutes(head: string, b: string, tail: string, pm: nat)
    requires OClock(head, b + tail, pm).Some? && AllDigits(b) && (tail != "" ==> !IsDigit(tail[0]))
    ensures b == "" && "半" <= tail ==> OClock(head, b + tail, pm).value.1 == 30
    ensures b != "" ==> OClock(head, b + tail, pm).value.1 == if DecimalValue(b) < 60 then DecimalValue(b) else 0
    ensures b == "" && !("半" <= tail) ==> OClock(head, b + tail, pm).value.1 == 0
  {
    LeadingRun(b, tail);
    assert b == "" ==> b + tail == tail;
    assert b != "" ==> (b + tail)[0] == b[0];
  }
}

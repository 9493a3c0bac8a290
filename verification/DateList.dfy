/** Seconds, days apart and the date list (toTime, compareDayStr, datePlusOf in MyTime.h;
    GetReqDateList in LightPlan.cpp), with the 32-bit products of the code. */
module DateList {
  import opened Calendar
  import opened DateText

  const WORD := 0x1_0000_0000
  const HALF := 0x8000_0000
  const DAY_SECS := 86400

  /** How many times a 32-bit result wraps round, and what is left of it. */
  function Wraps(x: int): int { (x + HALF) / WORD }

  function Wrap32(x: int): (r: int)
    ensures -HALF <= r < HALF && r == x - WORD * Wraps(x)
  {
    (x + HALF) % WORD - HALF
  }

  /** A cast of a double to an int. */
  function Trunc(x: real): (t: int)
    ensures x >= 0.0 ==> 0 <= t && t as real <= x < t as real + 1.0
    ensures x <= 0.0 ==> t <= 0 && t as real - 1.0 < x <= t as real
  {
    if x >= 0.0 then x.Floor else -(-x).Floor
  }

  /** toTime of a day and a time, in a zone given in hours: days and hours are multiplied and added as
      int, minutes as long. */
  function TimeOf(d: Date, hour: int, min: int, zone: real): int
    requires d.month <= 13
  {
    Seconds(CodeDay(d), hour, min, zone)
  }

  function Seconds(days: int, hour: int, min: int, zone: real): int {
    Wrap32(Wrap32(days * DAY_SECS) + Trunc((hour as real - zone) * 3600.0)) + min * 60
  }

  /** The numbers in a text: the day, and hours and minutes if the text goes on. */
  datatype Clock = Clock(ymd: int, hour: int, min: int)

  predicate More(s: string, i: nat) { i < |s| && s[i] != 0 as char }

  function ReadClock(s: string): Clock {
    var (ymd, i) := NumberAt(s, 0);
    var (hour, j) := Following(s, i);
    Clock(ymd, hour, Following(s, j).0)
  }

  /** The number behind the character at i, if the text goes on there, and 0 otherwise. */
  function Following(s: string, i: nat): (r: (int, nat))
    requires i <= |s|
    ensures r.1 <= |s|
  {
    if More(s, i) then NumberAt(s, i + 1) else (0, i)
  }

  function DateIn(s: string): Date {
    var ymd := ReadClock(s).ymd;
    Date(Quot(ymd, 10000), Rem(Quot(ymd, 100), 100), Rem(ymd, 100))
  }

  /** toTime of any text whose month mon_day has entries for. */
  method ToTime(s: string, zone: real) returns (t: int)
    requires DateIn(s).month <= 13
    ensures t == TimeOf(DateIn(s), ReadClock(s).hour, ReadClock(s).min, zone)
  {
    var ymd, hour, min := Numbers(s);
    var offset := DayOffset(Quot(ymd, 10000), Rem(Quot(ymd, 100), 100), Rem(ymd, 100));
    t := Seconds(offset, hour, min, zone);
  }

  /** The three numbers that toTime reads with strtol. */
  method Numbers(s: string) returns (ymd: int, hour: int, min: int)
    ensures ReadClock(s) == Clock(ymd, hour, min)
  {
    var next;
    ymd, next := StrTol(s, 0);
    hour, next := ReadFollowing(s, next);
    min, next := ReadFollowing(s, next);
  }

  method ReadFollowing(s: string, i: nat) returns (v: int, next: nat)
    requires i <= |s|
    ensures (v, next) == Following(s, i)
  {
    v, next := 0, i;
    if i < |s| && s[i] != 0 as char {
      v, next := StrTol(s, i + 1);
    }
  }

  /** s is a day, perhaps with hours, perhaps with minutes. */
  ghost predicate Stamp(s: string, d: Date, hh: string, mm: string) {
    && Shown(d) && Digits(hh) && Digits(mm)
    && (|| (s == Print(d) && hh == "" && mm == "")
        || (s == Print(d) + "_" + hh && mm == "")
        || s == Print(d) + "_" + hh + ":" + mm)
  }

  /** A printed day and time is read as it was meant. */
  lemma StampRead(s: string, d: Date, hh: string, mm: string)
    requires Stamp(s, d, hh, mm)
    ensures DateIn(s) == d && ReadClock(s) == Clock(Read(Print(d)), Read(hh), Read(mm))
  {
    StampParts(s, d, hh, mm);
    PartsRead(s, Print(d), hh, mm);
    ReadPrint(d);
    DateRead(s, d);
  }

  lemma DateRead(s: string, d: Date)
    requires Valid(d) && ReadClock(s).ymd == DayNumber(d) && d.year >= 0
    ensures DateIn(s) == d
  {
    SplitNumber(d);
  }

  lemma PartsRead(s: string, day: string, hh: string, mm: string)
    requires |s| >= 8 && s[0..8] == day && Digits(day) && Digits(hh) && Digits(mm)
    requires |s| == 8 ==> hh == "" && mm == ""
    requires |s| > 8 ==>
      var i := 9 + |hh|;
      && s[8] == '_' && i <= |s| && s[9..i] == hh
      && (|s| == i ==> mm == "") && (|s| > i ==> s[i] == ':' && s[i + 1..|s|] == mm)
    ensures ReadClock(s) == Clock(Read(day), Read(hh), Read(mm))
  {
    NumberIs(s, 0, 8);
    if |s| > 8 {
      HoursRead(s, hh);
      MinutesRead(s, 9 + |hh|, mm);
    }
  }

  lemma HoursRead(s: string, hh: string)
    requires |s| >= 9 + |hh| && s[8] == '_' && Digits(hh) && s[9..9 + |hh|] == hh
    requires |s| > 9 + |hh| ==> s[9 + |hh|] == ':'
    ensures Following(s, 8) == (Read(hh), 9 + |hh|)
  {
    NumberIs(s, 9, 9 + |hh|);
  }

  lemma MinutesRead(s: string, i: nat, mm: string)
    requires i <= |s| && Digits(mm) && (|s| == i ==> mm == "")
    requires |s| > i ==> s[i] == ':' && s[i + 1..|s|] == mm
    ensures Following(s, i).0 == Read(mm)
  {
    if i < |s| { NumberIs(s, i + 1, |s|); }
  }

  lemma SplitNumber(d: Date)
    requires Valid(d)
    ensures var n := DayNumber(d);
            n / 10000 == d.year && n / 100 % 100 == d.month && n % 100 == d.day
  {
    assert DayNumber(d) / 100 == d.year * 100 + d.month;
  }

  /** The days that toTime adds up before it turns them into seconds. */
  method DayOffset(year: int, month: int, day: int) returns (offset: int)
    requires month <= 13
    ensures offset == CodeDay(Date(year, month, day))
  {
    var leapYears := Quot(year - 1969, 4);
    var i := Quot(year - 2001, 100);
    leapYears := leapYears - (Quot(i, 4) * 3 + Rem(i, 4));
    offset := 0;
    var m := 0;
    while m < month - 1
      invariant 0 <= m <= (if month < 1 then 0 else month - 1) && offset == CodeMonths(m)
    {
      offset := offset + MON_DAY[m];
      m := m + 1;
    }
    if Leap(year) && month > 2 {
      offset := offset + 1;
    }
    offset := offset + (day - 1);
    offset := offset + ((year - 1970) * 365 + leapYears);
  }

  lemma StampParts(s: string, d: Date, hh: string, mm: string)
    requires Stamp(s, d, hh, mm)
    ensures |s| >= 8 && s[0..8] == Print(d) && (|s| == 8 ==> hh == "" && mm == "")
    ensures |s| > 8 ==>
      var i := 9 + |hh|;
      && s[8] == '_' && i <= |s| && s[9..i] == hh
      && (|s| == i ==> mm == "") && (|s| > i ==> s[i] == ':' && s[i + 1..|s|] == mm)
  {
    if s != Print(d) {
      if s == Print(d) + "_" + hh && mm == "" {
        StampHours(s, d, hh, "");
      } else {
        StampHours(s, d, hh, ":" + mm);
        assert s[9 + |hh|..][1..] == mm;
      }
    }
  }

  lemma StampHours(s: string, d: Date, hh: string, rest: string)
    requires Shown(d) && (s == Print(d) + "_" + hh + rest || (rest == "" && s == Print(d) + "_" + hh))
    ensures |s| == 9 + |hh| + |rest| && s[0..8] == Print(d) && s[8] == '_' && s[9..9 + |hh|] == hh
        && s[9 + |hh|..] == rest
  {
    var a := Print(d) + "_";
    assert |a| == 9;
  }

  // gmtime and strftime

  /** The day toString shows for a time: gmtime is taken to invert the day count. */
  function DayAt(t: int): Date { DateOf(t / DAY_SECS) }

  lemma ShownAt(n: int)
    requires -49711 <= n <= 49710
    ensures Shown(DateOf(n))
  {
    var d := DateOf(n);
    DayNoOf(n);
    WithinYear(d);
    if d.year > 9999 {
      YearsGrow(1970, d.year);
    } else if d.year < 0 {
      YearsGrow(d.year + 1, 1970);
    }
  }

  method ToDayString(t: int) returns (s: string)
    requires -2 * HALF <= t < 2 * HALF
    ensures Shown(DayAt(t)) && s == Print(DayAt(t))
  {
    ShownAt(t / DAY_SECS);
    s := Print(DayAt(t));
  }

  function DayTime(d: Date): int
    requires Valid(d)
  {
    TimeOf(d, 0, 0, 0.0)
  }

  function PlusDay(d: Date, num: int): (r: Date)
    requires Valid(d)
    ensures Valid(r)
  {
    DayAt(DayTime(d) + Wrap32(num * DAY_SECS))
  }

  function DaysApart(a: Date, b: Date): int
    requires Valid(a) && Valid(b)
  {
    if a == b then 0 else Quot(DayTime(b) - DayTime(a), DAY_SECS)
  }

  lemma Midnight(d: Date, s: string)
    requires Shown(d) && s == Print(d)
    ensures DateIn(s + "_00:00") == d && ReadClock(s + "_00:00").hour == 0 && ReadClock(s + "_00:00").min == 0
  {
    var t := s + "_00:00";
    assert t == Print(d) + "_" + "00" + ":" + "00";
    StampRead(t, d, "00", "00");
    assert Read("00") == 0;
  }

  /** toTime of a day at midnight in zone 0. */
  method MidnightOf(day: string, ghost d: Date) returns (t: int)
    requires Shown(d) && day == Print(d)
    ensures t == DayTime(d) && -HALF <= t < HALF
  {
    Midnight(d, day);
    t := ToTime(day + "_00:00", 0.0);
  }

  method CompareDayStr(a: string, b: string, ghost da: Date, ghost db: Date) returns (n: int)
    requires Shown(da) && Shown(db) && a == Print(da) && b == Print(db)
    ensures n == DaysApart(da, db)
  {
    TextOrder(da, db);
    if a == b {
      return 0;
    }
    var ta := MidnightOf(a, da);
    var tb := MidnightOf(b, db);
    n := Quot(tb - ta, DAY_SECS);
  }

  method DatePlusOf(day: string, num: int, ghost d: Date) returns (s: string)
    requires |day| >= 8 && Shown(d) && day[..8] == Print(d) && -HALF <= num < HALF
    ensures Shown(PlusDay(d, num)) && s == Print(PlusDay(d, num))
  {
    var t := MidnightOf(day[..8], d);
    t := t + Wrap32(num * DAY_SECS);
    assert DayAt(t) == PlusDay(d, num);
    s := ToDayString(t);
  }

  // When the arithmetic is right

  lemma DayTimeIs(d: Date)
    requires Valid(d) && d.year >= 1970
    ensures DayTime(d) == DayNo(d) * DAY_SECS - WORD * Wraps(DayNo(d) * DAY_SECS)
  {
    ClosedFormExact(d);
  }

  lemma ZoneSeconds(days: int, hour: int, min: int, zone: real, east: int)
    requires zone * 3600.0 == east as real
    ensures Seconds(days, hour, min, zone) == Wrap32(Wrap32(days * DAY_SECS) + hour * 3600 - east) + min * 60
  {
    TruncZone(hour, zone, east);
  }

  lemma TruncZone(hour: int, zone: real, east: int)
    requires zone * 3600.0 == east as real
    ensures Trunc((hour as real - zone) * 3600.0) == hour * 3600 - east
  {
    var x := (hour as real - zone) * 3600.0;
    assert x == (hour * 3600 - east) as real;
    var t := Trunc(x);
  }

  /** Read as local time in a zone of a whole number of seconds east, a day and a time give the instant
      they name exactly when the two wraps cancel. */
  lemma InstantExact(d: Date, hour: int, min: int, zone: real, east: int)
    requires Valid(d) && d.year >= 1970 && zone * 3600.0 == east as real
    ensures var day, clock := DayNo(d) * DAY_SECS, hour * 3600 - east;
            TimeOf(d, hour, min, zone) == day + hour * 3600 + min * 60 - east <==>
              Wraps(day) + Wraps(Wrap32(day) + clock) == 0
  {
    ClosedFormExact(d);
    ZoneSeconds(DayNo(d), hour, min, zone, east);
    WrapTwice(DayNo(d) * DAY_SECS, hour * 3600 - east);
  }

  lemma WrapTwice(a: int, x: int)
    ensures Wrap32(Wrap32(a) + x) == a + x - WORD * (Wraps(a) + Wraps(Wrap32(a) + x))
  {
  }

  lemma OffByWords(n: int, k: int)
    ensures (n * DAY_SECS - WORD * k) / DAY_SECS == n <==> k == 0
    ensures Quot(n * DAY_SECS - WORD * k, DAY_SECS) == n <==> k == 0
  {
  }

  lemma DateOfDistinct(m: int, n: int)
    ensures DateOf(m) == DateOf(n) <==> m == n
  {
    DayNoOf(m);
    DayNoOf(n);
  }

  lemma PlusTime(d: Date, num: int)
    requires Valid(d) && d.year >= 1970
    ensures DayTime(d) + Wrap32(num * DAY_SECS) ==
            (DayNo(d) + num) * DAY_SECS - WORD * (Wraps(DayNo(d) * DAY_SECS) + Wraps(num * DAY_SECS))
  {
    DayTimeIs(d);
  }

  /** datePlusOf moves by num days exactly when the wraps of its two 32-bit products cancel. */
  lemma PlusExact(d: Date, num: int)
    requires Valid(d) && d.year >= 1970
    ensures PlusDay(d, num) == DateOf(DayNo(d) + num) <==> Wraps(DayNo(d) * DAY_SECS) + Wraps(num * DAY_SECS) == 0
  {
    PlusTime(d, num);
    var n, k := DayNo(d) + num, Wraps(DayNo(d) * DAY_SECS) + Wraps(num * DAY_SECS);
    OffByWords(n, k);
    DateOfDistinct((n * DAY_SECS - WORD * k) / DAY_SECS, n);
  }

  /** compareDayStr counts the days between two dates exactly when both times wrap equally often. */
  lemma CompareExact(a: Date, b: Date)
    requires Valid(a) && Valid(b) && a.year >= 1970 && b.year >= 1970
    ensures DaysApart(a, b) == DayNo(b) - DayNo(a) <==> Wraps(DayNo(a) * DAY_SECS) == Wraps(DayNo(b) * DAY_SECS)
  {
    DayTimeIs(a);
    DayTimeIs(b);
    var n, k := DayNo(b) - DayNo(a), Wraps(DayNo(b) * DAY_SECS) - Wraps(DayNo(a) * DAY_SECS);
    assert DayTime(b) - DayTime(a) == n * DAY_SECS - WORD * k;
    OffByWords(n, k);
  }

  /** The last day whose seconds fit: the nineteenth of January 2038. */
  const LAST_DAY := 24855
  const LAST_DATE := Date(2038, 1, 19)

  lemma LastDayIs()
    ensures DayNo(LAST_DATE) == LAST_DAY && DateOf(LAST_DAY) == LAST_DATE
    ensures forall n :: -24855 <= n ==> (n <= LAST_DAY <==> Wraps(n * DAY_SECS) == 0)
  {
    var d := Date(2038, 1, 19);
    ClosedFormExact(d);
    DateOfNo(d);
  }

  /** From 1970 to 17 January 2038, in zones within a day of Greenwich, nothing wraps. */
  lemma InstantRead(d: Date, hour: int, min: int, zone: real, east: int)
    requires Valid(d) && d.year >= 1970 && Before(d, Date(2038, 1, 18)) && 0 <= hour < 24
    requires zone * 3600.0 == east as real && -DAY_SECS <= east <= DAY_SECS
    ensures TimeOf(d, hour, min, zone) == DayNo(d) * DAY_SECS + hour * 3600 + min * 60 - east
  {
    InstantExact(d, hour, min, zone, east);
    DaysUpTo(d);
  }

  lemma DaysUpTo(d: Date)
    requires Valid(d) && d.year >= 1970 && Before(d, Date(2038, 1, 18))
    ensures 0 <= DayNo(d) < LAST_DAY - 1
  {
    LastDayIs();
    var eve := Date(2038, 1, 18);
    DayNoOrder(d, eve);
    DayNoOrder(eve, LAST_DATE);
    DayNoOrder(Date(1970, 1, 1), d);
  }

  lemma DateFromEpoch(n: int)
    requires n >= 0
    ensures DateOf(n).year >= 1970
  {
  }

  /** Up to that day, adding days is right. */
  lemma PlusRight(d: Date, num: int)
    requires Valid(d) && d.year >= 1970 && DayNo(d) <= LAST_DAY && -LAST_DAY <= num <= LAST_DAY
    ensures PlusDay(d, num) == DateOf(DayNo(d) + num)
  {
    DayNoOrder(d, EPOCH);
    LastDayIs();
    PlusExact(d, num);
  }

  lemma CompareRight(a: Date, b: Date)
    requires Valid(a) && Valid(b) && a.year >= 1970 && b.year >= 1970
    requires DayNo(a) <= LAST_DAY && DayNo(b) <= LAST_DAY
    ensures DaysApart(a, b) == DayNo(b) - DayNo(a)
  {
    DayNoOrder(a, EPOCH);
    DayNoOrder(b, EPOCH);
    LastDayIs();
    CompareExact(a, b);
  }

  /** Up to that day, comparing undoes adding. */
  lemma CompareUndoesPlus(d: Date, num: int)
    requires Valid(d) && d.year >= 1970 && DayNo(d) <= LAST_DAY
    requires -LAST_DAY <= num <= LAST_DAY && 0 <= DayNo(d) + num <= LAST_DAY
    ensures DaysApart(d, PlusDay(d, num)) == num
  {
    var n := DayNo(d) + num;
    PlusRight(d, num);
    DayNoOf(n);
    DateFromEpoch(n);
    CompareRight(d, DateOf(n));
  }

  // The date list

  /** The date of GetReqDateList's loop after k turns. */
  ghost function LoopDate(start: Date, k: nat): (d: Date)
    requires Valid(start)
    ensures Valid(d)
  {
    if k == 0 then start else PlusDay(LoopDate(start, k - 1), 1)
  }

  /** Some turn gets past the end. */
  ghost predicate LoopEnds(start: Date, end: Date)
    requires Valid(start)
  {
    exists k: nat :: Before(end, LoopDate(start, k))
  }

  /** A sum of two wrapped products never reaches beyond the day after the last one. */
  lemma PlusBound(d: Date)
    requires Valid(d)
    ensures DayNo(PlusDay(d, 1)) <= LAST_DAY + 1
  {
    var t := DayTime(d);
    DayTimeBound(d);
    OneDay();
    assert PlusDay(d, 1) == DayAt(t + DAY_SECS);
    DayNoOf((t + DAY_SECS) / DAY_SECS);
  }

  lemma DayTimeBound(d: Date)
    requires Valid(d)
    ensures -HALF <= DayTime(d) < HALF
  {
  }

  lemma OneDay()
    ensures Wrap32(1 * DAY_SECS) == DAY_SECS
  {
  }

  lemma NextListed(n: int)
    requires 0 <= n <= LAST_DAY
    ensures PlusDay(DateOf(n), 1) == DateOf(n + 1)
  {
    DayNoOf(n);
    DateFromEpoch(n);
    PlusRight(DateOf(n), 1);
  }

  lemma {:induction false} LoopDateIs(start: Date, m: int, k: nat)
    requires start == DateOf(m) && 0 <= m && m + k <= LAST_DAY + 1
    ensures LoopShows(start, k, m + k)
  {
    if k == 0 {
      assert LoopDate(start, 0) == DateOf(m);
    } else {
      LoopDateIs(start, m, k - 1);
      LoopStep(start, k - 1, m + k - 1);
    }
  }

  /** After k turns the loop is at the n-th day; stated so that nobody has to count there. */
  ghost predicate LoopShows(start: Date, k: nat, n: int)
    requires Valid(start)
  {
    forall j: nat, i :: j == k && i == n ==> LoopDate(start, j) == DateOf(i)
  }

  lemma LoopStep(start: Date, k: nat, n: int)
    requires Valid(start) && 0 <= n <= LAST_DAY && LoopShows(start, k, n)
    ensures LoopShows(start, k + 1, n + 1)
  {
    assert LoopDate(start, k) == DateOf(n);
    LoopNext(start, k + 1, DateOf(n));
    NextListed(n);
    assert LoopDate(start, k + 1) == DateOf(n + 1);
  }

  lemma LoopNext(start: Date, k: nat, before: Date)
    requires Valid(start) && k > 0 && before == LoopDate(start, k - 1)
    ensures LoopDate(start, k) == PlusDay(before, 1)
  {
  }

  lemma StaysInside(start: Date, end: Date, k: nat)
    requires Valid(start) && Valid(end) && !Before(end, start) && DayNo(end) > LAST_DAY
    ensures !Before(end, LoopDate(start, k))
  {
    if k > 0 {
      PlusBound(LoopDate(start, k - 1));
      DayNoOrder(end, LoopDate(start, k));
    }
  }

  lemma NextIsLater(n: int)
    ensures Before(DateOf(n), DateOf(n + 1))
  {
  }

  lemma GetsPast(start: Date, end: Date, m: int, n: int)
    requires start == DateOf(m) && end == DateOf(n) && 0 <= m <= n <= LAST_DAY
    ensures LoopEnds(start, end)
  {
    var k: nat := n + 1 - m;
    LoopDateIs(start, m, k);
    NextIsLater(n);
    assert m + k == n + 1;
    assert LoopDate(start, k) == DateOf(n + 1);
    assert Before(end, LoopDate(start, k));
  }

  /** The loop over dates ends exactly when there is nothing to list or its last day's seconds fit:
      with a later end it starts over in 1901 for ever. */
  lemma LoopEndsExactly(start: Date, end: Date)
    requires Valid(start) && Valid(end) && start.year >= 1970
    ensures LoopEnds(start, end) <==> Before(end, start) || !Before(LAST_DATE, end)
  {
    LastDayIs();
    DayNoOrder(LAST_DATE, end);
    if Before(end, start) {
      assert LoopDate(start, 0) == start;
    } else if DayNo(end) <= LAST_DAY {
      DayNoOrder(end, start);
      DayNoOrder(start, EPOCH);
      DateOfNo(start);
      DateOfNo(end);
      GetsPast(start, end, DayNo(start), DayNo(end));
    } else {
      forall k: nat
        ensures !Before(end, LoopDate(start, k))
      {
        StaysInside(start, end, k);
      }
    }
  }

  class CityInfo {
    var arvTime: string
    var deptTime: string
    var checkInDate: string
    var checkOutDate: string
    var dateList: seq<string>

    constructor (arvTime: string, deptTime: string, checkInDate: string, checkOutDate: string)
      ensures this.arvTime == arvTime && this.deptTime == deptTime
      ensures this.checkInDate == checkInDate && this.checkOutDate == checkOutDate && dateList == []
    {
      this.arvTime, this.deptTime := arvTime, deptTime;
      this.checkInDate, this.checkOutDate := checkInDate, checkOutDate;
      dateList := [];
    }

    predicate Stays()
      reads this
    {
      checkInDate != "" && checkOutDate != ""
    }

    /** The first and last day asked for: the hotel's dates, or the day of arrival alone. */
    ghost predicate Asked(s: Date, e: Date)
      reads this
    {
      Shown(s) && Shown(e) && 1970 <= s.year && 1970 <= e.year &&
      if Stays() then checkInDate == Print(s) && checkOutDate == Print(e)
      else Print(s) <= arvTime && e == s
    }

    method GetReqDateList(ghost s: Date, ghost e: Date)
      requires Asked(s, e) && (Before(e, s) || !Before(LAST_DATE, e))
      modifies this`dateList
      ensures |dateList| == if Before(e, s) then 0 else DayNo(e) - DayNo(s) + 1
      ensures Successive(dateList, DayNo(s))
    {
      dateList := [];
      var startDate, endDate := FirstEight(arvTime), FirstEight(deptTime);
      if Stays() {
        startDate, endDate := checkInDate, checkOutDate;
      } else {
        endDate := startDate;
      }
      AskedDays(s, e, startDate, endDate);
      dateList := Days(startDate, endDate, DayNo(s), DayNo(e));
    }
  }

  /** substr(0, 8): a shorter text is taken whole. */
  function FirstEight(s: string): string { if |s| < 8 then s else s[..8] }

  /** text shows the n-th day after the first of January 1970. */
  ghost predicate IsDay(text: string, n: int) { Shown(DateOf(n)) && text == Print(DateOf(n)) }

  lemma AskedDays(s: Date, e: Date, start: string, end: string)
    requires Shown(s) && Shown(e) && s.year >= 1970 && start == Print(s) && end == Print(e)
    requires Before(e, s) || !Before(LAST_DATE, e)
    ensures IsDay(start, DayNo(s)) && IsDay(end, DayNo(e)) && DayNo(s) >= 0
    ensures DayNo(e) < DayNo(s) || DayNo(e) <= LAST_DAY
    ensures Before(e, s) <==> DayNo(e) < DayNo(s)
  {
    DateOfNo(s);
    DateOfNo(e);
    DayNoOrder(e, s);
    DayNoOrder(s, EPOCH);
    DayNoOrder(LAST_DATE, e);
    LastDayIs();
  }

  lemma DayTextOrder(a: string, m: int, b: string, n: int)
    requires IsDay(a, m) && IsDay(b, n)
    ensures LexLe(a, b) <==> m <= n
  {
    TextOrder(DateOf(m), DateOf(n));
    DayNoOf(m);
    DayNoOf(n);
  }

  /** The list shows one day after the other, from the m-th. */
  ghost predicate Successive(list: seq<string>, m: int) {
    forall i :: 0 <= i < |list| ==> IsDay(list[i], m + i)
  }

  lemma SuccessiveNext(list: seq<string>, m: int, date: string, d: int)
    requires Successive(list, m) && IsDay(date, d) && d == m + |list|
    ensures Successive(list + [date], m)
  {
  }

  /** The loop of GetReqDateList, from the m-th day to the n-th. */
  method Days(startDate: string, endDate: string, ghost m: int, ghost n: int) returns (list: seq<string>)
    requires IsDay(startDate, m) && IsDay(endDate, n) && m >= 0 && (n < m || n <= LAST_DAY)
    ensures |list| == (if n < m then 0 else n - m + 1) && Successive(list, m)
  {
    list := [];
    var date := startDate;
    ghost var d := m;
    DayTextOrder(date, d, endDate, n);
    while LexLe(date, endDate)
      invariant d == m + |list| && IsDay(date, d) && (d == m || d <= n + 1)
      invariant LexLe(date, endDate) <==> d <= n
      invariant Successive(list, m)
      decreases n - d
    {
      SuccessiveNext(list, m, date, d);
      list := list + [date];
      date := NextDate(date, d);
      d := d + 1;
      DayTextOrder(date, d, endDate, n);
    }
  }

  method NextDate(date: string, ghost n: int) returns (next: string)
    requires IsDay(date, n) && 0 <= n <= LAST_DAY
    ensures IsDay(next, n + 1)
  {
    assert date[..8] == date;
    next := DatePlusOf(date, 1, DateOf(n));
    NextListed(n);
  }
}

/**
  The calendar export of a study plan (`generateICS`,
  services/geminiService.ts:398-447): an iCalendar (RFC 5545) document with
  one VEVENT per session. Each day's sessions are laid out from 09:00, each
  lasting its duration and followed by a 15-minute break. `GenerateIcs` is
  the source's loop; `IcsDocument` and `StartTime` are the specification it
  is proved against, and the lemmas state the layout.
 */
module Calendar {
  import opened Base
  import opened Seqs
  import opened Text
  import opened Model

  const Header := "BEGIN:VCALENDAR\nVERSION:2.0\nPRODID:-//MindMap AI//Study Planner//EN\nCALSCALE:GREGORIAN\nMETHOD:PUBLISH\n"
  const Footer := "END:VCALENDAR"
  const BeginEvent := "BEGIN:VEVENT"
  const SummaryKey := "SUMMARY:Study: "
  const StartKey := "DTSTART:"
  const EndKey := "DTEND:"
  const TopicKey := "DESCRIPTION:Focus Topic: "
  const ReasoningKey := "\\nReasoning: "
  const Confirmed := "STATUS:CONFIRMED"
  const EndEvent := "END:VEVENT"
  const DayStartHour: nat := 9
  const BreakMinutes: nat := 15

  /** `currentHour` and `currentMinute`; the hour is not wrapped at 24. */
  datatype Clock = Clock(hour: nat, minute: nat)

  /** Minutes since midnight of the plan day. */
  function Minutes(c: Clock): nat
  {
    c.hour * 60 + c.minute
  }

  /** `hour` and `minute` with every whole 60 minutes carried into the hour. */
  function Carry(hour: nat, minute: nat): Clock
    decreases minute
  {
    if minute < 60 then Clock(hour, minute) else Carry(hour + 1, minute - 60)
  }

  /** Carrying is the source's `Math.floor(minute / 60)` added to the hour and `minute % 60`. */
  lemma {:induction false} CarryIsDivMod(hour: nat, minute: nat)
    ensures Carry(hour, minute) == Clock(hour + minute / 60, minute % 60)
    decreases minute
  {
    if minute >= 60 {
      CarryIsDivMod(hour + 1, minute - 60);
    }
  }

  /** The end of a session (services/geminiService.ts:422-424): the duration added to the minute, then carried. */
  function EndOf(start: Clock, duration: nat): Clock
  {
    Carry(start.hour, start.minute + duration)
  }

  /** The start of the next session (services/geminiService.ts:441-443): 15 minutes after the end. */
  function NextStart(start: Clock, duration: nat): Clock
  {
    var e := EndOf(start, duration);
    Carry(e.hour, e.minute + BreakMinutes)
  }

  /**
    The end is the start plus the duration, and the next start is 15 minutes
    later, both with the minute below 60.
   */
  lemma ClockSteps(start: Clock, duration: nat)
    ensures var e := EndOf(start, duration);
      e.minute < 60 && Minutes(e) == Minutes(start) + duration
    ensures var n := NextStart(start, duration);
      n.minute < 60 && Minutes(n) == Minutes(start) + duration + BreakMinutes
  {
    var m := start.minute + duration;
    CarryIsDivMod(start.hour, m);
    assert m == (m / 60) * 60 + m % 60;
    var e := EndOf(start, duration);
    var m2 := e.minute + BreakMinutes;
    CarryIsDivMod(e.hour, m2);
    assert m2 == (m2 / 60) * 60 + m2 % 60;
  }

  /** Where the `k`-th session of a day starts. */
  function StartTime(sessions: seq<StudySession>, k: nat): Clock
    requires k <= |sessions|
  {
    if k == 0 then Clock(DayStartHour, 0) else NextStart(StartTime(sessions, k - 1), sessions[k - 1].durationMinutes)
  }

  /** `day.date.replace(/-/g, '')` */
  function DateStamp(date: string): string
  {
    RemoveChar(date, '-')
  }

  /** `` `${dateStr}T${HH}${MM}00` `` */
  function Stamp(dateStr: string, c: Clock): string
  {
    dateStr + "T" + Pad2(c.hour) + Pad2(c.minute) + "00"
  }

  /**
    The lines of one VEVENT (services/geminiService.ts:430-438); the
    description holds a literal backslash-n, as the source writes it.
   */
  function EventLines(s: StudySession, dateStr: string, start: Clock): (lines: seq<string>)
    ensures |lines| == 7 && lines[0] == BeginEvent && lines[6] == EndEvent
  {
    [BeginEvent,
     SummaryKey + s.subjectName,
     StartKey + Stamp(dateStr, start),
     EndKey + Stamp(dateStr, EndOf(start, s.durationMinutes)),
     TopicKey + s.focusTopic + ReasoningKey + s.reasoning,
     Confirmed,
     EndEvent]
  }

  /** One VEVENT: its lines, each ended by a newline. */
  function EventText(s: StudySession, dateStr: string, start: Clock): string
  {
    Join(EventLines(s, dateStr, start), "\n") + "\n"
  }

  /** One VEVENT before it is written out: the session, the plan date of its day and its start. */
  datatype Event = Event(session: StudySession, date: string, start: Clock)

  function Render(e: Event): string
  {
    EventText(e.session, DateStamp(e.date), e.start)
  }

  /** The text of a list of events, in order. */
  function RenderAll(es: seq<Event>): string
  {
    if es == [] then "" else Render(es[0]) + RenderAll(es[1..])
  }

  /**
    The events of a day's sessions from the `i`-th on, the `i`-th starting at
    `clock` and each later one 15 minutes after the previous one ends.
   */
  function DayEventsFrom(sessions: seq<StudySession>, date: string, i: nat, clock: Clock): (r: seq<Event>)
    requires i <= |sessions|
    ensures |r| == |sessions| - i
    decreases |sessions| - i
  {
    if i == |sessions| then []
    else [Event(sessions[i], date, clock)] + DayEventsFrom(sessions, date, i + 1, NextStart(clock, sessions[i].durationMinutes))
  }

  /** A day's events, the first at 09:00. */
  function DayEventsOf(day: DailyPlan): seq<Event>
  {
    DayEventsFrom(day.sessions, day.date, 0, Clock(DayStartHour, 0))
  }

  /** The events of the first `d` days, in schedule order. */
  function AllEvents(days: seq<DailyPlan>, d: nat): seq<Event>
    requires d <= |days|
  {
    if d == 0 then [] else AllEvents(days, d - 1) + DayEventsOf(days[d - 1])
  }

  /** The document `generateICS` builds: the header, one VEVENT per session, the footer. */
  function IcsDocument(plan: GeneratedPlan): string
  {
    Header + RenderAll(AllEvents(plan.schedule, |plan.schedule|)) + Footer
  }

  lemma AppendAssoc(a: string, b: string, c: string)
    ensures (a + b) + c == a + (b + c)
  {
  }

  /** The clock update after each session (services/geminiService.ts:422-424, 441-443). */
  method Advance(clock: Clock, duration: nat) returns (next: Clock)
    ensures next == NextStart(clock, duration)
  {
    var endMinute := clock.minute + duration;
    var endHour := clock.hour + endMinute / 60;
    endMinute := endMinute % 60;
    var currentMinute := endMinute + BreakMinutes;
    next := Clock(endHour + currentMinute / 60, currentMinute % 60);
    CarryIsDivMod(clock.hour, clock.minute + duration);
    CarryIsDivMod(endHour, currentMinute);
  }

  /**
    `generateICS` without the download: the loops over days and sessions with
    the running clock and the growing text.
   */
  method GenerateIcs(plan: GeneratedPlan) returns (ics: string)
    ensures ics == IcsDocument(plan)
  {
    ics := Header;
    var days := plan.schedule;
    var d := 0;
    while d < |days|
      invariant 0 <= d <= |days|
      invariant ics == Header + RenderAll(AllEvents(days, d))
    {
      ghost var before := RenderAll(AllEvents(days, d));
      ics := WriteDay(ics, days[d]);
      NextDayText(days, d);
      AppendAssoc(Header, before, RenderAll(DayEventsOf(days[d])));
      d := d + 1;
    }
    ics := ics + Footer;
  }

  /** The inner loop of `generateICS`: one day's sessions from 09:00, appended to the text so far. */
  method WriteDay(text: string, day: DailyPlan) returns (ics: string)
    ensures ics == text + RenderAll(DayEventsOf(day))
  {
    ics := text;
    var clock := Clock(DayStartHour, 0);
    var dateStr := DateStamp(day.date);
    var k := 0;
    while k < |day.sessions|
      invariant 0 <= k <= |day.sessions|
      invariant ics + RenderAll(DayEventsFrom(day.sessions, day.date, k, clock)) == text + RenderAll(DayEventsOf(day))
    {
      var session := day.sessions[k];
      var event := EventText(session, dateStr, clock);
      var next := Advance(clock, session.durationMinutes);
      WriteStep(day.sessions, day.date, k, clock);
      AppendAssoc(ics, event, RenderAll(DayEventsFrom(day.sessions, day.date, k + 1, next)));
      ics := ics + event;
      clock := next;
      k := k + 1;
    }
  }

  /** Writing one event leaves the rest of the day, starting after its break. */
  lemma WriteStep(sessions: seq<StudySession>, date: string, k: nat, clock: Clock)
    requires k < |sessions|
    ensures RenderAll(DayEventsFrom(sessions, date, k, clock))
      == EventText(sessions[k], DateStamp(date), clock)
         + RenderAll(DayEventsFrom(sessions, date, k + 1, NextStart(clock, sessions[k].durationMinutes)))
  {
    var es := DayEventsFrom(sessions, date, k, clock);
    assert es[1..] == DayEventsFrom(sessions, date, k + 1, NextStart(clock, sessions[k].durationMinutes));
  }

  lemma {:induction false} RenderAppend(a: seq<Event>, b: seq<Event>)
    ensures RenderAll(a + b) == RenderAll(a) + RenderAll(b)
    decreases |a|
  {
    if a == [] {
      assert a + b == b;
    } else {
      assert (a + b)[1..] == a[1..] + b;
      RenderAppend(a[1..], b);
      AppendAssoc(Render(a[0]), RenderAll(a[1..]), RenderAll(b));
    }
  }

  lemma AllEventsStep(days: seq<DailyPlan>, d: nat)
    requires d < |days|
    ensures AllEvents(days, d + 1) == AllEvents(days, d) + DayEventsOf(days[d])
  {
  }

  lemma NextDayText(days: seq<DailyPlan>, d: nat)
    requires d < |days|
    ensures RenderAll(AllEvents(days, d + 1)) == RenderAll(AllEvents(days, d)) + RenderAll(DayEventsOf(days[d]))
  {
    var a := AllEvents(days, d);
    var b := DayEventsOf(days[d]);
    AllEventsStep(days, d);
    RenderAppend(a, b);
  }

  // ---------------------------------------------------------------- layout

  /** The sum of the durations of the first `k` sessions. */
  function Busy(sessions: seq<StudySession>, k: nat): nat
    requires k <= |sessions|
  {
    if k == 0 then 0 else Busy(sessions, k - 1) + sessions[k - 1].durationMinutes
  }

  /**
    The `k`-th session starts at 09:00 plus the durations of the sessions
    before it plus one 15-minute break after each of them, with its minute
    below 60; it ends its own duration later.
   */
  lemma {:induction false} StartTimeLayout(sessions: seq<StudySession>, k: nat)
    requires k <= |sessions|
    ensures Minutes(StartTime(sessions, k)) == DayStartHour * 60 + Busy(sessions, k) + BreakMinutes * k
    ensures StartTime(sessions, k).minute < 60
    ensures k < |sessions| ==>
      Minutes(EndOf(StartTime(sessions, k), sessions[k].durationMinutes))
        == DayStartHour * 60 + Busy(sessions, k + 1) + BreakMinutes * k
  {
    if k > 0 {
      StartTimeLayout(sessions, k - 1);
      ClockSteps(StartTime(sessions, k - 1), sessions[k - 1].durationMinutes);
    }
    if k < |sessions| {
      ClockSteps(StartTime(sessions, k), sessions[k].durationMinutes);
    }
  }

  /** Sessions never overlap: each starts exactly 15 minutes after the previous one ends. */
  lemma BreakBetweenSessions(sessions: seq<StudySession>, k: nat)
    requires 0 < k < |sessions|
    ensures Minutes(StartTime(sessions, k))
      == Minutes(EndOf(StartTime(sessions, k - 1), sessions[k - 1].durationMinutes)) + BreakMinutes
  {
    ClockSteps(StartTime(sessions, k - 1), sessions[k - 1].durationMinutes);
  }

  /**
    The hour is not wrapped: two eight-hour sessions put the second one's
    start at 17:15 and its end at 25:15, which RFC 5545 (section 3.3.12,
    TIME) does not allow.
   */
  lemma LongDayPassesMidnight(a: StudySession, b: StudySession)
    requires a.durationMinutes == 480 && b.durationMinutes == 480
    ensures StartTime([a, b], 1) == Clock(17, 15)
    ensures EndOf(StartTime([a, b], 1), b.durationMinutes) == Clock(25, 15)
  {
    CarryIsDivMod(DayStartHour, 480);
    CarryIsDivMod(17, 495);
  }

  // ---------------------------------------------------------------- text

  /**
    A stamp is the date, "T", the hour and the minute in two digits each and
    "00"; the hour and minute read back as the clock (for hours below 100).
   */
  lemma StampReadsBack(dateStr: string, c: Clock)
    requires c.hour < 100 && c.minute < 60
    ensures var s := Stamp(dateStr, c);
      var n := |dateStr|;
      |s| == n + 7 && s[..n] == dateStr && s[n] == 'T' && s[n + 5..] == "00"
      && ParseDecimal(s[n + 1..n + 3]) == Some(c.hour) && ParseDecimal(s[n + 3..n + 5]) == Some(c.minute)
  {
    var s := Stamp(dateStr, c);
    var n := |dateStr|;
    Pad2Reads(c.hour);
    Pad2Reads(c.minute);
    assert s[n + 1..n + 3] == Pad2(c.hour);
    assert s[n + 3..n + 5] == Pad2(c.minute);
  }

  /**
    The date stamp is the date with every '-' dropped and the other characters
    kept in order.
   */
  lemma DateStampDropsDashes(date: string)
    ensures DateStamp(date) == Filter(date, IsNot('-'))
    ensures '-' !in DateStamp(date)
    ensures '-' !in date ==> DateStamp(date) == date
  {
    RemoveCharIsFilter(date, '-');
  }

  /**
    An event reads back line by line when the session's texts hold no line
    break: the second line names the subject, the third and fourth hold the
    start and end stamps.
   */
  lemma EventReadsBack(s: StudySession, dateStr: string, start: Clock)
    requires '\n' !in s.subjectName && '\n' !in s.focusTopic && '\n' !in s.reasoning && '\n' !in dateStr
    ensures var e := EventText(s, dateStr, start);
      |e| > 0 && e[|e| - 1] == '\n'
      && Split(e[..|e| - 1], "\n") == EventLines(s, dateStr, start)
      && Split(e[..|e| - 1], "\n")[2] == "DTSTART:" + Stamp(dateStr, start)
      && Split(e[..|e| - 1], "\n")[3] == "DTEND:" + Stamp(dateStr, EndOf(start, s.durationMinutes))
  {
    var lines := EventLines(s, dateStr, start);
    var e := EventText(s, dateStr, start);
    assert e[..|e| - 1] == Join(lines, "\n");
    forall i | 0 <= i < |lines| ensures '\n' !in lines[i] {
      NoBreakInLine(s, dateStr, start, i);
    }
    SplitJoin(lines, '\n');
  }

  lemma NoBreakInLine(s: StudySession, dateStr: string, start: Clock, i: nat)
    requires '\n' !in s.subjectName && '\n' !in s.focusTopic && '\n' !in s.reasoning && '\n' !in dateStr
    requires i < 7
    ensures '\n' !in EventLines(s, dateStr, start)[i]
  {
    var lines := EventLines(s, dateStr, start);
    StampNoBreak(dateStr, start);
    StampNoBreak(dateStr, EndOf(start, s.durationMinutes));
    NoBreakInConstants();
    if i == 1 {
      NoBreakConcat(SummaryKey, s.subjectName);
    } else if i == 2 {
      NoBreakConcat(StartKey, Stamp(dateStr, start));
    } else if i == 3 {
      NoBreakConcat(EndKey, Stamp(dateStr, EndOf(start, s.durationMinutes)));
    } else if i == 4 {
      NoBreakConcat(TopicKey, s.focusTopic);
      NoBreakConcat(TopicKey + s.focusTopic, ReasoningKey);
      NoBreakConcat(TopicKey + s.focusTopic + ReasoningKey, s.reasoning);
    }
  }

  lemma NoBreakConcat(a: string, b: string)
    requires '\n' !in a && '\n' !in b
    ensures '\n' !in a + b
  {
  }

  /** The fixed text of an event has no line break; the description's "\\n" is a backslash and an n. */
  lemma NoBreakInConstants()
    ensures '\n' !in BeginEvent && '\n' !in SummaryKey && '\n' !in StartKey && '\n' !in EndKey
    ensures '\n' !in TopicKey && '\n' !in ReasoningKey && '\n' !in Confirmed && '\n' !in EndEvent
  {
    NoBreakInKeys();
  }

  lemma NoBreakInKeys()
    ensures '\n' !in SummaryKey && '\n' !in TopicKey && '\n' !in ReasoningKey
  {
  }

  lemma StampNoBreak(dateStr: string, c: Clock)
    requires '\n' !in dateStr
    ensures '\n' !in Stamp(dateStr, c)
  {
    var h := Pad2(c.hour);
    var m := Pad2(c.minute);
    Pad2Reads(c.hour);
    Pad2Reads(c.minute);
    DigitsNoBreak(h);
    DigitsNoBreak(m);
  }

  lemma DigitsNoBreak(s: string)
    requires AllDigits(s)
    ensures '\n' !in s
  {
    forall k | 0 <= k < |s| ensures s[k] != '\n' {
      assert IsDigit(s[k]);
    }
  }

  function SessionCount(days: seq<DailyPlan>, d: nat): nat
    requires d <= |days|
  {
    if d == 0 then 0 else SessionCount(days, d - 1) + |days[d - 1].sessions|
  }

  /** There is exactly one event per session. */
  lemma {:induction false} EventCount(days: seq<DailyPlan>, d: nat)
    requires d <= |days|
    ensures |AllEvents(days, d)| == SessionCount(days, d)
  {
    if d > 0 {
      EventCount(days, d - 1);
    }
  }

  /**
    The events come day by day in schedule order: the `k`-th session of day
    `e` is event number `SessionCount(days, e) + k`, with that day's date
    stamp and its start time.
   */
  lemma {:induction false} EventAt(days: seq<DailyPlan>, d: nat, e: nat, k: nat)
    requires e < d <= |days| && k < |days[e].sessions|
    ensures SessionCount(days, e) + k < |AllEvents(days, d)|
    ensures AllEvents(days, d)[SessionCount(days, e) + k]
      == Event(days[e].sessions[k], days[e].date, StartTime(days[e].sessions, k))
    decreases d
  {
    var before := AllEvents(days, d - 1);
    var today := DayEventsOf(days[d - 1]);
    var i := SessionCount(days, e) + k;
    AllEventsStep(days, d - 1);
    EventCount(days, d - 1);
    if e < d - 1 {
      EventAt(days, d - 1, e, k);
      AppendLeft(before, today, i);
    } else {
      DayEventOfAt(days[e], k);
      assert i == |before| + k;
      AppendRight(before, today, k);
    }
  }

  /** The `k`-th event of a day is its `k`-th session at its start time. */
  lemma DayEventOfAt(day: DailyPlan, k: nat)
    requires k < |day.sessions|
    ensures |DayEventsOf(day)| == |day.sessions|
    ensures DayEventsOf(day)[k] == Event(day.sessions[k], day.date, StartTime(day.sessions, k))
  {
    assert StartTime(day.sessions, 0) == Clock(DayStartHour, 0);
    DayEventAt(day.sessions, day.date, 0, k);
  }

  lemma AppendLeft<T>(a: seq<T>, b: seq<T>, i: nat)
    requires i < |a|
    ensures i < |a + b| && (a + b)[i] == a[i]
  {
  }

  lemma AppendRight<T>(a: seq<T>, b: seq<T>, k: nat)
    requires k < |b|
    ensures |a| + k < |a + b| && (a + b)[|a| + k] == b[k]
  {
  }

  lemma {:induction false} CountGrows(days: seq<DailyPlan>, a: nat, b: nat)
    requires a <= b <= |days|
    ensures SessionCount(days, a) <= SessionCount(days, b)
    decreases b
  {
    if a < b {
      CountGrows(days, a, b - 1);
    }
  }

  /** The event at position `k - i` from the `i`-th session on is the `k`-th session at its start time. */
  lemma {:induction false} DayEventAt(sessions: seq<StudySession>, date: string, i: nat, k: nat)
    requires i <= k < |sessions|
    ensures DayEventsFrom(sessions, date, i, StartTime(sessions, i))[k - i] == Event(sessions[k], date, StartTime(sessions, k))
    decreases k - i
  {
    if i < k {
      DayEventAt(sessions, date, i + 1, k);
      var es := DayEventsFrom(sessions, date, i, StartTime(sessions, i));
      assert es[k - i] == es[1..][k - i - 1];
    }
  }

  /** The whole document: header, one event per session, footer. */
  lemma IcsStructure(plan: GeneratedPlan)
    ensures var days := plan.schedule;
      IcsDocument(plan) == Header + RenderAll(AllEvents(days, |days|)) + Footer
      && |AllEvents(days, |days|)| == SessionCount(days, |days|)
  {
    EventCount(plan.schedule, |plan.schedule|);
  }
}

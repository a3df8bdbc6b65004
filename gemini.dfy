/**
  The data handling around the generative service in
  services/geminiService.ts: the missed/completed partition that
  `rescheduleStudyPlan` collects before prompting, the defaults
  `parseSyllabusImage` fills into the service's answer, and the transcript
  `summarizeGroupChat` sends. The service calls themselves are not modelled.
 */
module Gemini {
  import opened Base
  import opened Seqs
  import opened Text
  import opened Model

  // ---------------------------------------------------------------- reschedule partition

  /** A missed session with the date of the day it was planned for (`{ ...session, originalDate }`). */
  datatype MissedSession = MissedSession(session: StudySession, originalDate: string)

  /** The missed sessions of one day's list, in order. */
  function MissedIn(sessions: seq<StudySession>, date: string): seq<MissedSession>
  {
    if sessions == [] then []
    else
      var last := sessions[|sessions| - 1];
      MissedIn(sessions[..|sessions| - 1], date) + (if last.status == Some(Missed) then [MissedSession(last, date)] else [])
  }

  /** The completed sessions of one day's list, in order. */
  function CompletedIn(sessions: seq<StudySession>): seq<StudySession>
  {
    if sessions == [] then []
    else
      var last := sessions[|sessions| - 1];
      CompletedIn(sessions[..|sessions| - 1]) + (if last.status == Some(Completed) then [last] else [])
  }

  /** The missed sessions of a schedule, day by day in schedule order. */
  function MissedOf(days: seq<DailyPlan>): seq<MissedSession>
  {
    if days == [] then []
    else MissedOf(days[..|days| - 1]) + MissedIn(days[|days| - 1].sessions, days[|days| - 1].date)
  }

  /** The completed sessions of a schedule, day by day in schedule order. */
  function CompletedOf(days: seq<DailyPlan>): seq<StudySession>
  {
    if days == [] then []
    else CompletedOf(days[..|days| - 1]) + CompletedIn(days[|days| - 1].sessions)
  }

  /**
    The partition of services/geminiService.ts:217-228: one pass over every
    day and every session, pushing missed sessions (tagged with their day's
    date) and completed ones; pending and unset sessions go nowhere.
   */
  method PartitionSchedule(plan: GeneratedPlan) returns (missed: seq<MissedSession>, completed: seq<StudySession>)
    ensures missed == MissedOf(plan.schedule) && completed == CompletedOf(plan.schedule)
  {
    var days := plan.schedule;
    missed, completed := [], [];
    var d := 0;
    while d < |days|
      invariant 0 <= d <= |days|
      invariant missed == MissedOf(days[..d]) && completed == CompletedOf(days[..d])
    {
      assert days[..d + 1][..d] == days[..d];
      missed, completed := PartitionDay(missed, completed, days[d]);
      d := d + 1;
    }
    assert days[..d] == days;
  }

  /** The inner `forEach` over one day's sessions. */
  method PartitionDay(missed0: seq<MissedSession>, completed0: seq<StudySession>, day: DailyPlan)
    returns (missed: seq<MissedSession>, completed: seq<StudySession>)
    ensures missed == missed0 + MissedIn(day.sessions, day.date)
    ensures completed == completed0 + CompletedIn(day.sessions)
  {
    missed, completed := missed0, completed0;
    var k := 0;
    while k < |day.sessions|
      invariant 0 <= k <= |day.sessions|
      invariant missed == missed0 + MissedIn(day.sessions[..k], day.date)
      invariant completed == completed0 + CompletedIn(day.sessions[..k])
    {
      var session := day.sessions[k];
      assert day.sessions[..k + 1][..k] == day.sessions[..k];
      if session.status == Some(Missed) {
        missed := missed + [MissedSession(session, day.date)];
      } else if session.status == Some(Completed) {
        completed := completed + [session];
      }
      k := k + 1;
    }
    assert day.sessions[..k] == day.sessions;
  }

  /** Where session `k` of day `d` sits, and whether it counts as missed or completed. */
  predicate IsMissedAt(days: seq<DailyPlan>, m: MissedSession)
  {
    exists d, k :: 0 <= d < |days| && 0 <= k < |days[d].sessions|
      && m == MissedSession(days[d].sessions[k], days[d].date) && days[d].sessions[k].status == Some(Missed)
  }

  predicate IsCompletedAt(days: seq<DailyPlan>, s: StudySession)
  {
    exists d, k :: 0 <= d < |days| && 0 <= k < |days[d].sessions|
      && s == days[d].sessions[k] && s.status == Some(Completed)
  }

  /** An entry is in a day's missed list exactly when a missed session of that day gives it. */
  lemma {:induction false} MissedInMembers(sessions: seq<StudySession>, date: string, m: MissedSession)
    ensures m in MissedIn(sessions, date)
      <==> exists k :: 0 <= k < |sessions| && m == MissedSession(sessions[k], date) && sessions[k].status == Some(Missed)
    decreases |sessions|
  {
    if sessions != [] {
      var init := sessions[..|sessions| - 1];
      MissedInMembers(init, date, m);
      if exists k :: 0 <= k < |sessions| && m == MissedSession(sessions[k], date) && sessions[k].status == Some(Missed) {
        var k :| 0 <= k < |sessions| && m == MissedSession(sessions[k], date) && sessions[k].status == Some(Missed);
        if k < |init| {
          assert init[k] == sessions[k];
        }
      }
      if m in MissedIn(init, date) {
        var k :| 0 <= k < |init| && m == MissedSession(init[k], date) && init[k].status == Some(Missed);
        assert sessions[k] == init[k];
      }
    }
  }

  /** A session is in a day's completed list exactly when it is a completed session of that day. */
  lemma {:induction false} CompletedInMembers(sessions: seq<StudySession>, s: StudySession)
    ensures s in CompletedIn(sessions) <==> s in sessions && s.status == Some(Completed)
    decreases |sessions|
  {
    if sessions != [] {
      var init := sessions[..|sessions| - 1];
      CompletedInMembers(init, s);
      assert sessions == init + [sessions[|sessions| - 1]];
    }
  }

  /**
    An entry is in the missed list exactly when some missed session of the
    schedule, tagged with its own day's date, gives it.
   */
  lemma {:induction false} MissedOfMembers(days: seq<DailyPlan>, m: MissedSession)
    ensures m in MissedOf(days) <==> IsMissedAt(days, m)
    decreases |days|
  {
    if days != [] {
      var init := days[..|days| - 1];
      var last := days[|days| - 1];
      MissedOfMembers(init, m);
      MissedInMembers(last.sessions, last.date, m);
      if IsMissedAt(days, m) {
        var d, k :| 0 <= d < |days| && 0 <= k < |days[d].sessions|
          && m == MissedSession(days[d].sessions[k], days[d].date) && days[d].sessions[k].status == Some(Missed);
        if d < |init| {
          assert init[d] == days[d];
        }
      }
      if IsMissedAt(init, m) {
        var d, k :| 0 <= d < |init| && 0 <= k < |init[d].sessions|
          && m == MissedSession(init[d].sessions[k], init[d].date) && init[d].sessions[k].status == Some(Missed);
        assert days[d] == init[d];
      }
    }
  }

  /** A session is in the completed list exactly when it is a completed session of some day. */
  lemma {:induction false} CompletedOfMembers(days: seq<DailyPlan>, s: StudySession)
    ensures s in CompletedOf(days) <==> IsCompletedAt(days, s)
    decreases |days|
  {
    if days != [] {
      var init := days[..|days| - 1];
      var last := days[|days| - 1];
      CompletedOfMembers(init, s);
      CompletedInMembers(last.sessions, s);
      if IsCompletedAt(days, s) {
        var d, k :| 0 <= d < |days| && 0 <= k < |days[d].sessions| && s == days[d].sessions[k] && s.status == Some(Completed);
        if d < |init| {
          assert init[d] == days[d];
        } else {
          assert s in last.sessions;
        }
      }
      if s in CompletedIn(last.sessions) {
        var k :| 0 <= k < |last.sessions| && last.sessions[k] == s;
        assert days[|days| - 1] == last;
      }
      if IsCompletedAt(init, s) {
        var d, k :| 0 <= d < |init| && 0 <= k < |init[d].sessions| && s == init[d].sessions[k] && s.status == Some(Completed);
        assert days[d] == init[d];
      }
    }
  }

  /** The number of sessions of a day list whose status is `st`. */
  function CountStatus(sessions: seq<StudySession>, st: Option<SessionStatus>): nat
  {
    if sessions == [] then 0
    else CountStatus(sessions[..|sessions| - 1], st) + (if sessions[|sessions| - 1].status == st then 1 else 0)
  }

  /**
    A day contributes one missed entry per missed session and one completed
    entry per completed session; the rest, pending or unset, are dropped.
   */
  lemma {:induction false} DayCounts(sessions: seq<StudySession>, date: string)
    ensures |MissedIn(sessions, date)| == CountStatus(sessions, Some(Missed))
    ensures |CompletedIn(sessions)| == CountStatus(sessions, Some(Completed))
    ensures |MissedIn(sessions, date)| + |CompletedIn(sessions)|
      + CountStatus(sessions, Some(Pending)) + CountStatus(sessions, None) == |sessions|
    decreases |sessions|
  {
    if sessions != [] {
      DayCounts(sessions[..|sessions| - 1], date);
      match sessions[|sessions| - 1].status
      case None =>
      case Some(v) =>
        assert v == Pending || v == Completed || v == Missed;
    }
  }

  // ---------------------------------------------------------------- syllabus mapping

  /** A chapter as the service returns it: any field may be missing. */
  datatype RawChapter = RawChapter(name: string, difficulty: Option<int>, isHighPriority: Option<bool>)

  datatype RawSubject = RawSubject(name: string, difficulty: Option<int>, examDate: Option<string>,
                                   chapters: Option<seq<RawChapter>>)

  /** `x || 5` on a number: a missing value or 0 (falsy) becomes 5. */
  function DifficultyOr5(d: Option<int>): (r: int)
    ensures r != 0
    ensures d.Some? && d.value != 0 ==> r == d.value
    ensures d.None? || d.value == 0 ==> r == 5
  {
    if d.Some? && d.value != 0 then d.value else 5
  }

  /** `c => ({ id, name, difficulty: c.difficulty || 5, isHighPriority: c.isHighPriority || false })` */
  function MapChapter(c: RawChapter, id: string): Chapter
  {
    Chapter(id, c.name, DifficultyOr5(c.difficulty), c.isHighPriority == Some(true))
  }

  /** `(s.chapters || []).map(...)`, with the fresh ids drawn by `chapterId(k)`. */
  function MapChapters(cs: Option<seq<RawChapter>>, chapterId: nat -> string): seq<Chapter>
  {
    var raw := cs.GetOr([]);
    seq(|raw|, k requires 0 <= k < |raw| => MapChapter(raw[k], chapterId(k)))
  }

  /**
    The mapping of services/geminiService.ts:125-139: confidence 50, no
    priority, the difficulty and exam date defaulted (`today` when the date
    is missing or empty), and the chapters mapped with their own defaults.
    `subjectId` and `chapterId` stand for the random ids.
   */
  function MapSyllabus(raw: seq<RawSubject>, today: string, subjectId: nat -> string,
                       chapterId: (nat, nat) -> string): seq<SubjectInput>
  {
    seq(|raw|, i requires 0 <= i < |raw| =>
      SubjectInput(subjectId(i), raw[i].name, DifficultyOr5(raw[i].difficulty),
        if raw[i].examDate.Some? && raw[i].examDate.value != "" then raw[i].examDate.value else today,
        50, false, MapChapters(raw[i].chapters, (k: nat) => chapterId(i, k))))
  }

  /**
    Every subject keeps its name, gets confidence 50 and no priority, a
    difficulty that is never 0 and equals the given one when that is
    non-zero, the given exam date unless it is missing or empty, and one
    chapter per given chapter (none when absent), each keeping its name, with
    a non-zero difficulty and priority only when the service said `true`.
   */
  lemma MapSyllabusDefaults(raw: seq<RawSubject>, today: string, subjectId: nat -> string, chapterId: (nat, nat) -> string)
    ensures var r := MapSyllabus(raw, today, subjectId, chapterId);
      |r| == |raw|
      && forall i :: 0 <= i < |raw| ==>
        r[i].id == subjectId(i) && r[i].name == raw[i].name
        && r[i].currentConfidence == 50 && !r[i].isHighPriority
        && r[i].difficulty != 0
        && (raw[i].difficulty.Some? && raw[i].difficulty.value != 0 ==> r[i].difficulty == raw[i].difficulty.value)
        && (raw[i].difficulty.None? || raw[i].difficulty.value == 0 ==> r[i].difficulty == 5)
        && (raw[i].examDate.Some? && raw[i].examDate.value != "" ==> r[i].examDate == raw[i].examDate.value)
        && (raw[i].examDate.None? || raw[i].examDate.value == "" ==> r[i].examDate == today)
        && (raw[i].chapters.None? ==> r[i].chapters == [])
        && (raw[i].chapters.Some? ==> ChaptersMapped(raw[i].chapters.value, r[i].chapters))
  {
    var r := MapSyllabus(raw, today, subjectId, chapterId);
    forall i | 0 <= i < |raw| ensures raw[i].chapters.Some? ==> ChaptersMapped(raw[i].chapters.value, r[i].chapters) {
      if raw[i].chapters.Some? {
        MapChaptersDefaults(raw[i].chapters, (k: nat) => chapterId(i, k));
      }
    }
  }

  /** One chapter per given chapter, keeping its name, difficulty defaulted, priority only when `true`. */
  predicate ChaptersMapped(raw: seq<RawChapter>, cs: seq<Chapter>)
  {
    |cs| == |raw|
    && forall k :: 0 <= k < |raw| ==>
      cs[k].name == raw[k].name && cs[k].difficulty != 0
      && (raw[k].difficulty.Some? && raw[k].difficulty.value != 0 ==> cs[k].difficulty == raw[k].difficulty.value)
      && (raw[k].difficulty.None? || raw[k].difficulty.value == 0 ==> cs[k].difficulty == 5)
      && (cs[k].isHighPriority <==> raw[k].isHighPriority == Some(true))
  }

  lemma MapChaptersDefaults(cs: Option<seq<RawChapter>>, chapterId: nat -> string)
    requires cs.Some?
    ensures ChaptersMapped(cs.value, MapChapters(cs, chapterId))
  {
    var r := MapChapters(cs, chapterId);
    var raw := cs.value;
    assert cs.GetOr([]) == raw;
    forall k | 0 <= k < |raw| ensures r[k] == MapChapter(raw[k], chapterId(k)) {
    }
  }

  // ---------------------------------------------------------------- chat transcript

  /** `${m.userName}: ${m.content}` */
  function TranscriptLine(m: Message): string
  {
    m.userName + ": " + m.content
  }

  /** The lines of the transcript: the last 50 messages, each rendered. */
  function TranscriptLines(ms: seq<Message>): (lines: seq<string>)
    ensures |lines| == Min(50, |ms|)
    ensures forall i :: 0 <= i < |lines| ==> lines[i] == TranscriptLine(ms[|ms| - |lines| + i])
  {
    var last := TakeLast(ms, 50);
    seq(|last|, i requires 0 <= i < |last| => TranscriptLine(last[i]))
  }

  /** The transcript of services/geminiService.ts:308-311. */
  function Transcript(ms: seq<Message>): string
  {
    Join(TranscriptLines(ms), "\n")
  }

  lemma LineHasNoBreak(m: Message)
    requires '\n' !in m.userName && '\n' !in m.content
    ensures '\n' !in TranscriptLine(m)
  {
    var sep := ": ";
    assert '\n' !in sep by { assert sep == [':', ' ']; }
  }

  /**
    When no name or text holds a line break, splitting the transcript at
    line breaks gives back one line per message among the last 50, in order;
    an empty chat gives the empty transcript.
   */
  lemma TranscriptReadsBack(ms: seq<Message>)
    requires forall i :: 0 <= i < |ms| ==> '\n' !in ms[i].userName && '\n' !in ms[i].content
    ensures ms == [] ==> Transcript(ms) == ""
    ensures ms != [] ==> Split(Transcript(ms), "\n") == TranscriptLines(ms) && |TranscriptLines(ms)| == Min(50, |ms|)
  {
    if ms != [] {
      var lines := TranscriptLines(ms);
      forall i | 0 <= i < |lines| ensures '\n' !in lines[i] {
        LineHasNoBreak(ms[|ms| - |lines| + i]);
      }
      SplitJoin(lines, '\n');
    }
  }
}

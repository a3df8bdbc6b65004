/**
  The study-session updates of the open plan (App.tsx): marking a session's
  status from the plan view, and what finishing a focus session records.
 */
module Plans {
  import opened Base
  import opened Model
  import opened Gemini

  /** `p.id === currentPlanId`: no plan is current while the id is null. */
  predicate IsCurrent(p: SavedPlan, currentPlanId: Option<string>)
  {
    currentPlanId == Some(p.id)
  }

  /** The sessions of one day with the given id set to `status`. */
  function SetStatusIn(sessions: seq<StudySession>, sessionId: string, status: SessionStatus): seq<StudySession>
  {
    seq(|sessions|, k requires 0 <= k < |sessions| =>
      if sessions[k].id == sessionId then sessions[k].(status := Some(status)) else sessions[k])
  }

  /**
    `handleUpdateSessionStatus` (App.tsx:715-736): in the current plan, on
    the days with the given date, the sessions with the given id get the
    status.
   */
  function SetSessionStatus(plans: seq<SavedPlan>, currentPlanId: Option<string>, date: string,
                            sessionId: string, status: SessionStatus): seq<SavedPlan>
  {
    seq(|plans|, i requires 0 <= i < |plans| =>
      if IsCurrent(plans[i], currentPlanId) then
        var days := plans[i].data.schedule;
        plans[i].(data := plans[i].data.(schedule := seq(|days|, d requires 0 <= d < |days| =>
          if days[d].date == date then days[d].(sessions := SetStatusIn(days[d].sessions, sessionId, status)) else days[d])))
      else plans[i])
  }

  /**
    The plan update of `handleSessionComplete` (App.tsx:818-828): in the
    current plan, on every day, the sessions with the finished session's id
    become completed.
   */
  function CompleteSession(plans: seq<SavedPlan>, currentPlanId: Option<string>, sessionId: string): seq<SavedPlan>
  {
    seq(|plans|, i requires 0 <= i < |plans| =>
      if IsCurrent(plans[i], currentPlanId) then
        var days := plans[i].data.schedule;
        plans[i].(data := plans[i].data.(schedule := seq(|days|, d requires 0 <= d < |days| =>
          days[d].(sessions := SetStatusIn(days[d].sessions, sessionId, Completed)))))
      else plans[i])
  }

  /** The history entry of a finished session; its random id and the clock are parameters. */
  function HistoryEntry(session: StudySession, minutes: int, id: string, now: int): FocusHistoryEntry
  {
    FocusHistoryEntry(id, session.subjectName, session.focusTopic, minutes, now)
  }

  /**
    `b` is `a` with only session statuses changed, and a session whose status
    changed now has `status`, and did so only where `hit` holds.
   */
  predicate RestatusedOnly(a: SavedPlan, b: SavedPlan, status: SessionStatus, hit: (string, StudySession) -> bool)
  {
    b.(data := a.data) == a && b.data.overview == a.data.overview
    && |b.data.schedule| == |a.data.schedule|
    && forall d :: 0 <= d < |a.data.schedule| ==>
      var x, y := a.data.schedule[d], b.data.schedule[d];
      y.date == x.date && y.totalStudyTime == x.totalStudyTime && |y.sessions| == |x.sessions|
      && forall k :: 0 <= k < |x.sessions| ==>
        y.sessions[k] == x.sessions[k].(status := y.sessions[k].status)
        && y.sessions[k].status == if hit(x.date, x.sessions[k]) then Some(status) else x.sessions[k].status
  }

  /**
    Setting a status touches the current plan only; in it, exactly the
    sessions with that id on days with that date take the status, and
    everything else, their other fields included, stays as it was.
   */
  lemma SetSessionStatusSpec(plans: seq<SavedPlan>, currentPlanId: Option<string>, date: string,
                             sessionId: string, status: SessionStatus)
    ensures var r := SetSessionStatus(plans, currentPlanId, date, sessionId, status);
      |r| == |plans|
      && forall i :: 0 <= i < |plans| ==>
        (!IsCurrent(plans[i], currentPlanId) ==> r[i] == plans[i])
        && (IsCurrent(plans[i], currentPlanId) ==>
              RestatusedOnly(plans[i], r[i], status, (dt: string, s: StudySession) => dt == date && s.id == sessionId))
  {
  }

  /**
    Completing touches the current plan only; in it, every session with the
    finished session's id, on any day, is completed, and nothing else changes.
   */
  lemma CompleteSessionSpec(plans: seq<SavedPlan>, currentPlanId: Option<string>, sessionId: string)
    ensures var r := CompleteSession(plans, currentPlanId, sessionId);
      |r| == |plans|
      && forall i :: 0 <= i < |plans| ==>
        (!IsCurrent(plans[i], currentPlanId) ==> r[i] == plans[i])
        && (IsCurrent(plans[i], currentPlanId) ==>
              RestatusedOnly(plans[i], r[i], Completed, (dt: string, s: StudySession) => s.id == sessionId))
  {
  }

  /**
    A session marked missed in the plan view is one that rescheduling then
    picks up, with the date of its day; one marked completed is reported as
    done.
   */
  lemma MarkedSessionsAreRescheduled(plans: seq<SavedPlan>, i: nat, date: string, sessionId: string, d: nat, k: nat)
    requires i < |plans| && d < |plans[i].data.schedule| && k < |plans[i].data.schedule[d].sessions|
    requires plans[i].data.schedule[d].date == date && plans[i].data.schedule[d].sessions[k].id == sessionId
    ensures var missed := SetSessionStatus(plans, Some(plans[i].id), date, sessionId, Missed)[i].data.schedule;
      MissedSession(plans[i].data.schedule[d].sessions[k].(status := Some(Missed)), date) in MissedOf(missed)
    ensures var done := SetSessionStatus(plans, Some(plans[i].id), date, sessionId, Completed)[i].data.schedule;
      plans[i].data.schedule[d].sessions[k].(status := Some(Completed)) in CompletedOf(done)
  {
    var s := plans[i].data.schedule[d].sessions[k];
    var missed := SetSessionStatus(plans, Some(plans[i].id), date, sessionId, Missed)[i].data.schedule;
    assert missed[d].sessions[k] == s.(status := Some(Missed));
    MissedOfMembers(missed, MissedSession(s.(status := Some(Missed)), date));
    var done := SetSessionStatus(plans, Some(plans[i].id), date, sessionId, Completed)[i].data.schedule;
    assert done[d].sessions[k] == s.(status := Some(Completed));
    CompletedOfMembers(done, s.(status := Some(Completed)));
  }
}

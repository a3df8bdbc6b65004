/**
  The simulated community of App.tsx: the presence tick that moves the other
  members on- and offline (every 8 s), and the chat tick (every 5 s) that
  sends friend requests, adds members to public groups, lets bots vote,
  start polls, chat and react. Every `Math.random()` draw is a parameter:
  a roll is a `real` compared with the source's constant, and
  `Math.floor(Math.random() * n)` is `pick % n`. A bot message that the tick
  schedules through a promise or a timer is returned as a `BotTask`.
 */
module Simulation {
  import opened Base
  import opened Seqs
  import opened Text
  import opened Model
  import opened Reactions
  import opened Polls
  import opened GroupStore
  import opened Replies
  import opened Friends

  // ---------------------------------------------------------------- presence tick

  const StudySubjects: seq<string> :=
    ["Calculus", "Physics", "History", "Coding", "Literature", "Biology", "Chemistry", "Economics"]

  /** The two draws the presence tick makes for one member. */
  datatype MemberDraw = MemberDraw(stayRoll: real, topicPick: nat)

  predicate WasOnline(m: GroupMember)
  {
    m.activeStatus.Some? && m.activeStatus.value.isOnline
  }

  /** The focus an online member keeps: a non-empty `currentFocus`. */
  predicate HasFocus(m: GroupMember)
  {
    m.activeStatus.Some? && m.activeStatus.value.currentFocus.Some? && m.activeStatus.value.currentFocus.value != ""
  }

  /**
    One member in a group the presence tick updates (App.tsx:254-279): the
    local user is skipped; an online member stays online with chance 0.7, an
    offline one comes online with chance 0.3; a member staying online keeps a
    non-empty focus, otherwise a subject is drawn; `startedAt` is kept when
    present.
   */
  function PresenceMember(m: GroupMember, localId: string, d: MemberDraw, now: int): GroupMember
  {
    if m.userId == localId then m
    else
      var online := if WasOnline(m) then d.stayRoll > 0.3 else d.stayRoll > 0.7;
      if online then
        var topic := if WasOnline(m) && HasFocus(m) then m.activeStatus.value.currentFocus.value
                     else StudySubjects[d.topicPick % |StudySubjects|];
        var started := if m.activeStatus.Some? && m.activeStatus.value.startedAt.Some?
                       then m.activeStatus.value.startedAt.value else now;
        m.(activeStatus := Some(ActiveStatus(true, Some(topic), Some(started))))
      else m.(activeStatus := None)
  }

  /** One group: updated when its roll exceeds 0.4 (App.tsx:252). */
  function PresenceGroup(g: StudyGroup, localId: string, roll: real, draw: nat -> MemberDraw, now: int): StudyGroup
  {
    if roll > 0.4 then
      g.(members := seq(|g.members|, j requires 0 <= j < |g.members| => PresenceMember(g.members[j], localId, draw(j), now)))
    else g
  }

  /** The presence tick over every group; `memberDraw(i, j)` is the draw for member `j` of group `i`. */
  function PresenceTick(gs: seq<StudyGroup>, localId: string, groupRoll: nat -> real,
                        memberDraw: (nat, nat) -> MemberDraw, now: int): seq<StudyGroup>
  {
    seq(|gs|, i requires 0 <= i < |gs| =>
      PresenceGroup(gs[i], localId, groupRoll(i), (j: nat) => memberDraw(i, j), now))
  }

  /**
    A member's record changes in its live status only; the local user's not
    at all. Afterwards the member is either offline with no status, or online
    with a non-empty focus and a start time; a member who stays online keeps
    the focus and the start time they had.
   */
  lemma PresenceMemberSpec(m: GroupMember, localId: string, d: MemberDraw, now: int)
    ensures var r := PresenceMember(m, localId, d, now);
      r.(activeStatus := m.activeStatus) == m
      && (m.userId == localId ==> r == m)
      && (m.userId != localId ==>
        (r.activeStatus.None? <==> (if WasOnline(m) then d.stayRoll <= 0.3 else d.stayRoll <= 0.7))
        && (r.activeStatus.Some? ==> r.activeStatus.value.isOnline && HasFocus(r) && r.activeStatus.value.startedAt.Some?)
        && (WasOnline(m) && d.stayRoll > 0.3 && HasFocus(m) ==>
              r.activeStatus.value.currentFocus == m.activeStatus.value.currentFocus)
        && (m.activeStatus.Some? && m.activeStatus.value.startedAt.Some? && r.activeStatus.Some? ==>
              r.activeStatus.value.startedAt == m.activeStatus.value.startedAt))
  {
    var r := PresenceMember(m, localId, d, now);
    if m.userId != localId && r.activeStatus.Some? && !(WasOnline(m) && HasFocus(m)) {
      var k := d.topicPick % |StudySubjects|;
      assert StudySubjects[k] != "";
    }
  }

  /**
    The presence tick changes members' live status and nothing else: the same
    groups, the same members in the same order, the local user untouched, and
    every group keeps its shape.
   */
  lemma PresenceTickSpec(gs: seq<StudyGroup>, localId: string, groupRoll: nat -> real,
                         memberDraw: (nat, nat) -> MemberDraw, now: int)
    requires StoreValid(gs)
    ensures var r := PresenceTick(gs, localId, groupRoll, memberDraw, now);
      StoreValid(r) && |r| == |gs|
      && forall i :: 0 <= i < |gs| ==>
        r[i] == gs[i].(members := r[i].members)
        && |r[i].members| == |gs[i].members|
        && forall j :: 0 <= j < |gs[i].members| ==>
          r[i].members[j] == gs[i].members[j].(activeStatus := r[i].members[j].activeStatus)
          && (gs[i].members[j].userId == localId ==> r[i].members[j] == gs[i].members[j])
  {
    var r := PresenceTick(gs, localId, groupRoll, memberDraw, now);
    forall i | 0 <= i < |gs|
      ensures GroupValid(r[i])
      ensures r[i] == gs[i].(members := r[i].members) && |r[i].members| == |gs[i].members|
      ensures forall j :: 0 <= j < |gs[i].members| ==>
          r[i].members[j] == gs[i].members[j].(activeStatus := r[i].members[j].activeStatus)
          && (gs[i].members[j].userId == localId ==> r[i].members[j] == gs[i].members[j])
    {
      var draw := (j: nat) => memberDraw(i, j);
      assert r[i] == PresenceGroup(gs[i], localId, groupRoll(i), draw, now);
      forall j | 0 <= j < |gs[i].members|
        ensures r[i].members[j] == gs[i].members[j].(activeStatus := r[i].members[j].activeStatus)
        ensures gs[i].members[j].userId == localId ==> r[i].members[j] == gs[i].members[j]
      {
        PresenceMemberSpec(gs[i].members[j], localId, draw(j), now);
      }
      forall j, k | 0 <= j < k < |r[i].members| ensures r[i].members[j].userId != r[i].members[k].userId {
        assert r[i].members[j].userId == gs[i].members[j].userId;
        assert r[i].members[k].userId == gs[i].members[k].userId;
      }
    }
  }

  // ---------------------------------------------------------------- friend requests

  const ExtraNames: seq<string> := [
    "Liam", "Olivia", "Noah", "Emma", "Oliver", "Ava", "Elijah", "Charlotte", "William", "Sophia",
    "James", "Amelia", "Benjamin", "Isabella", "Lucas", "Mia", "Henry", "Evelyn", "Alexander", "Harper",
    "Michael", "Ella", "Daniel", "Avery", "Matthew", "Scarlett", "Jackson", "Grace"]

  const RequestRegions: seq<string> := ["North America", "Europe", "Asia"]

  /** The draws of the friend-request step; `requestId` stands for the random request id. */
  datatype RequestDraw = RequestDraw(roll: real, namePick: nat, idPick: nat, regionPick: nat, requestId: string)

  /** `` `MIND-${Math.floor(1000 + Math.random() * 9000)}` `` */
  function MockFriendId(idPick: nat): string
  {
    "MIND-" + NatToString(1000 + idPick % 9000)
  }

  /** A simulated sender id is "MIND-" followed by a four-digit number from 1000 to 9999. */
  lemma MockFriendIdShape(idPick: nat)
    ensures var id := MockFriendId(idPick);
      |id| >= 5 && id[..5] == "MIND-" && ParseDecimal(id[5..]) == Some(1000 + idPick % 9000)
      && 1000 <= 1000 + idPick % 9000 <= 9999
  {
    var id := MockFriendId(idPick);
    NatToStringRoundTrip(1000 + idPick % 9000);
    assert id[5..] == NatToString(1000 + idPick % 9000);
  }

  function MockRequest(d: RequestDraw, now: int): FriendRequest
  {
    var name := ExtraNames[d.namePick % |ExtraNames|];
    FriendRequest(d.requestId,
      UserProfile(MockFriendId(d.idPick), name, AvatarBase + name, RequestRegions[d.regionPick % |RequestRegions|]),
      now, RequestPending)
  }

  /**
    Step 0 of the chat tick (App.tsx:362-382): with chance 0.05, and while
    fewer than five requests are pending, a request from a random id that is
    neither a friend nor already pending is put in front.
   */
  function FriendRequestTick(friends: seq<LeaderboardEntry>, reqs: seq<FriendRequest>, d: RequestDraw, now: int): seq<FriendRequest>
  {
    if d.roll < 0.05 && |reqs| < 5 then
      var id := MockFriendId(d.idPick);
      if !IsFriend(friends, id) && !HasRequestFrom(reqs, id) then [MockRequest(d, now)] + reqs else reqs
    else reqs
  }

  /**
    The simulated requests never exceed five pending, never duplicate a
    sender, never come from a friend, and at most one pending request is new.
   */
  lemma FriendRequestTickSpec(friends: seq<LeaderboardEntry>, reqs: seq<FriendRequest>, d: RequestDraw, now: int)
    requires FriendsValid(friends, reqs)
    ensures var r := FriendRequestTick(friends, reqs, d, now);
      FriendsValid(friends, r)
      && (|reqs| <= 5 ==> |r| <= 5)
      && (r == reqs || (r == [r[0]] + reqs && r[0].fromUser.id == MockFriendId(d.idPick) && r[0].status == RequestPending))
      && (d.roll >= 0.05 || |reqs| >= 5 ==> r == reqs)
  {
    var r := FriendRequestTick(friends, reqs, d, now);
    if r != reqs {
      var q := MockRequest(d, now);
      assert r == [q] + reqs;
      ConsDistinct(q, reqs);
      forall i | 0 <= i < |r| ensures !IsFriend(friends, r[i].fromUser.id) {
        if i > 0 {
          assert r[i] == reqs[i - 1];
        }
      }
    }
  }

  // ---------------------------------------------------------------- chat tick

  /** `generateNewMember` (App.tsx:19-30); `id` stands for the random "u-..." id. */
  function GeneratedMember(namePick: nat, letterPick: nat, id: string, now: int): GroupMember
  {
    var letter := (65 + letterPick % 26) as char;
    GroupMember(id, ExtraNames[namePick % |ExtraNames|] + " " + [letter] + ".", AvatarBase + id, Member, now,
      Some(ActiveStatus(true, Some("General Review"), Some(now))))
  }

  /** The welcome a new member posts on joining (App.tsx:393-401). */
  function JoinMessage(m: GroupMember, groupName: string, id: string, now: int): Message
  {
    Message(id, m.userId, m.name, m.avatar,
      "Hey everyone! Just joined to study " + FirstWord(groupName) + " with you all.",
      now, [], [m.userId], false, None, None)
  }

  datatype PollTemplate = PollTemplate(q: string, o: seq<string>)

  /** `MOCK_POLLS_DATA` (App.tsx:120-125) */
  const MockPolls: seq<PollTemplate> := [
    PollTemplate("Best time to study?", ["Morning 🌅", "Afternoon ☀️", "Night owl 🦉"]),
    PollTemplate("Hardest subject?", ["Calculus", "Physics", "Chemistry", "History"]),
    PollTemplate("Preferred Pomodoro?", ["25/5", "50/10", "90/20"]),
    PollTemplate("Fuel of choice?", ["Coffee ☕", "Tea 🍵", "Water 💧", "Energy Drink ⚡"])]

  const ReactionEmojis: seq<string> := ["👍", "❤️", "🔥", "😂", "💯"]

  /**
    The draws of one group's chat tick. `joinId`, `joinMessageId`,
    `newPollId`, `newOptionIds` and `pollMessageId` stand for the random ids
    the tick creates.
   */
  datatype ChatDraw = ChatDraw(
    joinRoll: real, joinNamePick: nat, joinLetterPick: nat, joinId: string, joinMessageId: string,
    voteRoll: real, pollPick: nat, voterPick: nat, optionPick: nat,
    chatRoll: real, speakerPick: nat, interactionRoll: real,
    templatePick: nat, newPollId: string, newOptionIds: seq<string>, pollMessageId: string, replyPick: nat,
    reactRoll: real, targetPick: nat, reactorPick: nat, emojiPick: nat)

  /**
    Bot messages the tick schedules: an AI topic (after 1 s), an AI study tip
    (after 1.5 s), or a canned reply (after 2 s). A canned reply is drawn at
    tick time from the group's name and a pick; the task records both, and
    `TaskContent` gives its text.
   */
  datatype BotTask =
    | NoTask
    | TopicTask(groupId: string, groupName: string, speaker: GroupMember)
    | TipTask(groupId: string, groupName: string, speaker: GroupMember)
    | CannedTask(groupId: string, speaker: GroupMember, groupName: string, replyPick: nat)

  /** The delay before the bot starts typing (App.tsx:457, 465, 502). */
  function TaskDelay(t: BotTask): nat
  {
    match t
    case NoTask => 0
    case TopicTask(_, _, _) => 1000
    case TipTask(_, _, _) => 1500
    case CannedTask(_, _, _, _) => 2000
  }

  /**
    The text a task finally posts once the generative service has answered:
    nothing for an empty or failed answer (App.tsx:456, 464), a "💡 " prefix
    for a tip, and for a canned reply the group's chatter (App.tsx:501-502).
   */
  function TaskContent(t: BotTask, ai: AiOutcome): (r: Option<string>)
    ensures t.NoTask? ==> r.None?
    ensures t.CannedTask? ==> r.Some? && r.value in PoolFor(t.groupName)
    ensures (t.TopicTask? || t.TipTask?) ==> (r.Some? <==> ai.AiReturned? && ai.text != "")
  {
    match t
    case NoTask => None
    case CannedTask(_, _, groupName, pick) =>
      ContextualReplyPriority(groupName, None, pick);
      Some(ContextualReply(groupName, None, pick))
    case TopicTask(_, _, _) => if ai.AiReturned? && ai.text != "" then Some(ai.text) else None
    case TipTask(_, _, _) => if ai.AiReturned? && ai.text != "" then Some("💡 " + ai.text) else None
  }

  /** `group.polls.filter(p => p.isActive)` */
  function ActivePolls(ps: seq<Poll>): (r: seq<Poll>)
    ensures forall p :: p in r <==> p in ps && p.isActive
    decreases |ps|
  {
    if ps == [] then [] else (if ps[0].isActive then [ps[0]] else []) + ActivePolls(ps[1..])
  }

  /** What a step of the tick does: fall through, return the group at once, or throw. */
  datatype Step = Continue | Done(group: StudyGroup) | Throws

  /**
    The bot vote (App.tsx:412-436): with polls present and a roll below 0.3 a
    random active poll and a random bot are drawn; a bot that has not voted
    is added to a random option and the tick ends with the updated polls.
    A poll with no options draws no option (`randomOption` is undefined);
    `randomOption.id` is then read only for the options of the polls with
    the drawn poll's id, so the tick ends with the polls as they were unless
    such a poll has options, where the read throws.
   */
  function BotVote(g: StudyGroup, mocks: seq<GroupMember>, d: ChatDraw): Step
    requires |mocks| > 0
  {
    match DrawnPoll(g, d)
    case None => Continue
    case Some(poll) =>
      var voter := mocks[d.voterPick % |mocks|];
      if !HasVoted(poll.options, voter.userId) then
        if |poll.options| == 0 then
          if SameIdHasOptions(g.polls, poll.id) then Throws else Done(g)
        else
          var option := poll.options[d.optionPick % |poll.options|];
          Done(g.(polls := BotVotePolls(g.polls, poll.id, option.id, voter.userId)))
      else Continue
  }

  /** The poll the bot vote draws: with polls present and a roll below 0.3, a random active one. */
  function DrawnPoll(g: StudyGroup, d: ChatDraw): (r: Option<Poll>)
    ensures r.Some? ==> r.value in g.polls && r.value.isActive
    ensures r.Some? <==> d.voteRoll < 0.3 && exists p :: p in g.polls && p.isActive
  {
    if |g.polls| > 0 && d.voteRoll < 0.3 then
      var active := ActivePolls(g.polls);
      if |active| > 0 then
        assert active[d.pollPick % |active|] in active;
        Some(active[d.pollPick % |active|])
      else None
    else None
  }

  /** Some poll with that id has an option, so mapping over its options reads the drawn option. */
  predicate SameIdHasOptions(ps: seq<Poll>, id: string)
  {
    exists i :: 0 <= i < |ps| && ps[i].id == id && |ps[i].options| > 0
  }

  predicate QuestionUsed(ps: seq<Poll>, q: string)
  {
    exists i :: 0 <= i < |ps| && ps[i].question == q
  }

  function TemplateOptions(o: seq<string>, ids: seq<string>): (r: seq<PollOption>)
    requires |ids| >= |o|
    ensures |r| == |o|
    ensures forall k :: 0 <= k < |r| ==> r[k] == PollOption(ids[k], o[k], [])
  {
    seq(|o|, k requires 0 <= k < |o| => PollOption(ids[k], o[k], []))
  }

  /** The outcome of the chat step: the poll branch returns a group, the others schedule a task. */
  datatype ChatOutcome = PollStarted(group: StudyGroup) | Scheduled(task: BotTask)

  /**
    The chat step (App.tsx:439-513): it runs with chance 0.15, or always
    when the last message is the user's; a random bot then starts an AI
    topic (roll below 0.25), an AI tip (below 0.35), a template poll whose
    question the group does not have yet (below 0.40), or a canned reply.
   */
  function ChatStep(g: StudyGroup, localId: string, mocks: seq<GroupMember>, d: ChatDraw, now: int): ChatOutcome
    requires |mocks| > 0 && |d.newOptionIds| >= 4
  {
    var lastWasMe := |g.messages| > 0 && g.messages[|g.messages| - 1].userId == localId;
    var threshold := if lastWasMe then 0.0 else 0.85;
    if d.chatRoll > threshold then
      var speaker := mocks[d.speakerPick % |mocks|];
      if d.interactionRoll < 0.25 then Scheduled(TopicTask(g.id, g.name, speaker))
      else if d.interactionRoll < 0.35 then Scheduled(TipTask(g.id, g.name, speaker))
      else if d.interactionRoll < 0.40 then
        var t := MockPolls[d.templatePick % |MockPolls|];
        if !QuestionUsed(g.polls, t.q) then
          var poll := Poll(d.newPollId, t.q, TemplateOptions(t.o, d.newOptionIds), speaker.userId, now, true);
          var msg := Message(d.pollMessageId, speaker.userId, speaker.name, speaker.avatar, "Started a poll",
            now, [], [speaker.userId], false, Some(d.newPollId), None);
          PollStarted(g.(polls := g.polls + [poll], messages := g.messages + [msg]))
        else Scheduled(NoTask)
      else Scheduled(CannedTask(g.id, speaker, g.name, d.replyPick))
    else Scheduled(NoTask)
  }

  /**
    The reaction step (App.tsx:516-542): with chance 0.3 a random one of the
    last eight messages gets a random emoji from a random bot other than its
    author, added only.
   */
  function ReactionStep(g: StudyGroup, mocks: seq<GroupMember>, d: ChatDraw): StudyGroup
    requires |mocks| > 0
  {
    if d.reactRoll < 0.3 && |g.messages| > 0 then
      var recent := TakeLast(g.messages, 8);
      var target := recent[d.targetPick % |recent|];
      var reactor := mocks[d.reactorPick % |mocks|];
      if reactor.userId != target.userId then
        var emoji := ReactionEmojis[d.emojiPick % |ReactionEmojis|];
        g.(messages := ReactTo(g.messages, target.id, emoji, reactor.userId))
      else g
    else g
  }

  /**
    Every message with that id gets the reaction added (App.tsx:529-537).
    One emoji serves all of them; the source draws one per matching message
    (App.tsx:518), which differs only when message ids repeat.
   */
  function ReactTo(ms: seq<Message>, id: string, emoji: string, uid: string): seq<Message>
  {
    UpdateMessages(ms, id, (m: Message) => m.(reactions := AddReaction(m.reactions, emoji, uid)))
  }

  /** Reacting changes the reactions of the messages with that id only, keeping every message well formed. */
  lemma ReactToSpec(ms: seq<Message>, id: string, emoji: string, uid: string)
    requires forall k :: 0 <= k < |ms| ==> MessageValid(ms[k])
    ensures var r := ReactTo(ms, id, emoji, uid);
      |r| == |ms|
      && (forall k :: 0 <= k < |ms| ==> r[k] == ms[k].(reactions := r[k].reactions) && MessageValid(r[k]))
      && (forall k :: 0 <= k < |ms| && ms[k].id != id ==> r[k] == ms[k])
  {
    var r := ReactTo(ms, id, emoji, uid);
    forall k | 0 <= k < |ms| ensures r[k] == ms[k].(reactions := r[k].reactions) && MessageValid(r[k]) {
      if ms[k].id == id {
        AddReactionAdds(ms[k].reactions, emoji, uid);
      }
    }
  }

  datatype TickResult = TickResult(group: StudyGroup, task: BotTask)

  /**
    One group's chat tick (App.tsx:384-546). Private groups are left alone;
    a public group may gain a member (and the tick ends there); a group with
    no bot ends there too; then the bots take their turn. `None` is the
    throw of the bot vote.
   */
  function ChatTickGroup(g: StudyGroup, localId: string, d: ChatDraw, now: int): Option<TickResult>
    requires |d.newOptionIds| >= 4
  {
    if g.privacy != Public then Some(TickResult(g, NoTask))
    else
      var nm := GeneratedMember(d.joinNamePick, d.joinLetterPick, d.joinId, now);
      if d.joinRoll < 0.05 && !HasMember(g, nm.userId) then
        Some(TickResult(g.(members := g.members + [nm], messages := g.messages + [JoinMessage(nm, g.name, d.joinMessageId, now)]), NoTask))
      else
        var mocks := OthersThan(g.members, localId);
        if |mocks| == 0 then Some(TickResult(g, NoTask))
        else BotTurn(g, localId, mocks, d, now)
  }

  /** The bots' turn (App.tsx:405-545): the bot vote, then the chat step and the reaction step. */
  function BotTurn(g: StudyGroup, localId: string, mocks: seq<GroupMember>, d: ChatDraw, now: int): Option<TickResult>
    requires |mocks| > 0 && |d.newOptionIds| >= 4
  {
    match BotVote(g, mocks, d)
    case Throws => None
    case Done(voted) => Some(TickResult(voted, NoTask))
    case Continue =>
      match ChatStep(g, localId, mocks, d, now)
      case PollStarted(withPoll) => Some(TickResult(withPoll, NoTask))
      case Scheduled(task) => Some(TickResult(ReactionStep(g, mocks, d), task))
  }

  /**
    The chat tick over every group, inside one `setGroups` updater: `None` when
    the step of some group throws, which in the app is a render error rather
    than a skipped update. `ChatTickSpec` shows that it does not happen on a
    well-formed store with fresh ids.
   */
  function ChatTick(gs: seq<StudyGroup>, localId: string, draws: nat -> ChatDraw, now: int): Option<(seq<StudyGroup>, seq<BotTask>)>
    requires forall i :: 0 <= i < |gs| ==> |draws(i).newOptionIds| >= 4
  {
    var outs := seq(|gs|, i requires 0 <= i < |gs| => ChatTickGroup(gs[i], localId, draws(i), now));
    if forall i :: 0 <= i < |gs| ==> outs[i].Some? then
      Some((seq(|gs|, i requires 0 <= i < |gs| => outs[i].GetOr(TickResult(gs[i], NoTask)).group),
            seq(|gs|, i requires 0 <= i < |gs| => outs[i].GetOr(TickResult(gs[i], NoTask)).task)))
    else None
  }

  // ---------------------------------------------------------------- chat tick lemmas

  /** The ids a tick draws are fresh: no existing poll has the new poll id and the option ids differ. */
  predicate FreshIds(g: StudyGroup, d: ChatDraw)
  {
    |d.newOptionIds| >= 4
    && (forall i :: 0 <= i < |g.polls| ==> g.polls[i].id != d.newPollId)
    && (forall i, j :: 0 <= i < j < |d.newOptionIds| ==> d.newOptionIds[i] != d.newOptionIds[j])
  }

  /**
    A bot vote on a well-formed group never throws and keeps the group well
    formed; it adds one vote in all, except on a drawn poll without options,
    where the group comes back as it was.
   */
  lemma BotVoteSpec(g: StudyGroup, mocks: seq<GroupMember>, d: ChatDraw)
    requires GroupValid(g) && |mocks| > 0
    ensures var s := BotVote(g, mocks, d);
      !s.Throws?
      && (s.Done? ==>
            DrawnPoll(g, d).Some?
            && GroupValid(s.group) && s.group == g.(polls := s.group.polls) && |s.group.polls| == |g.polls|
            && (if |DrawnPoll(g, d).value.options| == 0 then s.group == g
                else TotalAll(s.group.polls) == TotalAll(g.polls) + 1))
  {
    var drawn := DrawnPoll(g, d);
    if drawn.Some? {
      var poll := drawn.value;
      var pi :| 0 <= pi < |g.polls| && g.polls[pi] == poll;
      var voter := mocks[d.voterPick % |mocks|];
      if !HasVoted(poll.options, voter.userId) {
        if |poll.options| == 0 {
          assert !SameIdHasOptions(g.polls, poll.id) by {
            forall i | 0 <= i < |g.polls| && g.polls[i].id == poll.id ensures |g.polls[i].options| == 0 {
              assert i == pi;
            }
          }
        } else {
          assert PollOptionsValid(poll.options);
          var option := poll.options[d.optionPick % |poll.options|];
          BotVotePollsSpec(g.polls, pi, option.id, voter.userId);
          PollsOnlyKeepValid(g, BotVotePolls(g.polls, poll.id, option.id, voter.userId));
        }
      }
    }
  }

  /**
    The bot vote as the code has it on a drawn poll without options: the
    group is returned as it was when no poll with that id has options, and
    the tick throws when one has.
   */
  lemma BotVoteOnEmptyPoll(g: StudyGroup, mocks: seq<GroupMember>, d: ChatDraw)
    requires |mocks| > 0 && DrawnPoll(g, d).Some? && DrawnPoll(g, d).value.options == []
    ensures BotVote(g, mocks, d) == if SameIdHasOptions(g.polls, DrawnPoll(g, d).value.id) then Throws else Done(g)
  {
    var voter := mocks[d.voterPick % |mocks|];
    assert !HasVoted(DrawnPoll(g, d).value.options, voter.userId);
  }

  /** Replacing the polls of a well-formed group by well-formed polls with the same ids keeps it well formed. */
  lemma PollsOnlyKeepValid(g: StudyGroup, ps: seq<Poll>)
    requires GroupValid(g) && |ps| == |g.polls|
    requires forall i :: 0 <= i < |ps| ==> ps[i].id == g.polls[i].id && PollOptionsValid(ps[i].options)
    ensures GroupValid(g.(polls := ps))
  {
  }

  /** A bot vote by a voter new to the poll at `pi`, for one of its options, keeps the polls well formed. */
  lemma BotVotePollsSpec(ps: seq<Poll>, pi: nat, optionId: string, voter: string)
    requires pi < |ps| && !HasVoted(ps[pi].options, voter)
    requires forall i, j :: 0 <= i < j < |ps| ==> ps[i].id != ps[j].id
    requires forall i :: 0 <= i < |ps| ==> PollOptionsValid(ps[i].options)
    requires exists k :: 0 <= k < |ps[pi].options| && ps[pi].options[k].id == optionId
    ensures var r := BotVotePolls(ps, ps[pi].id, optionId, voter);
      |r| == |ps| && (forall i :: 0 <= i < |r| ==> r[i].id == ps[i].id)
      && (forall i :: 0 <= i < |r| ==> PollOptionsValid(r[i].options))
      && TotalAll(r) == TotalAll(ps) + 1
  {
    var r := BotVotePolls(ps, ps[pi].id, optionId, voter);
    forall i | 0 <= i < |r| ensures PollOptionsValid(r[i].options) {
      if ps[i].id == ps[pi].id {
        BotVoteKeepsPollValid(ps[i].options, optionId, voter);
      }
    }
    BotVoteTotal(ps, ps[pi].id, pi, optionId, voter);
  }

  /** The votes of every poll of a group, summed. */
  function TotalAll(ps: seq<Poll>): nat
  {
    if ps == [] then 0 else TotalVotes(ps[0].options) + TotalAll(ps[1..])
  }

  /** A bot vote for an existing option of the poll at `pi`, whose id is unique, adds exactly one vote. */
  lemma {:induction false} BotVoteTotal(ps: seq<Poll>, pollId: string, pi: nat, optionId: string, voter: string)
    requires pi < |ps| && ps[pi].id == pollId
    requires forall i, j :: 0 <= i < j < |ps| ==> ps[i].id != ps[j].id
    requires forall i :: 0 <= i < |ps| ==> PollOptionsValid(ps[i].options)
    requires exists k :: 0 <= k < |ps[pi].options| && ps[pi].options[k].id == optionId
    ensures TotalAll(BotVotePolls(ps, pollId, optionId, voter)) == TotalAll(ps) + 1
    decreases |ps|
  {
    var r := BotVotePolls(ps, pollId, optionId, voter);
    assert r[1..] == BotVotePolls(ps[1..], pollId, optionId, voter);
    if pi == 0 {
      BotVoteOptionsTotal(ps[0].options, optionId, voter);
      forall i | 0 <= i < |ps[1..]| ensures ps[1..][i].id != pollId {
        assert ps[i + 1].id != ps[0].id;
      }
      BotVotePollsElsewhere(ps[1..], pollId, optionId, voter);
    } else {
      assert ps[0].id != pollId;
      BotVoteTotal(ps[1..], pollId, pi - 1, optionId, voter);
    }
  }

  /** A bot vote for a poll id no poll has changes no total. */
  lemma {:induction false} BotVotePollsElsewhere(ps: seq<Poll>, pollId: string, optionId: string, voter: string)
    requires forall i :: 0 <= i < |ps| ==> ps[i].id != pollId
    ensures BotVotePolls(ps, pollId, optionId, voter) == ps
  {
    var r := BotVotePolls(ps, pollId, optionId, voter);
    assert forall i :: 0 <= i < |ps| ==> r[i] == ps[i];
  }

  /** Appending one voter to the option with that id, the ids being unique, adds one to the total. */
  lemma {:induction false} BotVoteOptionsTotal(opts: seq<PollOption>, optionId: string, voter: string)
    requires forall i, j :: 0 <= i < j < |opts| ==> opts[i].id != opts[j].id
    requires exists k :: 0 <= k < |opts| && opts[k].id == optionId
    ensures TotalVotes(BotVoteOptions(opts, optionId, voter)) == TotalVotes(opts) + 1
  {
    var r := BotVoteOptions(opts, optionId, voter);
    var c :| 0 <= c < |opts| && opts[c].id == optionId;
    forall i | 0 <= i < |opts| ensures |r[i].votes| == |opts[i].votes| - 0 + (if i == c then 1 else 0) {
      if i != c {
        assert opts[i].id != optionId;
      }
    }
    TotalMoved(opts, r, -1, c);
  }

  /**
    What every tick of a well-formed group keeps: the group stays well formed
    under its id and privacy; it keeps its members, except that one member
    with a new id may be appended; it keeps every message, in order, with at
    most its reactions changed, and gains at most one message at the end; a
    scheduled bot message names a member other than the user.
   */
  predicate TickKeeps(g: StudyGroup, localId: string, t: TickResult)
  {
    GroupValid(t.group) && t.group.id == g.id && t.group.privacy == g.privacy
    && |g.members| <= |t.group.members| <= |g.members| + 1 && t.group.members[..|g.members|] == g.members
    && (|t.group.members| > |g.members| ==> !HasMember(g, t.group.members[|g.members|].userId))
    && |g.messages| <= |t.group.messages| <= |g.messages| + 1
    && (forall k :: 0 <= k < |g.messages| ==> t.group.messages[k] == g.messages[k].(reactions := t.group.messages[k].reactions))
    && (!t.task.NoTask? ==> t.task.speaker in g.members && t.task.speaker.userId != localId)
  }

  /** On a well-formed group with fresh ids the chat tick never throws; a private group comes back untouched. */
  lemma ChatTickGroupSpec(g: StudyGroup, localId: string, d: ChatDraw, now: int)
    requires GroupValid(g) && FreshIds(g, d)
    ensures var r := ChatTickGroup(g, localId, d, now);
      r.Some? && TickKeeps(g, localId, r.value) && (g.privacy != Public ==> r.value == TickResult(g, NoTask))
  {
    if g.privacy == Public {
      var nm := GeneratedMember(d.joinNamePick, d.joinLetterPick, d.joinId, now);
      if d.joinRoll < 0.05 && !HasMember(g, nm.userId) {
        JoinKeepsValid(g, nm, JoinMessage(nm, g.name, d.joinMessageId, now));
      } else {
        var mocks := OthersThan(g.members, localId);
        if |mocks| > 0 {
          BotTurnSpec(g, localId, mocks, d, now);
        }
      }
    }
  }

  /** The bots' turn on a well-formed group with fresh ids never throws and keeps what a tick keeps. */
  lemma BotTurnSpec(g: StudyGroup, localId: string, mocks: seq<GroupMember>, d: ChatDraw, now: int)
    requires GroupValid(g) && FreshIds(g, d) && |mocks| > 0
    requires forall m :: m in mocks ==> m in g.members && m.userId != localId
    ensures var r := BotTurn(g, localId, mocks, d, now);
      r.Some? && TickKeeps(g, localId, r.value)
  {
    BotVoteSpec(g, mocks, d);
    var v := BotVote(g, mocks, d);
    if v.Done? {
      VotedKeeps(g, localId, v.group);
    } else {
      var c := ChatStep(g, localId, mocks, d, now);
      if c.PollStarted? {
        PollStartKeepsValid(g, localId, mocks, d, now);
        PolledKeeps(g, localId, c.group);
      } else {
        ReactionStepSpec(g, mocks, d);
        ChatStepTask(g, localId, mocks, d, now);
        ReactedKeeps(g, localId, ReactionStep(g, mocks, d), c.task);
      }
    }
  }

  /** A group that differs from `g` in its polls only keeps what a tick keeps. */
  lemma VotedKeeps(g: StudyGroup, localId: string, voted: StudyGroup)
    requires GroupValid(voted) && voted == g.(polls := voted.polls)
    ensures TickKeeps(g, localId, TickResult(voted, NoTask))
  {
  }

  /** A group with the members of `g` and one message appended keeps what a tick keeps. */
  lemma PolledKeeps(g: StudyGroup, localId: string, polled: StudyGroup)
    requires GroupValid(polled) && polled.id == g.id && polled.privacy == g.privacy
    requires polled.members == g.members && |polled.messages| == |g.messages| + 1
    requires polled.messages[..|g.messages|] == g.messages
    ensures TickKeeps(g, localId, TickResult(polled, NoTask))
  {
    forall k | 0 <= k < |g.messages| ensures polled.messages[k] == g.messages[k] {
      assert polled.messages[..|g.messages|][k] == polled.messages[k];
    }
  }

  /** A group whose messages changed their reactions only, with a task from a bot, keeps what a tick keeps. */
  lemma ReactedKeeps(g: StudyGroup, localId: string, reacted: StudyGroup, task: BotTask)
    requires GroupValid(reacted) && reacted == g.(messages := reacted.messages) && |reacted.messages| == |g.messages|
    requires forall k :: 0 <= k < |g.messages| ==> reacted.messages[k] == g.messages[k].(reactions := reacted.messages[k].reactions)
    requires !task.NoTask? ==> task.speaker in g.members && task.speaker.userId != localId
    ensures TickKeeps(g, localId, TickResult(reacted, task))
  {
  }

  /** Appending a member with a new id and a well-formed message keeps a group well formed. */
  lemma JoinKeepsValid(g: StudyGroup, nm: GroupMember, msg: Message)
    requires GroupValid(g) && !HasMember(g, nm.userId) && MessageValid(msg)
    ensures GroupValid(g.(members := g.members + [nm], messages := g.messages + [msg]))
  {
    var r := g.(members := g.members + [nm], messages := g.messages + [msg]);
    forall i, j | 0 <= i < j < |r.members| ensures r.members[i].userId != r.members[j].userId {
      if j == |g.members| {
        assert r.members[i] == g.members[i];
      }
    }
    forall k | 0 <= k < |r.messages| ensures MessageValid(r.messages[k]) {
      if k < |g.messages| {
        assert r.messages[k] == g.messages[k];
      }
    }
  }

  /** The poll branch of the chat step keeps the group well formed and adds one poll and one message. */
  lemma PollStartKeepsValid(g: StudyGroup, localId: string, mocks: seq<GroupMember>, d: ChatDraw, now: int)
    requires GroupValid(g) && FreshIds(g, d) && |mocks| > 0
    requires ChatStep(g, localId, mocks, d, now).PollStarted?
    ensures var r := ChatStep(g, localId, mocks, d, now).group;
      GroupValid(r) && r.members == g.members && |r.messages| == |g.messages| + 1
      && r.messages[..|g.messages|] == g.messages
  {
    var t := MockPolls[d.templatePick % |MockPolls|];
    assert 3 <= |t.o| <= 4;
    var opts := TemplateOptions(t.o, d.newOptionIds);
    assert PollOptionsValid(opts);
    var r := ChatStep(g, localId, mocks, d, now).group;
    forall i, j | 0 <= i < j < |r.polls| ensures r.polls[i].id != r.polls[j].id {
      if j == |g.polls| {
        assert r.polls[i] == g.polls[i];
      }
    }
    forall i | 0 <= i < |r.polls| ensures PollOptionsValid(r.polls[i].options) {
      if i < |g.polls| {
        assert r.polls[i] == g.polls[i];
      }
    }
    forall k | 0 <= k < |r.messages| ensures MessageValid(r.messages[k]) {
      if k < |g.messages| {
        assert r.messages[k] == g.messages[k];
      }
    }
  }

  /** The reaction step changes the reactions of existing messages only, keeping them well formed. */
  lemma ReactionStepSpec(g: StudyGroup, mocks: seq<GroupMember>, d: ChatDraw)
    requires GroupValid(g) && |mocks| > 0
    ensures var r := ReactionStep(g, mocks, d);
      GroupValid(r) && r == g.(messages := r.messages) && |r.messages| == |g.messages|
      && forall k :: 0 <= k < |g.messages| ==> r.messages[k] == g.messages[k].(reactions := r.messages[k].reactions)
  {
    var r := ReactionStep(g, mocks, d);
    if r != g {
      var recent := TakeLast(g.messages, 8);
      var target := recent[d.targetPick % |recent|];
      var emoji := ReactionEmojis[d.emojiPick % |ReactionEmojis|];
      var uid := mocks[d.reactorPick % |mocks|].userId;
      ReactToSpec(g.messages, target.id, emoji, uid);
      MessagesOnlyKeepValid(g, ReactTo(g.messages, target.id, emoji, uid));
    }
  }

  /** Replacing the messages of a well-formed group by well-formed ones keeps it well formed. */
  lemma MessagesOnlyKeepValid(g: StudyGroup, ms: seq<Message>)
    requires GroupValid(g) && forall k :: 0 <= k < |ms| ==> MessageValid(ms[k])
    ensures GroupValid(g.(messages := ms))
  {
  }

  /** A task the chat step schedules is spoken by a member other than the user. */
  lemma ChatStepTask(g: StudyGroup, localId: string, mocks: seq<GroupMember>, d: ChatDraw, now: int)
    requires |mocks| > 0 && |d.newOptionIds| >= 4
    requires forall m :: m in mocks ==> m in g.members && m.userId != localId
    requires ChatStep(g, localId, mocks, d, now).Scheduled?
    ensures var t := ChatStep(g, localId, mocks, d, now).task;
      !t.NoTask? ==> t.speaker in g.members && t.speaker.userId != localId && t.groupId == g.id
  {
    assert mocks[d.speakerPick % |mocks|] in mocks;
  }

  /**
    The chat tick over a well-formed store with fresh ids never throws, keeps
    the store well formed, returns one task per group, and leaves every
    private group as it was.
   */
  lemma ChatTickSpec(gs: seq<StudyGroup>, localId: string, draws: nat -> ChatDraw, now: int)
    requires StoreValid(gs)
    requires forall i :: 0 <= i < |gs| ==> |draws(i).newOptionIds| >= 4
    requires forall i :: 0 <= i < |gs| ==> FreshIds(gs[i], draws(i))
    ensures var r := ChatTick(gs, localId, draws, now);
      r.Some? && StoreValid(r.value.0) && |r.value.0| == |gs| && |r.value.1| == |gs|
      && forall i :: 0 <= i < |gs| ==>
        r.value.0[i].id == gs[i].id && (gs[i].privacy != Public ==> r.value.0[i] == gs[i] && r.value.1[i] == NoTask)
  {
    var outs := seq(|gs|, i requires 0 <= i < |gs| => ChatTickGroup(gs[i], localId, draws(i), now));
    forall i | 0 <= i < |gs| ensures outs[i].Some? && GroupValid(outs[i].value.group) && outs[i].value.group.id == gs[i].id {
      ChatTickGroupSpec(gs[i], localId, draws(i), now);
    }
  }
}

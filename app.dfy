/**
  The application component of App.tsx as an object: its state hooks are the
  fields of `StudyApp`, and each handler is a method that replaces fields the
  way the handler's `set...` calls do. Each method's new state is stated
  through the store functions of the other modules, and every method keeps
  `Valid`: the store well formed, the friend lists consistent, and the
  minute counter non-negative.

  A handler that schedules work with a timer or a promise is split at the
  timer: the part before it is one method, and what the callback does when it
  fires is another (`BotStartsTyping`, `BotStopsTyping`, `PostBotMessage`,
  `DeliverTask`, `UserTypingTimeout`).
 */
module App {
  import opened Base
  import opened Seqs
  import opened Model
  import opened Reactions
  import opened Polls
  import opened GroupStore
  import opened Friends
  import opened Replies
  import opened Simulation
  import opened Plans

  /** Every field of the component, as one value. */
  datatype AppState = AppState(
    profile: UserProfile,
    groups: seq<StudyGroup>,
    typingUsers: map<string, seq<string>>,
    friends: seq<LeaderboardEntry>,
    friendRequests: seq<FriendRequest>,
    savedPlans: seq<SavedPlan>,
    currentPlanId: Option<string>,
    activeSession: Option<StudySession>,
    totalMinutesStudied: int,
    history: seq<FocusHistoryEntry>)

  /** `groups.find(g => g.id === id)`, as the index of the first match, or -1. */
  function GroupIndex(gs: seq<StudyGroup>, id: string): (k: int)
    ensures -1 <= k < |gs|
    ensures k >= 0 ==> gs[k].id == id && forall j :: 0 <= j < k ==> gs[j].id != id
    ensures k == -1 ==> forall j :: 0 <= j < |gs| ==> gs[j].id != id
  {
    FirstIndex(gs, (g: StudyGroup) => g.id == id)
  }


  /** `messages.find(m => m.id === id)` */
  function FindMessage(ms: seq<Message>, id: string): (r: Option<Message>)
    ensures r.Some? ==> r.value in ms && r.value.id == id
    ensures r.Some? ==> exists k :: 0 <= k < |ms| && ms[k] == r.value && forall j :: 0 <= j < k ==> ms[j].id != id
    ensures r.None? ==> forall m :: m in ms ==> m.id != id
  {
    Find(ms, (m: Message) => m.id == id)
  }


  /**
    The quoted message of `handleSendMessage` (App.tsx:948-958): none without
    an id (an empty id is falsy) or when the group has no message with it,
    else the id, author and text of the first message with that id.
   */
  function QuotedMessage(ms: seq<Message>, replyToId: Option<string>): (r: Option<ReplyRef>)
    ensures r.Some? <==> replyToId.Some? && replyToId.value != "" && exists m :: m in ms && m.id == replyToId.value
    ensures r.Some? ==> exists k :: (0 <= k < |ms| && ms[k].id == replyToId.value
              && (forall j :: 0 <= j < k ==> ms[j].id != replyToId.value)
              && r.value == ReplyRef(ms[k].id, ms[k].userName, ms[k].content))
  {
    if replyToId.Some? && replyToId.value != "" then
      match FindMessage(ms, replyToId.value)
      case None => None
      case Some(m) => Some(ReplyRef(m.id, m.userName, m.content))
    else None
  }

  /** The bot reply `handleSendMessage` schedules: who answers, and what the answer quotes. */
  datatype ScheduledReply = ScheduledReply(replier: GroupMember, replyTo: Option<ReplyRef>)

  /**
    The reply scheduled after the user posts `content` in `g` (App.tsx:986-1026):
    only in a public group with somebody else in it; the answer quotes the
    user's message, as "latest", when the user was replying to somebody.
   */
  function PlanReply(g: StudyGroup, user: UserProfile, content: string, quoted: Option<ReplyRef>, pick: nat): (r: Option<ScheduledReply>)
    ensures r.Some? <==> g.privacy == Public && exists m :: m in g.members && m.userId != user.id
    ensures r.Some? ==>
      && r.value.replier in g.members && r.value.replier.userId != user.id
      && r.value.replyTo == (if quoted.Some? then Some(ReplyRef("latest", user.name, content)) else None)
  {
    ChooseReplierSpec(g.members, user.id, quoted, pick);
    if g.privacy != Public then None
    else
      match ChooseReplier(g.members, user.id, quoted, pick)
      case None => None
      case Some(bot) => Some(ScheduledReply(bot, if quoted.Some? then Some(ReplyRef("latest", user.name, content)) else None))
  }

  class StudyApp {
    var profile: UserProfile
    var groups: seq<StudyGroup>
    var typingUsers: map<string, seq<string>>
    var friends: seq<LeaderboardEntry>
    var friendRequests: seq<FriendRequest>
    var savedPlans: seq<SavedPlan>
    var currentPlanId: Option<string>
    var activeSession: Option<StudySession>
    var totalMinutesStudied: int
    var history: seq<FocusHistoryEntry>

    function State(): AppState
      reads this
    {
      AppState(profile, groups, typingUsers, friends, friendRequests, savedPlans, currentPlanId,
        activeSession, totalMinutesStudied, history)
    }

    ghost predicate Valid()
      reads this
    {
      StoreValid(groups) && FriendsValid(friends, friendRequests) && totalMinutesStudied >= 0
    }

    /** The state on mount, before anything is loaded or seeded. */
    constructor(user: UserProfile)
      ensures State() == AppState(user, [], map[], [], [], [], None, None, 0, []) && Valid()
    {
      profile := user;
      groups := [];
      typingUsers := map[];
      friends := [];
      friendRequests := [];
      savedPlans := [];
      currentPlanId := None;
      activeSession := None;
      totalMinutesStudied := 0;
      history := [];
    }

    // ------------------------------------------------------------ chat

    /** `handleToggleReaction` (App.tsx:1047-1077). */
    method ToggleReaction(groupId: string, messageId: string, emoji: string)
      requires Valid()
      modifies this
      ensures State() == old(State()).(groups := ToggleReactionIn(old(groups), groupId, messageId, emoji, profile.id))
      ensures Valid()
    {
      ToggleReactionInStore(groups, groupId, messageId, emoji, profile.id);
      groups := ToggleReactionIn(groups, groupId, messageId, emoji, profile.id);
    }

    /** `handleVotePoll` (App.tsx:1166-1186). */
    method VotePoll(groupId: string, pollId: string, optionId: string)
      requires Valid()
      modifies this
      ensures State() == old(State()).(groups := VotePollIn(old(groups), groupId, pollId, optionId, profile.id))
      ensures Valid()
    {
      VotePollInStore(groups, groupId, pollId, optionId, profile.id);
      groups := VotePollIn(groups, groupId, pollId, optionId, profile.id);
    }

    /** `handleMarkMessagesRead` (App.tsx:1030-1045). */
    method MarkMessagesRead(groupId: string, messageIds: seq<string>)
      requires Valid()
      modifies this
      ensures State() == old(State()).(groups := MarkReadIn(old(groups), groupId, messageIds, profile.id))
      ensures |messageIds| == 0 ==> State() == old(State())
      ensures Valid()
    {
      MarkReadInStore(groups, groupId, messageIds, profile.id);
      groups := MarkReadIn(groups, groupId, messageIds, profile.id);
    }

    /** `handleUserTyping` (App.tsx:304-310): the user's name, once. */
    method UserTyping(groupId: string)
      requires Valid()
      modifies this
      ensures State() == old(State()).(typingUsers := UserStartsTyping(old(typingUsers), groupId, profile.name))
      ensures Valid()
    {
      typingUsers := UserStartsTyping(typingUsers, groupId, profile.name);
    }

    /** The typing timeout of `handleUserTyping` (App.tsx:318-323), three seconds after the last keystroke. */
    method UserTypingTimeout(groupId: string)
      requires Valid()
      modifies this
      ensures State() == old(State()).(typingUsers := StopTyping(old(typingUsers), groupId, profile.name))
      ensures Valid()
    {
      typingUsers := StopTyping(typingUsers, groupId, profile.name);
    }

    /** `simulateBotTyping` (App.tsx:290-294), when the bot starts typing. */
    method BotStartsTyping(groupId: string, botName: string)
      requires Valid()
      modifies this
      ensures State() == old(State()).(typingUsers := GroupStore.BotStartsTyping(old(typingUsers), groupId, botName))
      ensures Valid()
    {
      typingUsers := GroupStore.BotStartsTyping(typingUsers, groupId, botName);
    }

    /** The timeout of `simulateBotTyping` (App.tsx:296-301). */
    method BotStopsTyping(groupId: string, botName: string)
      requires Valid()
      modifies this
      ensures State() == old(State()).(typingUsers := StopTyping(old(typingUsers), groupId, botName))
      ensures Valid()
    {
      typingUsers := StopTyping(typingUsers, groupId, botName);
    }

    /** The post at the end of `insertBotMessage` (App.tsx:336-349); the id and the clock are parameters. */
    method PostBotMessage(groupId: string, bot: GroupMember, content: string, id: string, now: int, replyTo: Option<ReplyRef>)
      requires Valid()
      modifies this
      ensures State() == old(State()).(groups := GroupStore.PostBotMessage(old(groups), groupId, BotMessage(bot, content, id, now, replyTo)))
      ensures Valid()
    {
      PostBotMessageInStore(groups, groupId, BotMessage(bot, content, id, now, replyTo));
      groups := GroupStore.PostBotMessage(groups, groupId, BotMessage(bot, content, id, now, replyTo));
    }

    /**
      `handleSendMessage` (App.tsx:944-1028) up to its timer: an unknown group
      changes nothing; otherwise the user's message is appended, the user
      stops typing, and the reply to schedule, if any, is returned.
     */
    method SendMessage(groupId: string, content: string, replyToId: Option<string>, id: string, now: int, pick: nat)
      returns (reply: Option<ScheduledReply>)
      requires Valid()
      modifies this
      ensures var k := GroupIndex(old(groups), groupId);
        (k < 0 ==> State() == old(State()) && reply.None?)
        && (k >= 0 ==>
          var g := old(groups)[k];
          var quoted := QuotedMessage(g.messages, replyToId);
          State() == old(State()).(
            groups := PostMessage(old(groups), groupId, UserMessage(profile, content, id, now, quoted)),
            typingUsers := StopTyping(old(typingUsers), groupId, profile.name))
          && reply == PlanReply(g, profile, content, quoted, pick))
      ensures reply.Some? ==> reply.value.replier.userId != profile.id
      ensures Valid()
    {
      var k := GroupIndex(groups, groupId);
      if k < 0 {
        return None;
      }
      var g := groups[k];
      var quoted := QuotedMessage(g.messages, replyToId);
      var m := UserMessage(profile, content, id, now, quoted);
      PostMessageUncapped(groups, groupId, m);
      groups := PostMessage(groups, groupId, m);
      typingUsers := StopTyping(typingUsers, groupId, profile.name);
      reply := PlanReply(g, profile, content, quoted, pick);
    }

    // ------------------------------------------------------------ members and presence

    /** `handleJoinGroup` (App.tsx:866-883). */
    method JoinGroup(groupId: string, now: int)
      requires Valid()
      modifies this
      ensures State() == old(State()).(groups := JoinIn(old(groups), groupId, JoiningUser(profile, now)))
      ensures Valid()
    {
      JoinInStore(groups, groupId, JoiningUser(profile, now));
      groups := JoinIn(groups, groupId, JoiningUser(profile, now));
    }

    /** `handleAddMemberToGroup` (App.tsx:927-942). */
    method AddMemberToGroup(groupId: string, friend: LeaderboardEntry, now: int)
      requires Valid()
      modifies this
      ensures State() == old(State()).(groups := JoinIn(old(groups), groupId, InvitedFriend(friend, now)))
      ensures Valid()
    {
      JoinInStore(groups, groupId, InvitedFriend(friend, now));
      groups := JoinIn(groups, groupId, InvitedFriend(friend, now));
    }

    /** `updateLiveStatus` (App.tsx:778-802). */
    method UpdateLiveStatus(isOnline: bool, focusTopic: Option<string>, now: int)
      requires Valid()
      modifies this
      ensures State() == old(State()).(groups := SetOwnStatus(old(groups), profile.id, LiveStatus(isOnline, focusTopic, now)))
      ensures Valid()
    {
      SetOwnStatusInStore(groups, profile.id, LiveStatus(isOnline, focusTopic, now));
      groups := SetOwnStatus(groups, profile.id, LiveStatus(isOnline, focusTopic, now));
    }

    /** One firing of the presence interval (App.tsx:252-277); the draws are parameters. */
    method PresenceTick(groupRoll: nat -> real, memberDraw: (nat, nat) -> MemberDraw, now: int)
      requires Valid()
      modifies this
      ensures State() == old(State()).(groups := Simulation.PresenceTick(old(groups), profile.id, groupRoll, memberDraw, now))
      ensures Valid()
    {
      PresenceTickSpec(groups, profile.id, groupRoll, memberDraw, now);
      groups := Simulation.PresenceTick(groups, profile.id, groupRoll, memberDraw, now);
    }

    /**
      One firing of the chat-simulation interval (App.tsx:360-555): the
      friend-request step, then every group's step. A throw in a group's step
      would be a render error inside the `setGroups` updater; under the
      class invariant and fresh ids `Simulation.ChatTickSpec` rules it out,
      so the tick always completes. The bot messages the step schedules are
      returned, one per group.
     */
    method ChatTick(requestDraw: RequestDraw, draws: nat -> ChatDraw, now: int) returns (tasks: seq<BotTask>)
      requires Valid()
      requires forall i :: 0 <= i < |groups| ==> |draws(i).newOptionIds| >= 4
      requires forall i :: 0 <= i < |groups| ==> FreshIds(groups[i], draws(i))
      modifies this
      ensures var r := Simulation.ChatTick(old(groups), profile.id, draws, now);
        r.Some?
        && State() == old(State()).(
          friendRequests := FriendRequestTick(old(friends), old(friendRequests), requestDraw, now),
          groups := r.value.0)
        && tasks == r.value.1
      ensures |tasks| == |groups|
      ensures Valid()
    {
      FriendRequestTickSpec(friends, friendRequests, requestDraw, now);
      friendRequests := FriendRequestTick(friends, friendRequests, requestDraw, now);
      ChatTickSpec(groups, profile.id, draws, now);
      var r := Simulation.ChatTick(groups, profile.id, draws, now);
      groups := r.value.0;
      tasks := r.value.1;
    }

    /**
      A bot message the chat tick scheduled, when its delay has passed and,
      for the generated kinds, the service has answered: posted like any bot
      message, or nothing when there is no text.
     */
    method DeliverTask(task: BotTask, ai: AiOutcome, id: string, now: int)
      requires Valid()
      modifies this
      ensures var text := TaskContent(task, ai);
        State() == if text.None? then old(State())
          else old(State()).(groups := GroupStore.PostBotMessage(old(groups), task.groupId, BotMessage(task.speaker, text.value, id, now, None)))
      ensures Valid()
    {
      var text := TaskContent(task, ai);
      if text.Some? {
        PostBotMessage(task.groupId, task.speaker, text.value, id, now, None);
      }
    }

    // ------------------------------------------------------------ friends

    /** `handleSendFriendRequest` (App.tsx:1208-1233); the random minutes are a parameter. */
    method SendFriendRequest(friendId: string, minutesPick: nat)
      requires Valid()
      modifies this
      ensures State() == old(State()).(friends := Friends.SendFriendRequest(old(friends), friendRequests, profile.id, friendId, minutesPick))
      ensures Valid()
    {
      SendFriendRequestSpec(friends, friendRequests, profile.id, friendId, minutesPick);
      friends := Friends.SendFriendRequest(friends, friendRequests, profile.id, friendId, minutesPick);
    }

    /** `handleAcceptFriendRequest` (App.tsx:1235-1253). */
    method AcceptFriendRequest(requestId: string, minutesPick: nat)
      requires Valid()
      modifies this
      ensures var (f, q) := AcceptRequest(old(friends), old(friendRequests), requestId, minutesPick);
        State() == old(State()).(friends := f, friendRequests := q)
      ensures Valid()
    {
      AcceptRequestSpec(friends, friendRequests, requestId, minutesPick);
      var (f, q) := AcceptRequest(friends, friendRequests, requestId, minutesPick);
      friends := f;
      friendRequests := q;
    }

    /** `handleRejectFriendRequest` (App.tsx:1255-1257). */
    method RejectFriendRequest(requestId: string)
      requires Valid()
      modifies this
      ensures State() == old(State()).(friendRequests := RejectRequest(old(friendRequests), requestId))
      ensures Valid()
    {
      RejectRequestSpec(friends, friendRequests, requestId);
      friendRequests := RejectRequest(friendRequests, requestId);
    }

    // ------------------------------------------------------------ study sessions

    /** `handleUpdateSessionStatus` (App.tsx:715-736). */
    method UpdateSessionStatus(date: string, sessionId: string, status: SessionStatus)
      requires Valid()
      modifies this
      ensures State() == old(State()).(savedPlans := SetSessionStatus(old(savedPlans), currentPlanId, date, sessionId, status))
      ensures Valid()
    {
      savedPlans := SetSessionStatus(savedPlans, currentPlanId, date, sessionId, status);
    }

    /** `handleStartSession` (App.tsx:804-807): the session opens and the user shows as studying its subject. */
    method StartSession(session: StudySession, now: int)
      requires Valid()
      modifies this
      ensures State() == old(State()).(activeSession := Some(session),
        groups := SetOwnStatus(old(groups), profile.id, LiveStatus(true, Some(session.subjectName), now)))
      ensures Valid()
    {
      activeSession := Some(session);
      UpdateLiveStatus(true, Some(session.subjectName), now);
    }

    /** `handleCloseSession` (App.tsx:809-812). */
    method CloseSession(now: int)
      requires Valid()
      modifies this
      ensures State() == old(State()).(activeSession := None, groups := SetOwnStatus(old(groups), profile.id, None))
      ensures Valid()
    {
      activeSession := None;
      UpdateLiveStatus(false, None, now);
    }

    /**
      `handleSessionComplete` (App.tsx:814-840): with a positive number of
      minutes and an open session, the minutes are added, the session is
      marked completed in the current plan (when the plan id and the session
      id are both set and non-empty, as the truthiness tests have it), and a history entry is appended; the user goes offline in
      every case. The open session stays open.
     */
    method SessionComplete(minutes: int, entryId: string, now: int)
      requires Valid()
      modifies this
      ensures var s := old(activeSession);
        var offline := SetOwnStatus(old(groups), profile.id, None);
        if minutes > 0 && s.Some? then
          State() == old(State()).(
            totalMinutesStudied := old(totalMinutesStudied) + minutes,
            savedPlans := if currentPlanId.Some? && currentPlanId.value != "" && s.value.id != "" then CompleteSession(old(savedPlans), currentPlanId, s.value.id) else old(savedPlans),
            history := old(history) + [HistoryEntry(s.value, minutes, entryId, now)],
            groups := offline)
        else State() == old(State()).(groups := offline)
      ensures Valid()
    {
      if minutes > 0 && activeSession.Some? {
        var s := activeSession.value;
        totalMinutesStudied := totalMinutesStudied + minutes;
        if currentPlanId.Some? && currentPlanId.value != "" && s.id != "" {
          savedPlans := CompleteSession(savedPlans, currentPlanId, s.id);
        }
        history := history + [HistoryEntry(s, minutes, entryId, now)];
      }
      UpdateLiveStatus(false, None, now);
    }
  }
}

/**
  The group store of App.tsx. Each event replaces `groups` with a mapped
  copy; the functions here are those copies, one per event, and the lemmas
  state what each keeps: the shape of every group, and that nothing outside
  the targeted group, message or member changes.
 */
module GroupStore {
  import opened Base
  import opened Seqs
  import opened Model
  import opened Reactions
  import opened Polls
  import opened Text

  /** `groups.map(g => g.id === id ? f(g) : g)` */
  function UpdateGroup(gs: seq<StudyGroup>, id: string, f: StudyGroup -> StudyGroup): seq<StudyGroup>
  {
    seq(|gs|, i requires 0 <= i < |gs| => if gs[i].id == id then f(gs[i]) else gs[i])
  }

  /** `messages.map(m => m.id === id ? f(m) : m)` */
  function UpdateMessages(ms: seq<Message>, id: string, f: Message -> Message): seq<Message>
  {
    seq(|ms|, i requires 0 <= i < |ms| => if ms[i].id == id then f(ms[i]) else ms[i])
  }

  // ---------------------------------------------------------------- shape

  predicate UniqueMemberIds(ms: seq<GroupMember>)
  {
    forall i, j :: 0 <= i < j < |ms| ==> ms[i].userId != ms[j].userId
  }

  predicate MessageValid(m: Message)
  {
    ReactionsValid(m.reactions) && NoDup(m.readBy)
  }

  /**
    What every group the application builds satisfies: member ids and poll ids
    are unique, every poll is well formed, and every message has a well-formed
    reaction list and no reader twice.
   */
  predicate GroupValid(g: StudyGroup)
  {
    UniqueMemberIds(g.members)
    && (forall i, j :: 0 <= i < j < |g.polls| ==> g.polls[i].id != g.polls[j].id)
    && (forall i :: 0 <= i < |g.polls| ==> PollOptionsValid(g.polls[i].options))
    && (forall i :: 0 <= i < |g.messages| ==> MessageValid(g.messages[i]))
  }

  predicate StoreValid(gs: seq<StudyGroup>)
  {
    forall i :: 0 <= i < |gs| ==> GroupValid(gs[i])
  }

  // ---------------------------------------------------------------- reactions

  /** `handleToggleReaction` (App.tsx:1047-1077) on the whole store. */
  function ToggleReactionIn(gs: seq<StudyGroup>, gid: string, mid: string, emoji: string, uid: string): seq<StudyGroup>
  {
    UpdateGroup(gs, gid, (g: StudyGroup) => g.(messages := UpdateMessages(g.messages, mid,
      (m: Message) => m.(reactions := ToggleReaction(m.reactions, emoji, uid)))))
  }

  /**
    A reaction toggle changes only the reaction lists of the messages with
    that id in the groups with that id, and keeps every group well formed.
   */
  lemma ToggleReactionInStore(gs: seq<StudyGroup>, gid: string, mid: string, emoji: string, uid: string)
    requires StoreValid(gs)
    ensures var r := ToggleReactionIn(gs, gid, mid, emoji, uid);
      StoreValid(r) && |r| == |gs|
      && forall i :: 0 <= i < |gs| ==>
        (gs[i].id != gid ==> r[i] == gs[i])
        && (gs[i].id == gid ==>
          r[i].members == gs[i].members && r[i].polls == gs[i].polls
          && |r[i].messages| == |gs[i].messages|
          && forall j :: 0 <= j < |gs[i].messages| ==>
            r[i].messages[j] == if gs[i].messages[j].id == mid
              then gs[i].messages[j].(reactions := ToggleReaction(gs[i].messages[j].reactions, emoji, uid))
              else gs[i].messages[j])
  {
    var r := ToggleReactionIn(gs, gid, mid, emoji, uid);
    forall i | 0 <= i < |gs| ensures GroupValid(r[i]) {
      if gs[i].id == gid {
        forall j | 0 <= j < |r[i].messages| ensures MessageValid(r[i].messages[j]) {
          assert MessageValid(gs[i].messages[j]);
          ToggleReactionValid(gs[i].messages[j].reactions, emoji, uid);
        }
      }
    }
  }

  // ---------------------------------------------------------------- polls

  /** `handleVotePoll` (App.tsx:1166-1186) on the whole store. */
  function VotePollIn(gs: seq<StudyGroup>, gid: string, pollId: string, optionId: string, uid: string): seq<StudyGroup>
  {
    UpdateGroup(gs, gid, (g: StudyGroup) => g.(polls := VotePolls(g.polls, pollId, optionId, uid)))
  }

  /**
    A vote changes only the options of the polls with that id in the groups
    with that id, and keeps every group well formed.
   */
  lemma VotePollInStore(gs: seq<StudyGroup>, gid: string, pollId: string, optionId: string, uid: string)
    requires StoreValid(gs)
    ensures var r := VotePollIn(gs, gid, pollId, optionId, uid);
      StoreValid(r) && |r| == |gs|
      && forall i :: 0 <= i < |gs| ==>
        (gs[i].id != gid ==> r[i] == gs[i])
        && (gs[i].id == gid ==>
          r[i].members == gs[i].members && r[i].messages == gs[i].messages
          && |r[i].polls| == |gs[i].polls|
          && forall j :: 0 <= j < |gs[i].polls| ==>
            r[i].polls[j] == if gs[i].polls[j].id == pollId
              then gs[i].polls[j].(options := VoteOptions(gs[i].polls[j].options, optionId, uid))
              else gs[i].polls[j])
  {
    var r := VotePollIn(gs, gid, pollId, optionId, uid);
    forall i | 0 <= i < |gs| ensures GroupValid(r[i]) {
      if gs[i].id == gid {
        forall j | 0 <= j < |r[i].polls| ensures PollOptionsValid(r[i].polls[j].options) {
          if gs[i].polls[j].id == pollId {
            VoteKeepsPollValid(gs[i].polls[j].options, optionId, uid);
          }
        }
      }
    }
  }

  // ---------------------------------------------------------------- read receipts

  /** The per-message step of `handleMarkMessagesRead`. */
  function MarkRead(ms: seq<Message>, ids: seq<string>, uid: string): seq<Message>
  {
    seq(|ms|, i requires 0 <= i < |ms| =>
      if ms[i].id in ids && uid !in ms[i].readBy then ms[i].(readBy := ms[i].readBy + [uid]) else ms[i])
  }

  /** `handleMarkMessagesRead` (App.tsx:1030-1045): an empty id list returns before touching the store. */
  function MarkReadIn(gs: seq<StudyGroup>, gid: string, ids: seq<string>, uid: string): seq<StudyGroup>
  {
    if |ids| == 0 then gs
    else UpdateGroup(gs, gid, (g: StudyGroup) => g.(messages := MarkRead(g.messages, ids, uid)))
  }

  /**
    Marking read with no ids is a no-op. Otherwise a listed message ends up
    read by the user, its readers list only ever grows by that one id (never
    twice, never losing anyone), and unlisted messages and other groups are
    untouched.
   */
  lemma MarkReadInStore(gs: seq<StudyGroup>, gid: string, ids: seq<string>, uid: string)
    requires StoreValid(gs)
    ensures |ids| == 0 ==> MarkReadIn(gs, gid, ids, uid) == gs
    ensures var r := MarkReadIn(gs, gid, ids, uid);
      StoreValid(r) && |r| == |gs|
      && forall i :: 0 <= i < |gs| ==>
        (gs[i].id != gid ==> r[i] == gs[i])
        && (gs[i].id == gid ==>
          r[i].members == gs[i].members && r[i].polls == gs[i].polls
          && |r[i].messages| == |gs[i].messages|
          && forall j :: 0 <= j < |gs[i].messages| ==>
            var m, m' := gs[i].messages[j], r[i].messages[j];
            m' == m.(readBy := m'.readBy)
            && (m'.readBy == m.readBy || (uid !in m.readBy && m'.readBy == m.readBy + [uid]))
            && (m.id in ids ==> uid in m'.readBy)
            && (m.id !in ids ==> m' == m))
  {
    var r := MarkReadIn(gs, gid, ids, uid);
    if |ids| > 0 {
      forall i | 0 <= i < |gs| ensures GroupValid(r[i]) {
        if gs[i].id == gid {
          forall j | 0 <= j < |r[i].messages| ensures MessageValid(r[i].messages[j]) {
            var m := gs[i].messages[j];
            assert MessageValid(m);
            if m.id in ids && uid !in m.readBy {
              AppendFresh(m.readBy, uid);
            }
          }
        }
      }
    }
  }

  // ---------------------------------------------------------------- messages

  /**
    `Math.min(3000, Math.max(1000, content.length * 40))`: the bot's typing
    time, 40 ms per UTF-16 code unit of the text, clamped to [1000, 3000].
   */
  function TypingDuration(content: string): (d: nat)
    ensures 1000 <= d <= 3000
    ensures var units := Utf16Length(content);
      (1000 <= units * 40 <= 3000 ==> d == units * 40)
      && (units * 40 < 1000 ==> d == 1000)
      && (units * 40 > 3000 ==> d == 3000)
    ensures Bmp(content) ==> d == Min(3000, Max(1000, |content| * 40))
  {
    Utf16LengthBmp(content);
    Min(3000, Max(1000, Utf16Length(content) * 40))
  }

  /** An emoji beyond U+FFFF counts twice: 13 of them type for 1040 ms, not 1000. */
  lemma EmojiCountsTwice()
    ensures TypingDuration("😀😀😀😀😀😀😀😀😀😀😀😀😀") == 1040
  {
    var s := "😀😀😀😀😀😀😀😀😀😀😀😀😀";
    assert |s| == 13 && forall i :: 0 <= i < |s| ==> s[i] == '😀';
    Utf16LengthAstral(s);
  }

  /** The message `insertBotMessage` posts: read by its author only, no reactions. */
  function BotMessage(bot: GroupMember, content: string, id: string, now: int, replyTo: Option<ReplyRef>): (m: Message)
    ensures MessageValid(m) && m.readBy == [bot.userId] && m.userId == bot.userId && m.content == content
  {
    Message(id, bot.userId, bot.name, bot.avatar, content, now, [], [bot.userId], false, None, replyTo)
  }

  /** The message `handleSendMessage` posts for the user. */
  function UserMessage(user: UserProfile, content: string, id: string, now: int, replyTo: Option<ReplyRef>): (m: Message)
    ensures MessageValid(m) && m.readBy == [user.id] && m.userId == user.id && m.content == content
  {
    Message(id, user.id, user.name, user.avatar, content, now, [], [user.id], false, None, replyTo)
  }

  /** The last step of `insertBotMessage` (App.tsx:336-349): append, then keep the last 100. */
  function PostBotMessage(gs: seq<StudyGroup>, gid: string, m: Message): seq<StudyGroup>
  {
    UpdateGroup(gs, gid, (g: StudyGroup) => g.(messages := TakeLast(g.messages + [m], 100)))
  }

  /** `handleSendMessage` (App.tsx:961-977) and the other user-side posts: append, no cap. */
  function PostMessage(gs: seq<StudyGroup>, gid: string, m: Message): seq<StudyGroup>
  {
    UpdateGroup(gs, gid, (g: StudyGroup) => g.(messages := g.messages + [m]))
  }

  /**
    A bot post reaches the groups with that id only; there the new message is
    last, the older messages keep their order, and at most 100 remain.
   */
  lemma PostBotMessageInStore(gs: seq<StudyGroup>, gid: string, m: Message)
    requires StoreValid(gs) && MessageValid(m)
    ensures var r := PostBotMessage(gs, gid, m);
      StoreValid(r) && |r| == |gs|
      && forall i :: 0 <= i < |gs| ==>
        (gs[i].id != gid ==> r[i] == gs[i])
        && (gs[i].id == gid ==>
          r[i] == gs[i].(messages := r[i].messages)
          && |r[i].messages| == Min(|gs[i].messages| + 1, 100)
          && r[i].messages[|r[i].messages| - 1] == m
          && r[i].messages == (gs[i].messages + [m])[|gs[i].messages| + 1 - |r[i].messages|..])
  {
    var r := PostBotMessage(gs, gid, m);
    forall i | 0 <= i < |gs| ensures GroupValid(r[i]) {
      if gs[i].id == gid {
        var all := gs[i].messages + [m];
        forall j | 0 <= j < |r[i].messages| ensures MessageValid(r[i].messages[j]) {
          var k := j + |all| - |r[i].messages|;
          assert r[i].messages[j] == all[k];
          if k < |gs[i].messages| {
            assert all[k] == gs[i].messages[k];
          }
        }
      }
    }
  }

  /** A user post grows the target group's history by exactly one message, whatever its length. */
  lemma PostMessageUncapped(gs: seq<StudyGroup>, gid: string, m: Message)
    requires StoreValid(gs) && MessageValid(m)
    ensures var r := PostMessage(gs, gid, m);
      StoreValid(r) && |r| == |gs|
      && forall i :: 0 <= i < |gs| ==>
        (gs[i].id != gid ==> r[i] == gs[i])
        && (gs[i].id == gid ==> r[i] == gs[i].(messages := gs[i].messages + [m]) && |r[i].messages| == |gs[i].messages| + 1)
  {
    var r := PostMessage(gs, gid, m);
    forall i | 0 <= i < |gs| ensures GroupValid(r[i]) {
      if gs[i].id == gid {
        forall j | 0 <= j < |r[i].messages| ensures MessageValid(r[i].messages[j]) {
          if j < |gs[i].messages| {
            assert r[i].messages[j] == gs[i].messages[j];
          }
        }
      }
    }
  }

  // ---------------------------------------------------------------- members

  /** The idempotent step of `handleJoinGroup` and `handleAddMemberToGroup`. */
  function AddMemberIfAbsent(g: StudyGroup, m: GroupMember): StudyGroup
  {
    if HasMember(g, m.userId) then g else g.(members := g.members + [m])
  }

  /** `handleJoinGroup` (App.tsx:866-883) and `handleAddMemberToGroup` (App.tsx:927-942). */
  function JoinIn(gs: seq<StudyGroup>, gid: string, m: GroupMember): seq<StudyGroup>
  {
    UpdateGroup(gs, gid, (g: StudyGroup) => AddMemberIfAbsent(g, m))
  }

  /** The member record `handleJoinGroup` adds for the user. */
  function JoiningUser(user: UserProfile, now: int): GroupMember
  {
    GroupMember(user.id, user.name, user.avatar, Member, now, None)
  }

  /** The member record `handleAddMemberToGroup` adds for a friend. */
  function InvitedFriend(friend: LeaderboardEntry, now: int): GroupMember
  {
    GroupMember(friend.id, friend.name, friend.avatar, Member, now, None)
  }

  /**
    Joining makes the id a member of the targeted groups, adds nobody already
    there, keeps member ids unique, and joining again changes nothing.
   */
  lemma JoinInStore(gs: seq<StudyGroup>, gid: string, m: GroupMember)
    requires StoreValid(gs)
    ensures var r := JoinIn(gs, gid, m);
      StoreValid(r) && |r| == |gs|
      && JoinIn(r, gid, m) == r
      && forall i :: 0 <= i < |gs| ==>
        (gs[i].id != gid ==> r[i] == gs[i])
        && (gs[i].id == gid ==>
          HasMember(r[i], m.userId)
          && r[i] == if HasMember(gs[i], m.userId) then gs[i] else gs[i].(members := gs[i].members + [m]))
  {
    var r := JoinIn(gs, gid, m);
    forall i | 0 <= i < |gs| ensures GroupValid(r[i]) && (gs[i].id == gid ==> HasMember(r[i], m.userId)) {
      if gs[i].id == gid && !HasMember(gs[i], m.userId) {
        assert r[i].members[|gs[i].members|].userId == m.userId;
      }
    }
    assert forall i :: 0 <= i < |r| ==> r[i].id == gs[i].id;
  }

  /** `updateLiveStatus` (App.tsx:778-802): the user's own member record in every group that has it. */
  function SetOwnStatus(gs: seq<StudyGroup>, uid: string, status: Option<ActiveStatus>): seq<StudyGroup>
  {
    seq(|gs|, i requires 0 <= i < |gs| =>
      if HasMember(gs[i], uid) then
        gs[i].(members := seq(|gs[i].members|, j requires 0 <= j < |gs[i].members| =>
          if gs[i].members[j].userId == uid then gs[i].members[j].(activeStatus := status) else gs[i].members[j]))
      else gs[i])
  }

  /** The status `updateLiveStatus` writes: online with the topic, or none at all when going offline. */
  function LiveStatus(isOnline: bool, focusTopic: Option<string>, now: int): Option<ActiveStatus>
  {
    if isOnline then Some(ActiveStatus(true, focusTopic, Some(now))) else None
  }

  /** Only the user's own member records change, and only in their status. */
  lemma SetOwnStatusInStore(gs: seq<StudyGroup>, uid: string, status: Option<ActiveStatus>)
    requires StoreValid(gs)
    ensures var r := SetOwnStatus(gs, uid, status);
      StoreValid(r) && |r| == |gs|
      && forall i :: 0 <= i < |gs| ==>
        r[i].messages == gs[i].messages && r[i].polls == gs[i].polls
        && |r[i].members| == |gs[i].members|
        && forall j :: 0 <= j < |gs[i].members| ==>
          r[i].members[j] == if gs[i].members[j].userId == uid
            then gs[i].members[j].(activeStatus := status) else gs[i].members[j]
  {
    var r := SetOwnStatus(gs, uid, status);
    forall i | 0 <= i < |gs| ensures GroupValid(r[i]) {
      assert forall j :: 0 <= j < |r[i].members| ==> r[i].members[j].userId == gs[i].members[j].userId;
    }
    forall i, j | 0 <= i < |gs| && 0 <= j < |gs[i].members| && gs[i].members[j].userId == uid
      ensures HasMember(gs[i], uid)
    {
    }
  }

  // ---------------------------------------------------------------- typing

  /** `prev[groupId] || []` */
  function Typers(t: map<string, seq<string>>, gid: string): seq<string>
  {
    if gid in t then t[gid] else []
  }

  /** `simulateBotTyping` start (App.tsx:291-294): appends the bot's name with no presence check. */
  function BotStartsTyping(t: map<string, seq<string>>, gid: string, name: string): map<string, seq<string>>
  {
    t[gid := Typers(t, gid) + [name]]
  }

  /** The removal in `simulateBotTyping`, the typing timeout and `handleSendMessage`: filter that name out. */
  function StopTyping(t: map<string, seq<string>>, gid: string, name: string): map<string, seq<string>>
  {
    t[gid := Without(Typers(t, gid), name)]
  }

  /** `handleUserTyping` (App.tsx:305-310): adds the user's name only when absent. */
  function UserStartsTyping(t: map<string, seq<string>>, gid: string, name: string): map<string, seq<string>>
  {
    if name in Typers(t, gid) then t else t[gid := Typers(t, gid) + [name]]
  }

  /**
    The user shows up exactly once in the group's typing list (when the list
    had no duplicates), a second keystroke changes nothing, and other groups'
    lists are untouched.
   */
  lemma UserTypingOnce(t: map<string, seq<string>>, gid: string, name: string)
    ensures var r := UserStartsTyping(t, gid, name);
      name in Typers(r, gid)
      && (NoDup(Typers(t, gid)) ==> NoDup(Typers(r, gid)) && multiset(Typers(r, gid))[name] == 1)
      && UserStartsTyping(r, gid, name) == r
      && forall g :: g != gid ==> Typers(r, g) == Typers(t, g)
  {
    var r := UserStartsTyping(t, gid, name);
    if NoDup(Typers(t, gid)) {
      if name !in Typers(t, gid) {
        AppendFresh(Typers(t, gid), name);
      }
      CountOnce(Typers(r, gid), name);
    }
  }

  /**
    Stopping removes every copy of that name from the group's list and keeps
    every other typer with the same count, in order; other groups are untouched.
   */
  lemma StopTypingRemovesOnlyName(t: map<string, seq<string>>, gid: string, name: string)
    ensures var r := StopTyping(t, gid, name);
      name !in Typers(r, gid)
      && (forall n :: n != name ==> multiset(Typers(r, gid))[n] == multiset(Typers(t, gid))[n])
      && forall g :: g != gid ==> Typers(r, g) == Typers(t, g)
  {
  }

  /** The same bot starting to type twice is listed twice: the bot path has no presence check. */
  lemma BotTypingCanRepeat(t: map<string, seq<string>>, gid: string, name: string)
    requires name !in Typers(t, gid)
    ensures multiset(Typers(BotStartsTyping(BotStartsTyping(t, gid, name), gid, name), gid))[name] == 2
    ensures Typers(StopTyping(BotStartsTyping(BotStartsTyping(t, gid, name), gid, name), gid, name), gid) == Typers(t, gid)
  {
    var before := Typers(t, gid);
    var once := BotStartsTyping(t, gid, name);
    assert Typers(once, gid) == before + [name];
    var twice := BotStartsTyping(once, gid, name);
    assert Typers(twice, gid) == (before + [name]) + [name];
    assert Without([name], name) == [] by { assert [name][1..] == []; }
    WithoutConcat(before, [name], name);
    WithoutConcat(before + [name], [name], name);
  }
}

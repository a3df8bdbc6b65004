# MIND-MAP study planner, modelled in Dafny

MIND-MAP is a single-page study planner. A student enters subjects and chapters,
receives a day-by-day study plan, runs a Pomodoro focus timer on each session,
and studies alongside others in groups. A group has a chat with reactions, polls,
read receipts and typing indicators, a live panel showing who is studying what,
an activity feed and an invite list. A leaderboard ranks the student against
world, regional and friend entries. Simulated bots keep the groups busy: they
come online and go offline, join groups, vote, start polls, react, and reply to
the user.

This project models the logic at the core of the planner and proves properties
of it:

- **Application state.** `App.StudyApp` holds the state hooks of the application
  component. Each event handler is a method with a frame. Its postcondition gives
  the new state through the store functions of the other modules, and it keeps the
  class invariant `Valid`, which says:
  - in every group, member ids and poll ids are unique;
  - no reaction, vote or read receipt is recorded twice;
  - no friend is listed twice, no two pending requests come from one sender, and
    no pending request comes from a friend;
  - the minute counter is non-negative.
- **Group store.** `GroupStore` holds the store transitions, with one "nothing else
  changes" lemma per transition. It builds on these modules:
  - `Reactions`: toggling a reaction;
  - `Polls`: exclusive voting and bot voting;
  - `Replies`: the keyword-priority canned replies and the choice of which bot
    answers;
  - `Simulation`: the presence tick and the chat-simulation tick bodies, with the
    random draws as parameters;
  - `Friends`: friend requests;
  - `Plans`: session status updates in saved plans.
- **Focus timer.** `Timer.FocusTimer` is the timer's four-field state machine. Its
  methods are proved against step functions on `TimerState`.
- **Calendar export.** `Calendar.GenerateIcs` is the iCalendar (RFC 5545) export
  loop, proved equal to a functional layout of the events. The lemmas cover the
  09:00 start, the 15-minute breaks, the stamp format, and one VEVENT
  (RFC 5545 section 3.6.1) per session in schedule order.
- **Service helpers.** `Gemini` holds the pure helpers of the service layer:
  - the missed/completed partition used for rescheduling;
  - the defaults applied to a parsed syllabus;
  - the chat-summary transcript.
- **Leaderboard assembly.** `Leaderboard` covers:
  - merging world and friend entries and placing the user;
  - category filters;
  - the stable sort and the ranks;
  - the bounded rank history;
  - the friend-id form.
- **Group views.** `GroupsView` holds the derived views of the groups screen:
  - the two tabs and the activity feed;
  - poll cards and read receipts;
  - the unread filter;
  - the seek parser;
  - the invite list and the poll form.
- **Subject card.** `SubjectCard` covers chapter editing.
- **Profile dialog.** `Profile` covers the avatar-seed extraction and the save
  round trip.

Modelling conventions:

- Random draws (`Math.random`) are parameters:
  - a fraction is a `real` and is compared with the source's constants;
  - `Math.floor(Math.random() * n)` is `pick % n` on a `nat`;
  - random ids are strings passed in.
- Timestamps are integers, and the clock is a parameter.
- An optional array that the source reads as `x || []` is an empty sequence.
- `Array.prototype.sort` with a numeric comparator is the stable `Seqs.SortDesc` on
  sequences.

Where the system's documented behaviour and its code disagree, the model
follows the code:

- **Message cap.** Only bot insertions keep the last 100 messages. Messages the
  user sends, poll-start messages and join messages are appended uncapped
  (App.tsx:961-977, 484-495, 393-401).
- **Bot typing.** A bot that starts typing is appended to the typing list with no
  duplicate check (App.tsx:291-294). Only the user's own name is added once.
- **Simulated reactions.** A simulated reaction only adds the reactor. It never
  toggles an existing reaction off (App.tsx:516-542).
- **Greeting first.** Greetings are matched first and by substring, so "hey is
  anyone stuck" gets the welcome line rather than the help line (App.tsx:38-43).
- **Untrimmed id.** The leaderboard's friend-id form checks the untrimmed input but
  sends the trimmed id. See Findings.

## Model

| member | source | states |
|---|---|---|
| `App.GroupIndex` | App.tsx:945 | the index of the first group with the id, or -1 exactly when no group has it |
| `App.FindMessage` | App.tsx:950 | a message with the id that sits at a position no earlier message with the id precedes, so the first; none exactly when no message has it |
| `App.QuotedMessage` | App.tsx:948-958 | a quote is made exactly when a non-empty reply id names a message of the group, and it copies the id, author name and text of the first message with that id |
| `App.PlanReply` | App.tsx:986-1026 | a reply is scheduled exactly in a public group with a member other than the user; the replier is such a member, and the reply quotes the user's message as "latest" exactly when the user was quoting |
| `App.StudyApp.constructor` | App.tsx:129-173 | the state on mount is empty and satisfies the invariant |
| `App.StudyApp.ToggleReaction` | App.tsx:1047-1077 | only `groups` changes, to the toggled store, and the invariant is kept |
| `App.StudyApp.VotePoll` | App.tsx:1166-1186 | only `groups` changes, to the voted store, and the invariant is kept |
| `App.StudyApp.MarkMessagesRead` | App.tsx:1030-1045 | only `groups` changes, to the store with those messages read; an empty id list changes nothing |
| `App.StudyApp.UserTyping` | App.tsx:304-310 | only the typing lists change, by adding the user's name unless already there |
| `App.StudyApp.UserTypingTimeout` | App.tsx:318-323 | only the typing lists change, by removing the user's name from that group's list |
| `App.StudyApp.BotStartsTyping` | App.tsx:290-294 | only the typing lists change, by appending the bot's name |
| `App.StudyApp.BotStopsTyping` | App.tsx:296-301 | only the typing lists change, by removing the bot's name |
| `App.StudyApp.PostBotMessage` | App.tsx:336-349 | only `groups` changes, to the store with the bot message appended and capped at 100 |
| `App.StudyApp.SendMessage` | App.tsx:944-1028 | an unknown group changes nothing and schedules nothing; otherwise the user's message (with its quote) is appended uncapped, the user stops typing, and the returned reply is never from the user |
| `App.StudyApp.JoinGroup` | App.tsx:866-883 | only `groups` changes, by the idempotent join of the user |
| `App.StudyApp.AddMemberToGroup` | App.tsx:927-942 | only `groups` changes, by the idempotent join of the friend |
| `App.StudyApp.UpdateLiveStatus` | App.tsx:778-802 | only the user's own member records change, to online with the topic or to no status |
| `App.StudyApp.PresenceTick` | App.tsx:252-277 | only `groups` changes, by the presence tick, and the invariant is kept |
| `App.StudyApp.ChatTick` | App.tsx:360-555 | the invariant's unique poll ids and fresh drawn ids mean the tick never throws; requests and groups change by their tick functions, one task per group is returned, and the invariant is kept |
| `App.StudyApp.DeliverTask` | App.tsx:454-503 | a scheduled task with text posts it as a bot message; one without text changes nothing |
| `App.StudyApp.SendFriendRequest` | App.tsx:1208-1233 | only `friends` changes, as the send function says, and friends and requests stay disjoint |
| `App.StudyApp.AcceptFriendRequest` | App.tsx:1235-1253 | friends and requests change as the accept function says, and stay disjoint |
| `App.StudyApp.RejectFriendRequest` | App.tsx:1255-1257 | only the requests change, losing that id |
| `App.StudyApp.UpdateSessionStatus` | App.tsx:715-736 | only the saved plans change, by the status update of the current plan |
| `App.StudyApp.StartSession` | App.tsx:804-807 | the session becomes active and the user shows as studying its subject |
| `App.StudyApp.CloseSession` | App.tsx:809-812 | no active session, and the user's status is cleared |
| `App.StudyApp.SessionComplete` | App.tsx:814-840 | with positive minutes and an open session: minutes added, the session completed in the current plan when the plan id and the session id are both set and non-empty, one history entry appended; the user goes offline in every case |
| `GroupStore.PostBotMessage` | App.tsx:336-349 | the bot's message appended to the target group and the list cut to its last 100; what it keeps is proved in `GroupStore.PostBotMessageInStore` |
| `GroupStore.PostMessage` | App.tsx:961-977 | the user's message appended to the target group with no cap; see `GroupStore.PostMessageUncapped` |
| `GroupStore.MarkRead` | App.tsx:1034-1042 | each listed message the user has not read gains the user's id at the end of `readBy`; see `GroupStore.MarkReadInStore` |
| `GroupStore.JoinIn` | App.tsx:866-883 | the member appended to the target group unless a member with that id is present; see `GroupStore.JoinInStore` |
| `GroupStore.ToggleReactionInStore` | App.tsx:1047-1077 | only the reactions of messages with that id in groups with that id change, by the toggle; the store stays well formed |
| `GroupStore.ToggleReactionIn` | App.tsx:1047-1077 | the store update of a reaction toggle; stated by `GroupStore.ToggleReactionInStore` |
| `GroupStore.VotePollInStore` | App.tsx:1166-1186 | only the options of polls with that id in groups with that id change, by the exclusive vote; the store stays well formed |
| `GroupStore.VotePollIn` | App.tsx:1166-1186 | the store update of a vote; stated by `GroupStore.VotePollInStore` |
| `GroupStore.MarkReadInStore` | App.tsx:1030-1045 | no ids is a no-op; a listed message ends up read by the user, readers only ever gain that one id, and nothing unlisted changes |
| `GroupStore.MarkReadIn` | App.tsx:1030-1045 | the store update of marking messages read; stated by `GroupStore.MarkReadInStore` |
| `GroupStore.TypingDuration` | App.tsx:328 | the typing time is 40 ms per UTF-16 code unit of the text (the unit `length` counts), clamped to [1000, 3000]; on text without astral characters that is 40 ms per character |
| `GroupStore.EmojiCountsTwice` | App.tsx:328 | thirteen emoji count as 26 units, so the bot types for 1040 ms, not the 1000 ms floor |
| `GroupStore.BotMessage` | App.tsx:339-348 | a bot message is well formed and read by its author only |
| `GroupStore.UserMessage` | App.tsx:963-973 | a user message is well formed and read by the user only |
| `GroupStore.PostBotMessageInStore` | App.tsx:336-349 | only the target group changes; its new message is last, older ones keep their order, and at most 100 remain |
| `GroupStore.PostMessageUncapped` | App.tsx:961-977 | a user post grows the target group by exactly one message, whatever its length |
| `GroupStore.JoinInStore` | App.tsx:866-883 | joining makes the id a member of the target, adds nobody already present, keeps ids unique, and is idempotent |
| `GroupStore.SetOwnStatusInStore` | App.tsx:778-802 | only the user's own member records change, in their status only |
| `GroupStore.SetOwnStatus` | App.tsx:778-802 | the user's status written into every group they belong to; stated by `GroupStore.SetOwnStatusInStore` |
| `GroupStore.UserTypingOnce` | App.tsx:304-310 | the user's name is in the list exactly once, a second keystroke changes nothing, other groups are untouched |
| `GroupStore.StopTypingRemovesOnlyName` | App.tsx:319-321 | the name is gone; every other typer keeps its count; other groups are untouched |
| `GroupStore.BotTypingCanRepeat` | App.tsx:291-294 | a bot started twice is listed twice, and one stop clears both |
| `GroupStore.BotStartsTyping` | App.tsx:291-294 | appends the bot's name to the group's typers even when already there; stated by `GroupStore.BotTypingCanRepeat` |
| `GroupStore.StopTyping` | App.tsx:319-322 | removes every copy of the name from the group's typers; stated by `GroupStore.StopTypingRemovesOnlyName` |
| `GroupStore.UserStartsTyping` | App.tsx:305-310 | adds the user's name unless already listed; stated by `GroupStore.UserTypingOnce` |
| `Reactions.ToggleReaction` | App.tsx:1052-1073 | the user's reaction toggled: removed from the emoji's entry (dropping an emptied entry) or appended, a new entry at the end when the emoji is new; see `Reactions.ToggleReactionFlips` and `Reactions.ToggleTwiceRestores` |
| `Reactions.AddReaction` | App.tsx:529-537 | the simulated reaction: the reactor appended to the emoji's entry when absent, a new entry when the emoji is new; see `Reactions.AddReactionAdds` |
| `Reactions.FindReaction` | App.tsx:1053 | the index of the first entry with the emoji, or -1 when none has it |
| `Reactions.ToggleReactionFlips` | App.tsx:1052-1073 | a user who had reacted is removed, others keeping their order; a user who had not is appended; other emojis unchanged |
| `Reactions.ToggleReactionValid` | App.tsx:1052-1073 | toggling keeps emojis unique, reactor lists duplicate-free and no entry empty |
| `Reactions.ToggleTwiceRestores` | App.tsx:1052-1073 | toggling twice from "not reacted" restores the list exactly |
| `Reactions.AddReactionAdds` | App.tsx:529-537 | the simulated reaction adds the reactor once, changes no other emoji, and is idempotent |
| `Polls.VoteOptions` | App.tsx:1169-1181 | one entry per option; the user filtered out of every option and appended to the chosen one; see `Polls.VoteIsExclusive` |
| `Polls.VoteIsExclusive` | App.tsx:1169-1181 | after a vote the user is in the chosen option exactly once and in no other; other users' votes and option texts are unchanged |
| `Polls.VoteKeepsPollValid` | App.tsx:1169-1181 | voting keeps every option's votes duplicate-free and a user in one option at most; the user has voted exactly when the option exists |
| `Polls.BotVoteKeepsPollValid` | App.tsx:420-436 | a bot vote by a voter with no vote keeps the poll well formed and puts the voter in the chosen option only |
| `Polls.TotalAfterVote` | App.tsx:1171-1177 | the total grows by one when the user had not voted, and stays the same when the vote only moved |
| `Polls.VoteLengths` | App.tsx:1171-1177 | each option loses the user's old votes and the chosen one gains one |
| `Replies.ContextualReply` | App.tsx:32-118 | the canned reply to a message, by keyword rules and then by the group's name; see `Replies.ContextualReplyPriority` |
| `Replies.ContextualReplyPriority` | App.tsx:32-118 | a given message gets the first keyword rule it matches (greeting, help, tired, thanks, laugh); otherwise the group's chatter pool |
| `Replies.PoolCategories` | App.tsx:56-116 | the pool is the first matching name category (math, science, humanities, code), else the generic pool |
| `Replies.ContextualReplyNonEmpty` | App.tsx:32-118 | every canned reply is non-empty |
| `Replies.HeyStuckIsWelcomed` | App.tsx:38-43 | "hey is anyone stuck on derivatives" gets the welcome line, not the help line |
| `Replies.HiAnywhereIsWelcomed` | App.tsx:38 | "hi" anywhere in the message selects the welcome line |
| `Replies.ReplyText` | App.tsx:1002-1011 | the service's non-empty answer, else the canned reply to the message; never empty |
| `Replies.OthersThan` | App.tsx:988 | exactly the members other than the user, each as often as in the group; the order is the group's, as `Replies.NamedAmongOthers` uses |
| `Replies.FirstNamed` | App.tsx:995 | the first member with that name, or none exactly when no member has it |
| `Replies.NamedAmongOthers` | App.tsx:988-995 | the name looked up among the other members finds the first member of the whole group, in its order, that is not the user and has the name; none exactly when no such member exists |
| `Replies.FoundAmongOthers` | App.tsx:988-995 | the member the lookup finds is not the user, has the name, and no earlier member of the group is another member with that name |
| `Replies.ChooseReplier` | App.tsx:987-1000 | none without another member; else the first other member, in the group's order, named as the quoted author, or a drawn member other than the user; see `Replies.ChooseReplierSpec` |
| `Replies.ChooseReplierSpec` | App.tsx:987-1000 | a replier exists exactly when another member does and is never the user; when some other member has the quoted author's name, it is the first such member in the group's order |
| `Simulation.PresenceTick` | App.tsx:252-277 | every group whose roll exceeds 0.4 has each member's presence redrawn; see `Simulation.PresenceTickSpec` |
| `Simulation.PresenceMemberSpec` | App.tsx:254-279 | only the status changes, the local user's not at all; offline means no status; a member staying online keeps focus and start time |
| `Simulation.PresenceMember` | App.tsx:254-279 | one member's presence step from one draw; its properties are `Simulation.PresenceMemberSpec` |
| `Simulation.PresenceGroup` | App.tsx:252-281 | a group whose roll is above 0.4 has every member stepped, another is kept; stated by `Simulation.PresenceTickSpec` |
| `Simulation.PresenceTickSpec` | App.tsx:252-277 | the tick changes member statuses only, never the local user's record, and keeps the store well formed |
| `Simulation.MockFriendIdShape` | App.tsx:364 | a simulated sender id is "MIND-" and a number from 1000 to 9999 |
| `Simulation.FriendRequestTick` | App.tsx:362-382 | with a roll below 0.05 and fewer than five pending, a request from a new sender put in front; see `Simulation.FriendRequestTickSpec` |
| `Simulation.FriendRequestTickSpec` | App.tsx:362-382 | never more than five pending, no duplicate sender, no friend as sender, at most one new request in front |
| `Simulation.TaskContent` | App.tsx:454-503 | topic and tip tasks post only a non-empty answer; a canned task posts the group's chatter; no task posts nothing |
| `Simulation.TaskDelay` | App.tsx:457-502 | 1000 ms for a topic answer, 1500 ms for a tip, 2000 ms for canned chatter |
| `Simulation.ActivePolls` | App.tsx:414 | exactly the active polls |
| `Simulation.ReactToSpec` | App.tsx:529-537 | only the reactions of messages with that id change, and messages stay well formed |
| `Simulation.ReactTo` | App.tsx:529-537 | adds the reaction to every message with the id; its properties are `Simulation.ReactToSpec` |
| `Simulation.BotVote` | App.tsx:412-436 | the bot vote as the code has it: no active poll or a high roll continues the tick; a voter who has already voted continues; a drawn poll without options returns the group (throwing only when another poll with that id has options); otherwise the voter is appended to the drawn option |
| `Simulation.DrawnPoll` | App.tsx:412-416 | a poll is drawn exactly when the roll is below 0.3 and some poll is active, and it is an active poll of the group |
| `Simulation.BotVoteOnEmptyPoll` | App.tsx:418-436 | on a drawn poll without options the group comes back unchanged, unless a poll with the same id has options, where the code reads an undefined option and throws |
| `Simulation.BotVoteSpec` | App.tsx:412-436 | a bot vote on a well-formed group never throws; when it ends the tick, only the polls change, the group stays well formed, and the total grows by one, except on a drawn poll without options, which leaves the group as it was |
| `Simulation.BotVotePollsSpec` | App.tsx:420-436 | a new voter's bot vote keeps the polls well formed and adds one vote in all |
| `Simulation.ChatStep` | App.tsx:439-513 | the bots' chat step: with chance 0.15, or whenever the roll is above 0 after the user's message, a drawn bot schedules a topic or tip task, starts a template poll whose question is new, or schedules a canned reply; see `Simulation.PollStartKeepsValid` and `Simulation.ChatStepTask` |
| `Simulation.ReactionStep` | App.tsx:516-542 | with chance 0.3 a drawn bot other than the author adds a drawn emoji to one of the last eight messages; see `Simulation.ReactionStepSpec` |
| `Simulation.ChatTickGroup` | App.tsx:384-546 | one group's tick: private groups untouched, a possible new member, else the bots' turn; see `Simulation.ChatTickGroupSpec` |
| `Simulation.ChatTick` | App.tsx:383-542 | every group's tick inside one `setGroups` updater, none when one throws (a render error in the app); `Simulation.ChatTickSpec` shows that a well-formed store with fresh ids never throws |
| `Simulation.ChatTickGroupSpec` | App.tsx:384-546 | a group's tick never throws on a well-formed group with fresh ids, keeps the group well formed, and leaves a private group untouched |
| `Simulation.BotTurnSpec` | App.tsx:405-545 | on a well-formed group with fresh ids the bots' turn never throws and keeps what a tick must keep |
| `Simulation.BotTurn` | App.tsx:405-545 | the bots' turn in one group: a poll vote, or else a chat step then a reaction step; its properties are `Simulation.BotTurnSpec` |
| `Simulation.JoinKeepsValid` | App.tsx:388-405 | a generated member with a new id and its join message keep the group well formed |
| `Simulation.GeneratedMember` | App.tsx:19-30 | a member with a drawn name and letter, online on "General Review"; `Simulation.ChatTickGroupSpec` shows, through `Simulation.JoinKeepsValid`, that adding it keeps the group well formed |
| `Simulation.JoinMessage` | App.tsx:393-401 | the newcomer's greeting naming the group's first word, read by the newcomer; `Simulation.ChatTickGroupSpec` shows, through `Simulation.JoinKeepsValid`, that posting it keeps the group well formed |
| `Simulation.PollStartKeepsValid` | App.tsx:470-497 | a started poll keeps the group well formed and adds one message after the old ones |
| `Simulation.ReactionStepSpec` | App.tsx:506-542 | the reaction step changes reactions of existing messages only |
| `Simulation.ChatStepTask` | App.tsx:439-503 | a scheduled task's speaker is a group member other than the user |
| `Simulation.ChatTickSpec` | App.tsx:384-546 | on a well-formed store with fresh ids the tick never throws, keeps the store well formed, returns one task per group, and leaves private groups untouched |
| `Friends.Prefix4` | App.tsx:1217 | `substring(0, 4)`: the longest prefix of at most four UTF-16 code units that does not split a character; on text without astral characters, the first four characters or all when fewer |
| `Friends.SendFriendRequest` | App.tsx:1208-1233 | a new friend with the id appended unless it is the user's own, a friend's or a pending sender's; see `Friends.SendFriendRequestSpec` |
| `Friends.SendFriendRequestSpec` | App.tsx:1208-1233 | own id, existing friend or pending sender changes nothing; otherwise one friend with that id is appended with minutes below 500 |
| `Friends.NewFriendById` | App.tsx:1217-1229 | the entry for a friend added by id: named "Friend " and the id's first four UTF-16 units, minutes below 500; its use is stated by `Friends.SendFriendRequestSpec` |
| `Friends.FindRequest` | App.tsx:1236 | the first request with the id, or none exactly when no request has it |
| `Friends.DropRequest` | App.tsx:1252 | exactly the requests with another id |
| `Friends.DropRequestKeepsSenders` | App.tsx:1252 | dropping keeps senders distinct |
| `Friends.AcceptRequest` | App.tsx:1235-1253 | a known request's sender appended as a friend and its requests dropped; see `Friends.AcceptRequestSpec` |
| `Friends.RejectRequest` | App.tsx:1255-1257 | the requests with the id dropped; see `Friends.RejectRequestSpec` |
| `Friends.AcceptRequestSpec` | App.tsx:1235-1253 | a known request's sender becomes a friend, appended once; requests with the id go; an unknown id changes nothing |
| `Friends.FriendFromRequest` | App.tsx:1239-1249 | the entry for an accepted request's sender, with their id, name, avatar and region; its use is stated by `Friends.AcceptRequestSpec` |
| `Friends.RejectRequestSpec` | App.tsx:1255-1257 | requests with the id go, the rest stay, lists stay disjoint |
| `Plans.SetSessionStatus` | App.tsx:715-736 | the status set on the sessions with the id on the day with the date, in the current plan; see `Plans.SetSessionStatusSpec` |
| `Plans.CompleteSession` | App.tsx:818-828 | the sessions with the id completed on every day of the current plan; see `Plans.CompleteSessionSpec` |
| `Plans.SetSessionStatusSpec` | App.tsx:715-736 | only the current plan changes, and in it only the sessions with that id on days with that date take the status |
| `Plans.CompleteSessionSpec` | App.tsx:818-828 | only the current plan changes, and in it every session with that id on any day is completed |
| `Plans.MarkedSessionsAreRescheduled` | App.tsx:715-736 | a session marked missed is picked up by the reschedule partition with its date; one marked completed is reported done |
| `Timer.StepsKeepValid` | components/FocusTimer.tsx:29-60 | every step keeps the countdown within its mode, time left while running, and whole focus runs logged |
| `Timer.TickLogs` | components/FocusTimer.tsx:30-40 | a tick decrements a running countdown by one, and logs 25 minutes only when a focus countdown reaches zero |
| `Timer.RunToZero` | components/FocusTimer.tsx:29-47 | a running countdown ticked to zero stops, logging 25 minutes in focus mode and nothing in break mode |
| `Timer.PausedStays` | components/FocusTimer.tsx:30 | a paused timer never moves |
| `Timer.FullFocusRun` | components/FocusTimer.tsx:13-47 | from mount, start and 1500 ticks log exactly 25 minutes |
| `Timer.ToggleAtZeroLogsAgain` | components/FocusTimer.tsx:34-49 | pressing play at zero in focus mode logs another 25 minutes and stays paused |
| `Timer.FormatTime` | components/FocusTimer.tsx:67-71 | below 100 minutes the face has five characters with ':' in the middle, and its two halves read back as the minutes and the seconds left over |
| `Timer.FocusTimer.constructor` | components/FocusTimer.tsx:13-16 | focus mode, 1500 seconds, paused, nothing logged |
| `Timer.FocusTimer.Settle` | components/FocusTimer.tsx:34-42 | the effect stops a running countdown at zero and logs a focus run |
| `Timer.FocusTimer.Tick` | components/FocusTimer.tsx:31-33 | the state becomes the tick step of the old one, and stays valid |
| `Timer.FocusTimer.Toggle` | components/FocusTimer.tsx:49 | the state becomes the toggle step of the old one, and stays valid |
| `Timer.FocusTimer.Reset` | components/FocusTimer.tsx:51-54 | paused with the mode's full time; logged minutes unchanged |
| `Timer.FocusTimer.SwitchMode` | components/FocusTimer.tsx:56-60 | the new mode, paused, its full time; logged minutes unchanged |
| `Timer.FocusTimer.Finish` | components/FocusTimer.tsx:62-65 | reports exactly the logged minutes, a multiple of 25 |
| `Timer.FocusTimer.Display` | components/FocusTimer.tsx:67-71 | the five-character clock face of the time left |
| `Calendar.CarryIsDivMod` | services/geminiService.ts:422-424 | carrying adds the floor of minute / 60 to the hour and keeps minute mod 60 |
| `Calendar.ClockSteps` | services/geminiService.ts:422-443 | the end is start plus duration, and the next start 15 minutes later, minutes below 60 |
| `Calendar.EndOf` | services/geminiService.ts:422-424 | the start carried forward by the session's minutes; its properties are `Calendar.ClockSteps` |
| `Calendar.NextStart` | services/geminiService.ts:441-443 | the end carried forward by the 15-minute break; its properties are `Calendar.ClockSteps` |
| `Calendar.EventLines` | services/geminiService.ts:430-438 | a VEVENT has seven lines from BEGIN:VEVENT to END:VEVENT |
| `Calendar.Advance` | services/geminiService.ts:441-443 | the clock moves to the start of the next session |
| `Calendar.GenerateIcs` | services/geminiService.ts:398-447 | the text built by the loops is the functional document |
| `Calendar.WriteDay` | services/geminiService.ts:407-445 | one day's events from 09:00 are appended to the text so far |
| `Calendar.StartTimeLayout` | services/geminiService.ts:410-443 | the k-th session starts at 09:00 plus earlier durations plus 15 minutes per earlier session |
| `Calendar.BreakBetweenSessions` | services/geminiService.ts:441-443 | each session starts 15 minutes after the previous one ends |
| `Calendar.LongDayPassesMidnight` | services/geminiService.ts:423 | two eight-hour sessions end at 25:15: the hour is never wrapped |
| `Calendar.StampReadsBack` | services/geminiService.ts:417-419 | a stamp is the date, "T", two hour digits, two minute digits and "00", and reads back as the clock |
| `Calendar.Stamp` | services/geminiService.ts:417-428 | the date, "T", padded hour and minute, "00"; its read-back is `Calendar.StampReadsBack` |
| `Calendar.DateStampDropsDashes` | services/geminiService.ts:413 | the date stamp is the date filtered by `x !== '-'`: every other character kept in order, no '-' left, a date without one unchanged |
| `Calendar.DateStamp` | services/geminiService.ts:413 | the date with its dashes removed; its properties are `Calendar.DateStampDropsDashes` |
| `Calendar.EventReadsBack` | services/geminiService.ts:430-438 | an event splits back into its lines, with the subject, start and end stamps in place |
| `Calendar.EventCount` | services/geminiService.ts:407-445 | exactly one event per session |
| `Calendar.EventAt` | services/geminiService.ts:407-445 | the k-th session of day e is event number (sessions before e) + k, at its start time |
| `Calendar.IcsDocument` | services/geminiService.ts:399-447 | the header, the events of every day and the footer; see `Calendar.IcsStructure` |
| `Calendar.IcsStructure` | services/geminiService.ts:399-447 | the document is the header, one event per session, and END:VCALENDAR |
| `Gemini.PartitionSchedule` | services/geminiService.ts:217-228 | the loops collect the missed and completed lists of the schedule |
| `Gemini.PartitionDay` | services/geminiService.ts:218-227 | one day appends its missed sessions, tagged with the date, and its completed ones |
| `Gemini.MissedOfMembers` | services/geminiService.ts:217-228 | an entry is missed exactly when a missed session of some day, tagged with that day's date, gives it |
| `Gemini.CompletedOfMembers` | services/geminiService.ts:217-228 | a session is listed completed exactly when it is a completed session of some day |
| `Gemini.DayCounts` | services/geminiService.ts:219-226 | one entry per missed and per completed session; pending and unset sessions are dropped |
| `Gemini.DifficultyOr5` | services/geminiService.ts:129 | a missing or zero difficulty becomes 5, any other is kept |
| `Gemini.MapSyllabus` | services/geminiService.ts:125-139 | each parsed subject given its id and defaults; see `Gemini.MapSyllabusDefaults` |
| `Gemini.MapSyllabusDefaults` | services/geminiService.ts:126-139 | names kept, confidence 50, no priority, difficulty 5 when falsy, exam date today when missing, chapters none when absent, each mapped with its defaults |
| `Gemini.TranscriptLines` | services/geminiService.ts:308-311 | one line per message among the last 50, as "name: content" |
| `Gemini.TranscriptReadsBack` | services/geminiService.ts:308-311 | the transcript splits back at line breaks into those lines; an empty chat gives "" |
| `Gemini.Transcript` | services/geminiService.ts:308-311 | the lines joined by line breaks; its read-back is `Gemini.TranscriptReadsBack` |
| `Leaderboard.MergeFriendsSpec` | components/Leaderboard.tsx:82-87 | world entries stay in front; a friend is appended only when its id is new; every friend id ends present |
| `Leaderboard.MergeFriends` | components/Leaderboard.tsx:82-87 | adds each friend whose id is not yet listed, in order; its properties are `Leaderboard.MergeFriendsSpec` |
| `Leaderboard.FindMe` | components/Leaderboard.tsx:103 | the first entry marked as the user or with the user's id, or -1 |
| `Leaderboard.PlaceMeSpec` | components/Leaderboard.tsx:90-108 | the first match, or a new last entry, holds the user with the current minutes; every other entry is untouched |
| `Leaderboard.PlaceMe` | components/Leaderboard.tsx:89-108 | puts the user's entry at the first entry with the user's id, else appends it; its properties are `Leaderboard.PlaceMeSpec` |
| `Leaderboard.WorldKeepsAll` | components/Leaderboard.tsx:113-117 | the world view keeps every entry |
| `Leaderboard.UserSurvivesFilters` | components/Leaderboard.tsx:113-117 | the user's entry survives every category |
| `Leaderboard.Display` | components/Leaderboard.tsx:77-125 | merged, placed, filtered, sorted and ranked entries; see `Leaderboard.DisplaySpec` |
| `Leaderboard.DisplaySpec` | components/Leaderboard.tsx:77-125 | the display satisfies `RankedDisplayOf`: it is non-increasing in minutes, ranked 1..n, made of merged entries the category keeps, holds the user, and, with ranks cleared, holds every entry the category keeps exactly as often as it is kept |
| `Leaderboard.RankSpec` | components/Leaderboard.tsx:120-121 | ranking keeps the order and entries and numbers them 1..n |
| `Leaderboard.Rank` | components/Leaderboard.tsx:121 | sets each entry's rank to its position plus one; its properties are `Leaderboard.RankSpec` |
| `Leaderboard.RankFinds` | components/Leaderboard.tsx:120-121 | every entry appears ranked by its position |
| `Leaderboard.DisplayEntries` | components/Leaderboard.tsx:77-125 | the effect's steps compute the display |
| `Leaderboard.GenerateHistory` | components/Leaderboard.tsx:29-36 | the loop computes the history function |
| `Leaderboard.HistoryBounds` | components/Leaderboard.tsx:29-36 | six values, the last the rank, the first five within two of it and at least 1 |
| `Leaderboard.History` | components/Leaderboard.tsx:29-36 | five drawn values near the rank, then the rank; its bounds are `Leaderboard.HistoryBounds` |
| `Leaderboard.HistoryReaches` | components/Leaderboard.tsx:31-33 | every value within two of the rank can be drawn |
| `Leaderboard.EnsureHistories` | components/Leaderboard.tsx:64-69 | entries without history get one of six values for their position; the others are kept |
| `Leaderboard.OwnIdWithSpaceIsSent` | components/Leaderboard.tsx:128-147 | the form as written sends the user's own id when typed with a leading space |
| `Leaderboard.SubmitAsWritten` | components/Leaderboard.tsx:128-147 | the form as written: the blank test trims the input, the own-id and friend tests compare it untrimmed, the trimmed id is sent; `Leaderboard.OwnIdWithSpaceIsSent` exhibits the gap |
| `Leaderboard.Submit` | components/Leaderboard.tsx:128-147 | a sent id is trimmed, non-empty, not the user's and not a friend's |
| `Leaderboard.SubmitOrder` | components/Leaderboard.tsx:128-147 | blank, then own id, then existing friend are rejected in that order; anything else is sent |
| `Leaderboard.SubmitAgreesOnTrimmedInput` | components/Leaderboard.tsx:128-147 | on input that neither starts nor ends with white space, the form as written and the corrected form agree |
| `GroupsView.MyGroups` | components/GroupsView.tsx:77 | exactly the groups the user belongs to |
| `GroupsView.PublicGroups` | components/GroupsView.tsx:78 | exactly the public groups the user does not belong to |
| `GroupsView.TabsPartition` | components/GroupsView.tsx:77-78 | the tabs are disjoint, each public group is in exactly one, a private group shows only to members |
| `GroupsView.GroupActivity` | components/GroupsView.tsx:232-268 | the loops compute the sorted feed |
| `GroupsView.Feed` | components/GroupsView.tsx:232-268 | the join, share and resource entries, sorted newest first; see `GroupsView.FeedSpec` |
| `GroupsView.FeedSpec` | components/GroupsView.tsx:232-268 | one entry per member, shared plan and resource, newest first, and nothing else |
| `GroupsView.PollIndex` | components/GroupsView.tsx:274 | the first poll with the id, or -1 exactly when none has it |
| `GroupsView.RenderPoll` | components/GroupsView.tsx:273-278 | the vote total and whether the user has voted, for the first poll with the id, or none when no poll has it; see `GroupsView.CardAfterVote` |
| `GroupsView.CardAfterVote` | components/GroupsView.tsx:273-278 | after the user votes the card shows the vote, and the total grows by one exactly when the user had not voted |
| `GroupsView.ReadingMembers` | components/GroupsView.tsx:978-980 | exactly the members other than the sender that are in `readBy` |
| `GroupsView.Readers` | components/GroupsView.tsx:978-980 | the first names of those members, in member order |
| `GroupsView.ReadByAllMeansEveryone` | components/GroupsView.tsx:974-975 | with unique members and readers that are members, the count test holds exactly when every member has read |
| `GroupsView.Unread` | components/GroupsView.tsx:111-119 | exactly the messages by others not yet read by the user |
| `GroupsView.MarkingUnreadLeavesNone` | components/GroupsView.tsx:111-119 | marking the watched messages read leaves none to watch; own messages are never watched |
| `GroupsView.SeekSeconds` | components/GroupsView.tsx:398-404 | a "m:s" entry read as minutes and seconds, else the entry as a number; see `GroupsView.SeekReadsClock` and `GroupsView.SeekReadsNumber` |
| `GroupsView.SeekReadsClock` | components/GroupsView.tsx:398-404 | typing back a clock face seeks to that second |
| `GroupsView.SeekReadsNumber` | components/GroupsView.tsx:398-404 | a plain number seeks to itself |
| `GroupsView.Invitable` | components/GroupsView.tsx:1253 | exactly the friends not yet members |
| `GroupsView.InviteRemovesOnlyThem` | components/GroupsView.tsx:1259-1260 | inviting a friend removes exactly that id from the list |
| `GroupsView.SubmitPoll` | components/GroupsView.tsx:176-183 | a poll is sent exactly with a selected group, a question and no blank option, carrying them |
| `GroupsView.AtLeastTwoOptions` | components/GroupsView.tsx:1213-1215 | no sequence of edits leaves fewer than two options |
| `GroupsView.ApplyEdit` | components/GroupsView.tsx:1203-1224 | one edit of the option rows: retype a row, add a blank row, or remove a row while more than two remain; its properties are `GroupsView.AtLeastTwoOptions` and `GroupsView.RemoveKeepsOthers` |
| `GroupsView.ApplyEdits` | components/GroupsView.tsx:1203-1224 | the edits applied in order; its bound is `GroupsView.AtLeastTwoOptions` |
| `GroupsView.BlankRowsBlockPosting` | components/GroupsView.tsx:177 | a fresh form, or one with a row just added, cannot be posted |
| `GroupsView.CanPost` | components/GroupsView.tsx:177 | a question is given and no option is blank after trimming; used by `GroupsView.SubmitPoll` and `GroupsView.BlankRowsBlockPosting` |
| `GroupsView.RemoveKeepsOthers` | components/GroupsView.tsx:1213-1215 | removing a row keeps the others, in order |
| `SubjectCard.ChangeSubjectSpec` | App.tsx:622-624 | an id-keeping edit touches only the subjects with that id |
| `SubjectCard.CardEditsKeepId` | components/SubjectCard.tsx:15-57 | every card edit keeps the subject's id |
| `SubjectCard.AddChapter` | components/SubjectCard.tsx:15-23 | a blank chapter appended; see `SubjectCard.AddChapterSpec` |
| `SubjectCard.UpdateChapter` | components/SubjectCard.tsx:26-31 | one field set on the chapters with the id; see `SubjectCard.UpdateChapterSpec` |
| `SubjectCard.RemoveChapter` | components/SubjectCard.tsx:33-36 | the chapters with the id dropped; see `SubjectCard.RemoveChapterSpec` |
| `SubjectCard.AddChapterSpec` | components/SubjectCard.tsx:15-23 | one blank chapter (empty name, difficulty 5, no priority) appended; everything else unchanged |
| `SubjectCard.AddChapterKeepsUnique` | components/SubjectCard.tsx:15-23 | a fresh id keeps chapter ids unique |
| `SubjectCard.UpdateChapterSpec` | components/SubjectCard.tsx:26-31 | only the named field of chapters with the id changes |
| `SubjectCard.UpdateChapterIdempotent` | components/SubjectCard.tsx:26-31 | the same edit twice is the edit once |
| `SubjectCard.RemoveChapterSpec` | components/SubjectCard.tsx:33-36 | chapters with the id go, the others stay as often as before |
| `SubjectCard.RemoveUndoesAdd` | components/SubjectCard.tsx:15-36 | removing a just-added fresh chapter gives the subject back |
| `SubjectCard.SubjectStarTwice` | components/SubjectCard.tsx:57 | the star flips the subject's flag only, and twice restores it |
| `SubjectCard.ChapterStarTwice` | components/SubjectCard.tsx:150 | a chapter's star flips that chapter's flag only, and twice restores it |
| `Profile.InitialSeed` | components/ProfileModal.tsx:18 | the text after the first `seed=` up to the next, or "Felix" without one |
| `Profile.Save` | components/ProfileModal.tsx:27-34 | same id, the new name and region, the avatar of the seed |
| `Profile.FirstMarkOfUrl` | components/ProfileModal.tsx:32 | the first `seed=` of a saved avatar ends the base address |
| `Profile.SeedRoundTrip` | components/ProfileModal.tsx:18-32 | saving a seed without `seed=` and reopening gives the seed back |
| `Profile.PresetsRoundTrip` | components/ProfileModal.tsx:12-32 | every preset seed survives a save and a reopening |
| `Profile.ForeignAvatarFallsBack` | components/ProfileModal.tsx:18 | an avatar without '=' starts from "Felix" |
| `Seqs.Without` | App.tsx:1062 | every copy of the value goes, the rest stay with their counts |
| `Seqs.TakeLast` | App.tsx:349 | `slice(-n)`: the last n elements, the last one kept |
| `Seqs.SortDesc` | components/Leaderboard.tsx:120 | a permutation with non-increasing keys |
| `Seqs.InsertDescStable` | components/Leaderboard.tsx:120 | inserting into a sorted list puts the new element behind every element with its key |
| `Seqs.SortDescStable` | components/Leaderboard.tsx:120 | the sort is stable: the elements with any one key keep the order they had |
| `Seqs.FirstIndex` | App.tsx:945 | `findIndex`: the first position whose element passes, or -1 exactly when none passes |
| `Seqs.Find` | App.tsx:950 | `find`: the element at a position that passes with no passing position before it, or none exactly when none passes |
| `Seqs.FindCons` | App.tsx:950 | a search answers the head when it passes and otherwise searches the tail |
| `Seqs.FindFilter` | App.tsx:988-995 | a search of a filtered list finds the first element of the whole list passing both tests, and none exactly when no element passes both |
| `Seqs.MapPerm` | components/Leaderboard.tsx:120-121 | mapping two lists that are permutations of each other gives permutations of each other |
| `Seqs.Filter` | components/GroupsView.tsx:77 | exactly the elements that pass, each as often as before |
| `Text.NatToStringRoundTrip` | components/FocusTimer.tsx:70 | reading back a written number gives it |
| `Text.Pad2Reads` | components/FocusTimer.tsx:70 | a two-digit pad below 100, digits only, reading back as the number |
| `Text.IndexOf` | components/ProfileModal.tsx:18 | the first position of the pattern, or -1 when it occurs nowhere |
| `Text.SplitJoin` | services/geminiService.ts:311 | splitting at a one-character separator undoes joining pieces without it |
| `Text.Trim` | components/Leaderboard.tsx:129 | a slice of the text with only white space cut off before and after it; blank exactly when all white space (the ECMAScript set: tab, VT, FF, space, NBSP, BOM, the Zs spaces, LF, CR, U+2028, U+2029); no white space at either end; text without white space kept |
| `Text.CutBothEnds` | components/Leaderboard.tsx:129 | cutting passing elements off the front and then the back leaves a slice with failing ends and only passing elements around it, empty exactly when every element passes, and the whole list when none passes |
| `Text.WideSpacesTrimmed` | components/Leaderboard.tsx:129 | the ideographic space alone trims to blank, and an em space and an ogham space mark are trimmed off a word |
| `Text.Utf16Length` | App.tsx:328 | `length` counts one unit per character in the Basic Multilingual Plane and two per astral character, so between one and two per character |
| `Text.Utf16Prefix` | App.tsx:1217 | the longest prefix of at most n UTF-16 units that ends on a character boundary |
| `Text.Utf16PrefixBmp` | App.tsx:1217 | on text without astral characters the unit prefix is the first n characters |
| `Text.RemoveChar` | services/geminiService.ts:413 | the character no longer occurs, every other character occurs as often as before, and a string without it is kept |
| `Text.RemoveCharIsFilter` | services/geminiService.ts:413 | removing a character is filtering by `x !== c`, so the other characters stay in their order |

## Left out

- Timers and promises (`setTimeout`, `setInterval`, the AI promises) are not modelled as scheduling. Each handler is cut at its timer into atomic methods: `SendMessage` returns the reply it schedules, `ChatTick` returns its bot tasks, and `BotStartsTyping`, `PostBotMessage`, `DeliverTask` and `UserTypingTimeout` are what the callbacks do when they fire. Races between callbacks, debouncing with `clearTimeout`, and the reading and typing delays themselves are not modelled.
- The generative service (`generateBotReply`, `generateBotTopic`, `generateBotStudyTip`, the syllabus and reschedule prompts, `JSON.parse` of responses) is a parameter (`AiOutcome`, `RawSubject`): a value, an empty string or a failure.
- localStorage loading and saving, and the seeding of default groups, are persistence I/O.
- The download at services/geminiService.ts:449-456 (Blob, anchor, click) is browser I/O.
- Floating-point display maths are left out: the progress ring, the poll percentage `Math.round`, hours display and the `readingDelay` jitter.
- Browser APIs and rendering are left out: IntersectionObserver (the model marks the whole unread set read), screen share, the shared video and its id regex, `Date` parsing and formatting, and all JSX.
- PlanView.tsx, Dashboard.tsx and HistoryModal.tsx are presentational and not part of this model.
- `handleCreateGroup`, `handleSharePlan`, `handleCreatePoll` and the plan generation handlers in App.tsx are not part of this model.
- In-place sorts (`combined.sort`, `activities.sort`) are modelled as a stable functional sort on sequences, so in-place update and aliasing are not captured.
- Calendar.GenerateIcs: lines end in "\n" as the source writes them, not the CRLF that RFC 5545 section 3.1 requires, and the hour is not wrapped at 24 (see `Calendar.LongDayPassesMidnight`).
- GroupsView.SeekSeconds: `Number(...)` is modelled on digit strings after trimming (empty is 0); decimals, signs and exponents are read as not-a-number. A part that is not a number makes the seek fail rather than produce NaN seconds.
- GroupsView.Feed: an activity's user keeps its name and avatar, not the sharer's `userId`, which the feed never shows.
- GroupsView.ApplyEdit: an edit of an option index outside the form changes nothing. The form never produces one.
- Simulation.TaskContent: the canned reply is drawn when the tick runs, so a canned task records the group name and the draw.
- ContextualReplyPriority: `toLowerCase` is modelled on A-Z only (`Text.Lower`). Other capitals that JavaScript lower-cases, such as U+0130 or the Kelvin sign U+212A, are kept, so a message like "Hİ" or "THANKS" written with a Kelvin sign can match a different rule than it would in the browser.
- PoolCategories: the group name is lower-cased on A-Z only, as in `Text.Lower`, so a name with other capitals can fall into a different pool than in the browser.
- Prefix4: when the fourth UTF-16 unit is the first half of a surrogate pair, `substring(0, 4)` keeps a lone surrogate, which is not a Dafny `char`; the model stops before the pair and gives three units.
- Calendar.StartTimeLayout: `durationMinutes` is a whole number of minutes from 0 up (`nat`), so a negative or fractional duration in a generated plan is not modelled; the same holds for `Calendar.GenerateIcs` and the sessions that `Gemini.PartitionSchedule` passes through.
- Message timestamps, `joinedAt` and `startedAt` are integers, and random ids are parameters, so id uniqueness of new messages is not modelled.
- Simulation.ChatTickSpec: "never throws" holds only under `Simulation.FreshIds`, which takes the new poll's id to differ from every poll id of the group and the drawn option ids to differ from each other. The source draws these ids with `Math.random().toString(36).substr(2, 9)` (App.tsx:475, 477), which does not promise either. The same assumption is a precondition of `Simulation.ChatTickGroupSpec`, `Simulation.BotTurnSpec` and `App.StudyApp.ChatTick`.
- Simulation.ReactionStep: one emoji draw serves every message whose id is the target's, while the source draws an emoji inside `map` for each such message (App.tsx:518). The two differ only when message ids repeat, which the model allows.

## Findings

| source | as written | input that shows it | evidently intended | confidence | as-written member | corrected member |
|---|---|---|---|---|---|---|
| components/Leaderboard.tsx:128-147 | the own-id and existing-friend checks compare the untrimmed input, but the trimmed id is sent | the user's own id typed with a leading space, " u1" for user "u1", is sent as "u1" | every check uses the trimmed id that is sent | high (not executed) | `Leaderboard.SubmitAsWritten`, `Leaderboard.OwnIdWithSpaceIsSent` | `Leaderboard.Submit` |

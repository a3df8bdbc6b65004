/**
  The records of the study planner (`types.ts`). ISO timestamps are integers
  (milliseconds), optional fields are `Option`s, and optional arrays that the
  code reads with `|| []` are plain sequences that may be empty.
 */
module Model {
  import opened Base

  datatype Chapter = Chapter(id: string, name: string, difficulty: int, isHighPriority: bool)

  datatype SubjectInput = SubjectInput(
    id: string,
    name: string,
    difficulty: int,
    examDate: string,
    currentConfidence: int,
    isHighPriority: bool,
    chapters: seq<Chapter>)

  datatype SessionStatus = Pending | Completed | Missed

  datatype StudySession = StudySession(
    id: string,
    subjectName: string,
    durationMinutes: nat,
    focusTopic: string,
    reasoning: string,
    status: Option<SessionStatus>)

  datatype DailyPlan = DailyPlan(date: string, sessions: seq<StudySession>, totalStudyTime: int)

  /** The subject-allocation statistics of a plan are display data and not kept. */
  datatype GeneratedPlan = GeneratedPlan(overview: string, schedule: seq<DailyPlan>)

  datatype SavedPlan = SavedPlan(
    id: string,
    title: string,
    createdAt: int,
    isPinned: bool,
    isFavorite: bool,
    data: GeneratedPlan,
    originalSubjects: seq<SubjectInput>)

  datatype FocusHistoryEntry = FocusHistoryEntry(
    id: string,
    subjectName: string,
    focusTopic: string,
    durationMinutes: int,
    completedAt: int)

  /** The avatar service: an avatar is this address followed by a seed. */
  const AvatarHost: string := "https://api.dicebear.com/7.x/avataaars/svg?"

  const SeedMark: string := "seed="

  const AvatarBase: string := AvatarHost + SeedMark

  datatype UserProfile = UserProfile(id: string, name: string, avatar: string, region: string)

  datatype Trend = Up | Down | Same

  /** `isCurrentUser` and `isFriend` are false where the source leaves them undefined. */
  datatype LeaderboardEntry = LeaderboardEntry(
    id: string,
    rank: int,
    name: string,
    minutes: int,
    avatar: string,
    trend: Trend,
    rankHistory: seq<int>,
    isCurrentUser: bool,
    isFriend: bool,
    region: Option<string>)

  datatype RequestStatus = RequestPending | Accepted | Rejected

  datatype FriendRequest = FriendRequest(id: string, fromUser: UserProfile, timestamp: int, status: RequestStatus)

  datatype Reaction = Reaction(emoji: string, userIds: seq<string>)

  datatype PollOption = PollOption(id: string, text: string, votes: seq<string>)

  datatype Poll = Poll(
    id: string,
    question: string,
    options: seq<PollOption>,
    createdBy: string,
    createdAt: int,
    isActive: bool)

  datatype ReplyRef = ReplyRef(id: string, userName: string, content: string)

  datatype Message = Message(
    id: string,
    userId: string,
    userName: string,
    userAvatar: string,
    content: string,
    timestamp: int,
    reactions: seq<Reaction>,
    readBy: seq<string>,
    isPinned: bool,
    pollId: Option<string>,
    replyTo: Option<ReplyRef>)

  datatype Role = Admin | Member

  datatype ActiveStatus = ActiveStatus(isOnline: bool, currentFocus: Option<string>, startedAt: Option<int>)

  datatype GroupMember = GroupMember(
    userId: string,
    name: string,
    avatar: string,
    role: Role,
    joinedAt: int,
    activeStatus: Option<ActiveStatus>)

  datatype UserRef = UserRef(userId: string, name: string, avatar: string)

  datatype SharedPlanItem = SharedPlanItem(
    id: string,
    originalPlanId: string,
    planTitle: string,
    sharedBy: UserRef,
    sharedAt: int,
    likes: int,
    clones: int)

  datatype ResourceKind = Link | File | Image

  datatype GroupResource = GroupResource(
    id: string,
    title: string,
    kind: ResourceKind,
    url: string,
    addedBy: UserRef,
    addedAt: int)

  datatype Privacy = Public | Private

  /** The shared video and the screen share of a group are not kept. */
  datatype StudyGroup = StudyGroup(
    id: string,
    name: string,
    description: string,
    privacy: Privacy,
    members: seq<GroupMember>,
    sharedPlans: seq<SharedPlanItem>,
    messages: seq<Message>,
    resources: seq<GroupResource>,
    polls: seq<Poll>,
    createdBy: string,
    createdAt: int)

  /** `group.members.some(m => m.userId === id)` */
  predicate HasMember(g: StudyGroup, id: string)
  {
    exists i :: 0 <= i < |g.members| && g.members[i].userId == id
  }

  /** The ids of a group's members, in order. */
  function MemberIds(ms: seq<GroupMember>): (ids: seq<string>)
    ensures |ids| == |ms|
    ensures forall i :: 0 <= i < |ms| ==> ids[i] == ms[i].userId
  {
    seq(|ms|, i requires 0 <= i < |ms| => ms[i].userId)
  }
}

/**
  What the groups screen (components/GroupsView.tsx) derives from the store
  before drawing it: the split into the user's groups and the groups to
  explore, a group's activity feed, the totals of a poll card, the readers
  of a message, the messages watched for read receipts, the `MM:SS` seek
  field, the friends that can be invited and the guard of the poll form.
 */
module GroupsView {
  import opened Base
  import opened Seqs
  import opened Text
  import opened Model
  import opened Polls
  import opened Timer
  import opened GroupStore

  // ---------------------------------------------------------------- my groups / explore

  /** `myGroups` (GroupsView.tsx:77): the groups the user belongs to. */
  function MyGroups(gs: seq<StudyGroup>, uid: string): (r: seq<StudyGroup>)
    ensures forall g :: g in r <==> g in gs && HasMember(g, uid)
  {
    Filter(gs, (g: StudyGroup) => HasMember(g, uid))
  }

  /** `publicGroups` (GroupsView.tsx:78): the public groups the user does not belong to. */
  function PublicGroups(gs: seq<StudyGroup>, uid: string): (r: seq<StudyGroup>)
    ensures forall g :: g in r <==> g in gs && g.privacy == Public && !HasMember(g, uid)
  {
    Filter(gs, (g: StudyGroup) => g.privacy == Public && !HasMember(g, uid))
  }

  /**
    No group is listed under both tabs; every public group is listed under
    exactly one; a private group appears only to its members.
   */
  lemma TabsPartition(gs: seq<StudyGroup>, uid: string)
    ensures forall g :: g in MyGroups(gs, uid) ==> g !in PublicGroups(gs, uid)
    ensures forall g :: g in gs && g.privacy == Public ==> (g in MyGroups(gs, uid) <==> g !in PublicGroups(gs, uid))
    ensures forall g :: g in gs && g.privacy == Private ==> g !in PublicGroups(gs, uid) && (g in MyGroups(gs, uid) <==> HasMember(g, uid))
    ensures |MyGroups(gs, uid)| + |PublicGroups(gs, uid)| <= |gs|
  {
    var mine, explore := MyGroups(gs, uid), PublicGroups(gs, uid);
    var p := (g: StudyGroup) => HasMember(g, uid);
    var q := (g: StudyGroup) => g.privacy == Public && !HasMember(g, uid);
    var both := (g: StudyGroup) => p(g) || q(g);
    assert multiset(Filter(gs, both)) == multiset(mine) + multiset(explore) by {
      forall g ensures multiset(Filter(gs, both))[g] == (multiset(mine) + multiset(explore))[g] {
        assert !(p(g) && q(g));
      }
    }
    assert |Filter(gs, both)| == |multiset(Filter(gs, both))|;
  }

  // ---------------------------------------------------------------- activity feed

  datatype ActivityKind = JoinedGroup | SharedPlan | AddedResource

  /** The name and avatar shown beside an activity. */
  datatype ActivityUser = ActivityUser(name: string, avatar: string)

  /** One row of the activity tab; the ISO timestamp is an integer here. */
  datatype Activity = Activity(id: string, kind: ActivityKind, timestamp: int, user: ActivityUser, details: string)

  function JoinEntry(m: GroupMember): Activity
  {
    Activity("join-" + m.userId, JoinedGroup, m.joinedAt, ActivityUser(m.name, m.avatar), "joined the group")
  }

  function PlanEntry(p: SharedPlanItem): Activity
  {
    Activity(p.id, SharedPlan, p.sharedAt, ActivityUser(p.sharedBy.name, p.sharedBy.avatar), "shared a plan: " + p.planTitle)
  }

  function ResourceEntry(r: GroupResource): Activity
  {
    Activity(r.id, AddedResource, r.addedAt, ActivityUser(r.addedBy.name, r.addedBy.avatar), "added a resource: " + r.title)
  }

  function Joins(ms: seq<GroupMember>): (r: seq<Activity>)
    ensures |r| == |ms| && forall i :: 0 <= i < |ms| ==> r[i] == JoinEntry(ms[i])
  {
    seq(|ms|, i requires 0 <= i < |ms| => JoinEntry(ms[i]))
  }

  function Shares(ps: seq<SharedPlanItem>): (r: seq<Activity>)
    ensures |r| == |ps| && forall i :: 0 <= i < |ps| ==> r[i] == PlanEntry(ps[i])
  {
    seq(|ps|, i requires 0 <= i < |ps| => PlanEntry(ps[i]))
  }

  function Additions(rs: seq<GroupResource>): (r: seq<Activity>)
    ensures |r| == |rs| && forall i :: 0 <= i < |rs| ==> r[i] == ResourceEntry(rs[i])
  {
    seq(|rs|, i requires 0 <= i < |rs| => ResourceEntry(rs[i]))
  }

  /** The rows in the order they are pushed: members, then shared plans, then resources. */
  function Entries(g: StudyGroup): seq<Activity>
  {
    Joins(g.members) + Shares(g.sharedPlans) + Additions(g.resources)
  }

  function Stamp(a: Activity): int { a.timestamp }

  /** The feed: the rows sorted newest first. */
  function Feed(g: StudyGroup): seq<Activity>
  {
    SortDesc(Entries(g), Stamp)
  }

  /**
    `getGroupActivity` (GroupsView.tsx:232-268): one push per member, per
    shared plan and per resource, then the newest-first sort.
   */
  method GroupActivity(g: StudyGroup) returns (feed: seq<Activity>)
    ensures feed == Feed(g)
  {
    var activities: seq<Activity> := [];
    var i := 0;
    while i < |g.members|
      invariant 0 <= i <= |g.members|
      invariant activities == Joins(g.members)[..i]
    {
      assert Joins(g.members)[..i + 1] == Joins(g.members)[..i] + [JoinEntry(g.members[i])];
      activities := activities + [JoinEntry(g.members[i])];
      i := i + 1;
    }
    assert Joins(g.members)[..i] == Joins(g.members);
    i := 0;
    while i < |g.sharedPlans|
      invariant 0 <= i <= |g.sharedPlans|
      invariant activities == Joins(g.members) + Shares(g.sharedPlans)[..i]
    {
      assert Shares(g.sharedPlans)[..i + 1] == Shares(g.sharedPlans)[..i] + [PlanEntry(g.sharedPlans[i])];
      activities := activities + [PlanEntry(g.sharedPlans[i])];
      i := i + 1;
    }
    assert Shares(g.sharedPlans)[..i] == Shares(g.sharedPlans);
    i := 0;
    while i < |g.resources|
      invariant 0 <= i <= |g.resources|
      invariant activities == Joins(g.members) + Shares(g.sharedPlans) + Additions(g.resources)[..i]
    {
      assert Additions(g.resources)[..i + 1] == Additions(g.resources)[..i] + [ResourceEntry(g.resources[i])];
      activities := activities + [ResourceEntry(g.resources[i])];
      i := i + 1;
    }
    assert Additions(g.resources)[..i] == Additions(g.resources);
    feed := SortDesc(activities, Stamp);
  }

  /** Every row of the feed comes from a member, a shared plan or a resource of the group. */
  predicate FromGroup(g: StudyGroup, a: Activity)
  {
    (exists m :: m in g.members && a == JoinEntry(m))
    || (exists p :: p in g.sharedPlans && a == PlanEntry(p))
    || (exists r :: r in g.resources && a == ResourceEntry(r))
  }

  /**
    The feed has one row per member, shared plan and resource (the same rows,
    as a multiset, as were pushed), newest first, and nothing else.
   */
  lemma FeedSpec(g: StudyGroup)
    ensures var feed := Feed(g);
      |feed| == |g.members| + |g.sharedPlans| + |g.resources|
      && multiset(feed) == multiset(Joins(g.members)) + multiset(Shares(g.sharedPlans)) + multiset(Additions(g.resources))
      && (forall i, j :: 0 <= i < j < |feed| ==> feed[i].timestamp >= feed[j].timestamp)
      && (forall m :: m in g.members ==> JoinEntry(m) in feed)
      && (forall p :: p in g.sharedPlans ==> PlanEntry(p) in feed)
      && (forall r :: r in g.resources ==> ResourceEntry(r) in feed)
      && (forall a :: a in feed ==> FromGroup(g, a))
  {
    var feed, es := Feed(g), Entries(g);
    assert multiset(feed) == multiset(es);
    forall i, j | 0 <= i < j < |feed| ensures feed[i].timestamp >= feed[j].timestamp {
      assert Stamp(feed[i]) >= Stamp(feed[j]);
    }
    forall a ensures a in feed <==> a in es {
      assert a in feed <==> a in multiset(feed);
      assert a in es <==> a in multiset(es);
    }
    EntriesCover(g);
  }

  /** The pushed rows are exactly the rows of the group's members, shared plans and resources. */
  lemma EntriesCover(g: StudyGroup)
    ensures forall m :: m in g.members ==> JoinEntry(m) in Entries(g)
    ensures forall p :: p in g.sharedPlans ==> PlanEntry(p) in Entries(g)
    ensures forall r :: r in g.resources ==> ResourceEntry(r) in Entries(g)
    ensures forall a :: a in Entries(g) ==> FromGroup(g, a)
  {
    var es := Entries(g);
    forall m | m in g.members ensures JoinEntry(m) in es {
      var k :| 0 <= k < |g.members| && g.members[k] == m;
      assert es[k] == JoinEntry(m);
    }
    forall p | p in g.sharedPlans ensures PlanEntry(p) in es {
      var k :| 0 <= k < |g.sharedPlans| && g.sharedPlans[k] == p;
      assert es[|g.members| + k] == PlanEntry(p);
    }
    forall r | r in g.resources ensures ResourceEntry(r) in es {
      var k :| 0 <= k < |g.resources| && g.resources[k] == r;
      assert es[|g.members| + |g.sharedPlans| + k] == ResourceEntry(r);
    }
    forall a | a in es ensures FromGroup(g, a) {
      var k :| 0 <= k < |es| && es[k] == a;
      if k < |g.members| {
        assert g.members[k] in g.members;
      } else if k < |g.members| + |g.sharedPlans| {
        assert g.sharedPlans[k - |g.members|] in g.sharedPlans;
      } else {
        assert g.resources[k - |g.members| - |g.sharedPlans|] in g.resources;
      }
    }
  }

  // ---------------------------------------------------------------- poll card

  /** `polls.find(p => p.id === pollId)`, as the index of the first match, or -1. */
  function PollIndex(polls: seq<Poll>, id: string): (k: int)
    ensures -1 <= k < |polls|
    ensures k >= 0 ==> polls[k].id == id && forall j :: 0 <= j < k ==> polls[j].id != id
    ensures k == -1 ==> forall j :: 0 <= j < |polls| ==> polls[j].id != id
  {
    FirstIndex(polls, (p: Poll) => p.id == id)
  }


  /** What the card shows besides the question: the vote total and whether the user has voted. */
  datatype PollCard = PollCard(totalVotes: nat, hasVoted: bool)

  /** `renderPoll` (GroupsView.tsx:273-278): nothing when the poll is missing. */
  function RenderPoll(polls: seq<Poll>, pollId: string, uid: string): Option<PollCard>
  {
    var k := PollIndex(polls, pollId);
    if k < 0 then None else Some(PollCard(TotalVotes(polls[k].options), HasVoted(polls[k].options, uid)))
  }

  /** Lists with the same ids, position by position, find the same poll. */
  lemma PollIndexSameIds(a: seq<Poll>, b: seq<Poll>, id: string)
    requires |a| == |b| && forall i :: 0 <= i < |a| ==> a[i].id == b[i].id
    ensures PollIndex(a, id) == PollIndex(b, id)
  {
    var ka, kb := PollIndex(a, id), PollIndex(b, id);
    if ka >= 0 && kb >= 0 {
      assert !(ka < kb) && !(kb < ka);
    }
  }

  /**
    After the user votes for an existing option (`handleVotePoll`), the card
    of that poll says the user has voted, and its total is one higher than
    before exactly when the user had not voted yet.
   */
  lemma CardAfterVote(polls: seq<Poll>, pollId: string, optionId: string, uid: string)
    requires forall i :: 0 <= i < |polls| ==> PollOptionsValid(polls[i].options)
    requires PollIndex(polls, pollId) >= 0
    requires exists j :: 0 <= j < |polls[PollIndex(polls, pollId)].options| && polls[PollIndex(polls, pollId)].options[j].id == optionId
    ensures var before := RenderPoll(polls, pollId, uid);
      var after := RenderPoll(VotePolls(polls, pollId, optionId, uid), pollId, uid);
      before.Some? && after.Some? && after.value.hasVoted
      && after.value.totalVotes == before.value.totalVotes + (if before.value.hasVoted then 0 else 1)
  {
    var r := VotePolls(polls, pollId, optionId, uid);
    PollIndexSameIds(polls, r, pollId);
    var k := PollIndex(polls, pollId);
    var opts := polls[k].options;
    assert r[k].options == VoteOptions(opts, optionId, uid);
    TotalAfterVote(opts, optionId, uid);
    var c :| 0 <= c < |opts| && opts[c].id == optionId;
    assert uid in VoteOptions(opts, optionId, uid)[c].votes;
  }

  // ---------------------------------------------------------------- read receipts

  /** The members other than the sender whose id is in the message's `readBy`. */
  function ReadingMembers(members: seq<GroupMember>, m: Message): (r: seq<GroupMember>)
    ensures forall x :: x in r <==> x in members && x.userId in m.readBy && x.userId != m.userId
  {
    Filter(members, (x: GroupMember) => x.userId in m.readBy && x.userId != m.userId)
  }

  /** `readers` (GroupsView.tsx:978-980): the first names of those members, in member order. */
  function Readers(members: seq<GroupMember>, m: Message): (names: seq<string>)
    ensures var rm := ReadingMembers(members, m);
      |names| == |rm| && forall i :: 0 <= i < |rm| ==> names[i] == FirstWord(rm[i].name)
  {
    var rm := ReadingMembers(members, m);
    seq(|rm|, i requires 0 <= i < |rm| => FirstWord(rm[i].name))
  }

  /** `isReadByAll` (GroupsView.tsx:974-975): at least as many readers as members. */
  predicate IsReadByAll(members: seq<GroupMember>, m: Message)
  {
    |m.readBy| >= |members|
  }

  /** The distinct elements of a list without repeats are as many as its length. */
  lemma {:induction false} DistinctCount(s: seq<string>)
    requires NoDup(s)
    ensures |(set x | x in s)| == |s|
    decreases |s|
  {
    if s != [] {
      var init := s[..|s| - 1];
      DistinctCount(init);
      assert (set x | x in s) == (set x | x in init) + {s[|s| - 1]};
      assert s[|s| - 1] !in init;
    }
  }

  /**
    When every reader is a member, nobody reads twice and member ids are
    unique, the count test means what the tick marks promise: every member
    has read the message.
   */
  lemma ReadByAllMeansEveryone(members: seq<GroupMember>, m: Message)
    requires UniqueMemberIds(members) && NoDup(m.readBy)
    requires forall id :: id in m.readBy ==> id in MemberIds(members)
    ensures IsReadByAll(members, m) <==> forall x :: x in members ==> x.userId in m.readBy
  {
    if IsReadByAll(members, m) {
      CountMeansEveryone(members, m);
    }
    if forall x :: x in members ==> x.userId in m.readBy {
      EveryoneMeetsCount(members, m);
    }
  }

  /** Enough distinct readers, all of them members, are all the members. */
  lemma CountMeansEveryone(members: seq<GroupMember>, m: Message)
    requires UniqueMemberIds(members) && NoDup(m.readBy)
    requires forall id :: id in m.readBy ==> id in MemberIds(members)
    requires IsReadByAll(members, m)
    ensures forall x :: x in members ==> x.userId in m.readBy
  {
    var ids := MemberIds(members);
    DistinctCount(ids);
    DistinctCount(m.readBy);
    var readers, everyone := set x | x in m.readBy, set x | x in ids;
    assert readers <= everyone;
    assert readers == everyone by {
      if readers != everyone {
        var e :| e in everyone && e !in readers;
        assert readers <= everyone - {e};
        SubsetCard(readers, everyone - {e});
      }
    }
    forall x | x in members ensures x.userId in m.readBy {
      var k :| 0 <= k < |members| && members[k] == x;
      assert ids[k] in everyone;
    }
  }

  /** When every member has read the message, the count reaches the member count. */
  lemma EveryoneMeetsCount(members: seq<GroupMember>, m: Message)
    requires UniqueMemberIds(members) && NoDup(m.readBy)
    requires forall x :: x in members ==> x.userId in m.readBy
    ensures IsReadByAll(members, m)
  {
    var ids := MemberIds(members);
    DistinctCount(ids);
    DistinctCount(m.readBy);
    var readers, everyone := set x | x in m.readBy, set x | x in ids;
    assert everyone <= readers by {
      forall id | id in everyone ensures id in readers {
        var k :| 0 <= k < |ids| && ids[k] == id;
        assert members[k] in members;
      }
    }
    SubsetCard(everyone, readers);
  }

  /** A subset is no larger than the set containing it. */
  lemma {:induction false} SubsetCard(a: set<string>, b: set<string>)
    requires a <= b
    ensures |a| <= |b|
    decreases |b|
  {
    if a != {} {
      var x :| x in a;
      SubsetCard(a - {x}, b - {x});
    }
  }

  /**
    The messages the read-receipt observer watches (GroupsView.tsx:111-119):
    written by somebody else and not yet read by the user.
   */
  function Unread(ms: seq<Message>, uid: string): (r: seq<Message>)
    ensures forall m :: m in r <==> m in ms && m.userId != uid && uid !in m.readBy
  {
    Filter(ms, (m: Message) => m.userId != uid && uid !in m.readBy)
  }

  function MessageIds(ms: seq<Message>): (ids: seq<string>)
    ensures |ids| == |ms| && forall i :: 0 <= i < |ms| ==> ids[i] == ms[i].id
  {
    seq(|ms|, i requires 0 <= i < |ms| => ms[i].id)
  }

  /**
    Once the watched messages are reported read (`handleMarkMessagesRead`
    with their ids), none is left to watch, and own messages are never
    reported.
   */
  lemma MarkingUnreadLeavesNone(ms: seq<Message>, uid: string)
    ensures Unread(MarkRead(ms, MessageIds(Unread(ms, uid)), uid), uid) == []
    ensures forall m :: m in Unread(ms, uid) ==> m.userId != uid
  {
    var watched := Unread(ms, uid);
    var ids := MessageIds(watched);
    var after := MarkRead(ms, ids, uid);
    var p := (m: Message) => m.userId != uid && uid !in m.readBy;
    forall k | 0 <= k < |after| ensures !p(after[k]) {
      if p(ms[k]) {
        assert ms[k] in watched;
        var j :| 0 <= j < |watched| && watched[j] == ms[k];
        assert ids[j] == ms[k].id;
        assert after[k] == ms[k].(readBy := ms[k].readBy + [uid]);
      }
    }
    FilterNone(after, p);
  }

  // ---------------------------------------------------------------- seek field

  /**
    `Number(part)` on the text between colons: surrounding white space is
    ignored, blank text is 0, decimal digits give their value, and anything
    else is NaN, written None.
   */
  function NumberOf(s: string): Option<int>
  {
    var t := Trim(s);
    if AllDigits(t) then Some(DigitsValue(t)) else None
  }

  /**
    `handleSyncSubmit` (GroupsView.tsx:398-404): `m:s` is `m * 60 + s`, a
    single number is itself, more than one colon gives 0, and a NaN part
    makes the result NaN.
   */
  function SeekSeconds(input: string): Option<int>
  {
    var parts := Split(input, ":");
    if |parts| == 2 then
      var minutes, secs := NumberOf(parts[0]), NumberOf(parts[1]);
      if minutes.Some? && secs.Some? then Some(minutes.value * 60 + secs.value) else None
    else if |parts| == 1 then NumberOf(parts[0])
    else Some(0)
  }

  lemma DigitsTrimmed(s: string)
    requires AllDigits(s)
    ensures Trim(s) == s
  {
    assert forall i :: 0 <= i < |s| ==> !IsSpace(s[i]);
  }

  /** Typing back what the timer's clock face shows (`formatTime`) seeks to that second. */
  lemma SeekReadsClock(seconds: nat)
    ensures SeekSeconds(FormatTime(seconds)) == Some(seconds)
  {
    var q, r := seconds / 60, seconds % 60;
    var a, b := Pad2(q), Pad2(r);
    Pad2Reads(q);
    Pad2Reads(r);
    DigitsTrimmed(a);
    DigitsTrimmed(b);
    var parts := [a, b];
    assert Join(parts, [':']) == FormatTime(seconds) by {
      assert Join(parts[1..], [':']) == b;
    }
    SplitJoin(parts, ':');
  }

  /** A plain number of seconds seeks to itself. */
  lemma SeekReadsNumber(n: nat)
    ensures SeekSeconds(NatToString(n)) == Some(n)
  {
    var s := NatToString(n);
    assert ':' !in s;
    IndexOfCharAbsent(s, ':');
    DigitsTrimmed(s);
    NatToStringRoundTrip(n);
  }

  // ---------------------------------------------------------------- invite list

  /** The friends offered in the invite dialog (GroupsView.tsx:1253, 1259-1260): not yet members. */
  function Invitable(friends: seq<LeaderboardEntry>, g: StudyGroup): (r: seq<LeaderboardEntry>)
    ensures forall f :: f in r <==> f in friends && !HasMember(g, f.id)
  {
    Filter(friends, (f: LeaderboardEntry) => !HasMember(g, f.id))
  }

  /**
    Inviting an offered friend (`handleAddMemberToGroup`) takes exactly that
    id off the list: every other offered friend is still offered.
   */
  lemma InviteRemovesOnlyThem(friends: seq<LeaderboardEntry>, g: StudyGroup, f: LeaderboardEntry, now: int)
    requires f in Invitable(friends, g)
    ensures var after := Invitable(friends, AddMemberIfAbsent(g, InvitedFriend(f, now)));
      (forall x :: x in after <==> x in Invitable(friends, g) && x.id != f.id)
  {
    var g' := AddMemberIfAbsent(g, InvitedFriend(f, now));
    assert g'.members == g.members + [InvitedFriend(f, now)];
    forall id: string ensures HasMember(g', id) <==> HasMember(g, id) || id == f.id {
      if id == f.id {
        assert g'.members[|g.members|].userId == f.id;
      }
      if HasMember(g', id) && id != f.id {
        var k :| 0 <= k < |g'.members| && g'.members[k].userId == id;
        assert k < |g.members|;
        assert g.members[k] == g'.members[k];
      }
      if HasMember(g, id) {
        var k :| 0 <= k < |g.members| && g.members[k].userId == id;
        assert g'.members[k] == g.members[k];
      }
    }
  }

  // ---------------------------------------------------------------- poll form

  /** The option rows of a fresh form. */
  const BlankOptions: seq<string> := ["", ""]

  /** `pollQuestion && pollOptions.every(o => o.trim())` (GroupsView.tsx:177, 1231). */
  predicate CanPost(question: string, options: seq<string>)
  {
    question != "" && forall i :: 0 <= i < |options| ==> Trim(options[i]) != ""
  }

  /** What `onCreatePoll` is called with. */
  datatype PollRequest = PollRequest(groupId: string, question: string, options: seq<string>)

  /**
    `handleCreatePollSubmit` (GroupsView.tsx:176-183): the request sent
    with a selected group and a postable form, and nothing otherwise.
   */
  function SubmitPoll(selectedGroup: Option<string>, question: string, options: seq<string>): (r: Option<PollRequest>)
    ensures r.Some? <==> selectedGroup.Some? && CanPost(question, options)
    ensures r.Some? ==> r.value.groupId == selectedGroup.value && r.value.question == question && r.value.options == options
  {
    if selectedGroup.Some? && CanPost(question, options) then Some(PollRequest(selectedGroup.value, question, options)) else None
  }

  /**
    The edits of the option rows (GroupsView.tsx:1203-1224). Indices come
    from the rows drawn, so they are in range; an index past the end changes
    nothing here.
   */
  datatype FormEdit = EditOption(idx: nat, text: string) | AddOption | RemoveOption(idx: nat)

  function ApplyEdit(options: seq<string>, e: FormEdit): seq<string>
  {
    match e
    case EditOption(idx, text) => if idx < |options| then options[idx := text] else options
    case AddOption => options + [""]
    case RemoveOption(idx) => if |options| > 2 && idx < |options| then options[..idx] + options[idx + 1..] else options
  }

  function ApplyEdits(options: seq<string>, edits: seq<FormEdit>): seq<string>
    decreases |edits|
  {
    if edits == [] then options else ApplyEdits(ApplyEdit(options, edits[0]), edits[1..])
  }

  /** The remove button exists only above two rows, so a form never has fewer than two options. */
  lemma {:induction false} AtLeastTwoOptions(options: seq<string>, edits: seq<FormEdit>)
    requires |options| >= 2
    ensures |ApplyEdits(options, edits)| >= 2
    decreases |edits|
  {
    if edits != [] {
      AtLeastTwoOptions(ApplyEdit(options, edits[0]), edits[1..]);
    }
  }

  /** A fresh form, or one with a row just added, cannot be posted until the blank rows are filled. */
  lemma BlankRowsBlockPosting(question: string, options: seq<string>)
    ensures !CanPost(question, BlankOptions)
    ensures !CanPost(question, ApplyEdit(options, AddOption))
  {
    assert Trim(BlankOptions[0]) == "";
    var r := ApplyEdit(options, AddOption);
    assert Trim(r[|r| - 1]) == "";
  }

  /** Removing a row keeps the other rows, in order. */
  lemma RemoveKeepsOthers(options: seq<string>, idx: nat)
    requires |options| > 2 && idx < |options|
    ensures var r := ApplyEdit(options, RemoveOption(idx));
      |r| == |options| - 1
      && (forall i :: 0 <= i < idx ==> r[i] == options[i])
      && (forall i :: idx <= i < |r| ==> r[i] == options[i + 1])
  {
  }
}

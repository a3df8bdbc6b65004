/**
  The canned bot chatter of App.tsx: `getContextualReply`, which picks a
  reply by keyword priority, and the fallback `handleSendMessage` applies
  when the generative service fails or answers with nothing.
 */
module Replies {
  import opened Base
  import opened Seqs
  import opened Text
  import opened Model

  const MathReplies: seq<string> := [
    "The integration questions in Chapter 4 are brutal.",
    "Just remember the chain rule!",
    "Anyone have a good cheat sheet for the formulas?",
    "Math is just pattern recognition, keep practicing.",
    "I finally understand limits! (I think)",
    "My brain hurts from this problem set.",
    "Does anyone want to race through a practice exam?"
  ]

  const ScienceReplies: seq<string> := [
    "Lab reports are due tomorrow, don't forget.",
    "Physics is basically just applied math if you think about it.",
    "Memorizing these periodic table elements is pain.",
    "Mitochondria is the powerhouse of the cell 🦠",
    "I need help with the thermodynamics section.",
    "This reaction mechanism makes no sense.",
    "Anyone studying for the MCAT?"
  ]

  const HumanitiesReplies: seq<string> := [
    "So much reading to do...",
    "I need to write 500 words by tonight.",
    "History is actually super interesting once you get into it.",
    "Can someone proofread my essay intro?",
    "Dates are hard to remember, I use flashcards.",
    "Anyone analyzing Shakespeare right now?"
  ]

  const CodeReplies: seq<string> := [
    "It works on my machine 🤷‍♂️",
    "Debugging is 90% of the work.",
    "Why is this CSS not centering??",
    "Python is so much cleaner than Java.",
    "Did you push to GitHub?",
    "I think you missed a semicolon."
  ]

  const GenericReplies: seq<string> := [
    "Keep pushing everyone!",
    "Focus mode is on 😤",
    "Has anyone tried the Pomodoro timer feature here? It's good.",
    "I'm studying for 2 more hours then sleeping.",
    "Let's get this bread 🍞",
    "Coffee time ☕️",
    "My playlist is fire right now.",
    "Just finished a topic, feeling good."
  ]

  const HelpReply := "What specifically are you stuck on? Maybe we can screen share."
  const TiredReply := "Take a 15m power nap, honestly saves my life."
  const ThanksReply := "No problem! We're all in this together."
  const LaughReply := "😂"

  function WelcomeReply(groupName: string): string
  {
    "Welcome! Glad to have you in " + groupName + "."
  }

  predicate IsGreeting(lowerMsg: string)
  {
    Contains(lowerMsg, "hello") || Contains(lowerMsg, "hi") || Contains(lowerMsg, "hey") || Contains(lowerMsg, "joined")
  }

  predicate AsksHelp(lowerMsg: string) { Contains(lowerMsg, "help") || Contains(lowerMsg, "stuck") }

  predicate IsTired(lowerMsg: string)
  {
    Contains(lowerMsg, "tired") || Contains(lowerMsg, "break") || Contains(lowerMsg, "sleep")
  }

  predicate IsThanks(lowerMsg: string) { Contains(lowerMsg, "thanks") || Contains(lowerMsg, "thx") }

  predicate IsLaugh(lowerMsg: string) { Contains(lowerMsg, "lol") || Contains(lowerMsg, "haha") }

  /** The keyword reply to a (lower-cased) message, first matching rule wins. */
  function KeywordReply(groupName: string, lowerMsg: string): Option<string>
  {
    if IsGreeting(lowerMsg) then Some(WelcomeReply(groupName))
    else if AsksHelp(lowerMsg) then Some(HelpReply)
    else if IsTired(lowerMsg) then Some(TiredReply)
    else if IsThanks(lowerMsg) then Some(ThanksReply)
    else if IsLaugh(lowerMsg) then Some(LaughReply)
    else None
  }

  predicate IsMathName(lowerName: string)
  {
    Contains(lowerName, "math") || Contains(lowerName, "calc") || Contains(lowerName, "algebra") || Contains(lowerName, "stat")
  }

  predicate IsScienceName(lowerName: string)
  {
    Contains(lowerName, "physics") || Contains(lowerName, "chem") || Contains(lowerName, "bio")
    || Contains(lowerName, "science") || Contains(lowerName, "stem")
  }

  predicate IsHumanitiesName(lowerName: string)
  {
    Contains(lowerName, "history") || Contains(lowerName, "art") || Contains(lowerName, "english") || Contains(lowerName, "law")
  }

  predicate IsCodeName(lowerName: string)
  {
    Contains(lowerName, "code") || Contains(lowerName, "comp") || Contains(lowerName, "dev")
  }

  /** The pool of subject chatter for a group name, by category priority. */
  function PoolFor(groupName: string): (pool: seq<string>)
    ensures |pool| > 0
  {
    var lowerName := Lower(groupName);
    if IsMathName(lowerName) then MathReplies
    else if IsScienceName(lowerName) then ScienceReplies
    else if IsHumanitiesName(lowerName) then HumanitiesReplies
    else if IsCodeName(lowerName) then CodeReplies
    else GenericReplies
  }

  /**
    `getContextualReply(groupName, lastMessage)`, with `pick` standing for
    the random index into the chosen pool. An empty message counts as none.
   */
  function ContextualReply(groupName: string, lastMessage: Option<string>, pick: nat): string
  {
    var keyword := if lastMessage.Some? && |lastMessage.value| > 0
      then KeywordReply(groupName, Lower(lastMessage.value)) else None;
    if keyword.Some? then keyword.value
    else
      var pool := PoolFor(groupName);
      pool[pick % |pool|]
  }

  /**
    The rules apply in strict priority: a non-empty message is answered by
    the first keyword rule it matches; a message matching none, an empty
    message or no message at all gets chatter from the group's pool.
   */
  lemma ContextualReplyPriority(groupName: string, lastMessage: Option<string>, pick: nat)
    ensures var r := ContextualReply(groupName, lastMessage, pick);
      var given := lastMessage.Some? && |lastMessage.value| > 0;
      var lowerMsg := if given then Lower(lastMessage.value) else "";
      (given && IsGreeting(lowerMsg) ==> r == WelcomeReply(groupName))
      && (given && !IsGreeting(lowerMsg) && AsksHelp(lowerMsg) ==> r == HelpReply)
      && (given && !IsGreeting(lowerMsg) && !AsksHelp(lowerMsg) && IsTired(lowerMsg) ==> r == TiredReply)
      && ((given && !IsGreeting(lowerMsg) && !AsksHelp(lowerMsg) && !IsTired(lowerMsg) && IsThanks(lowerMsg))
          ==> r == ThanksReply)
      && ((given && !IsGreeting(lowerMsg) && !AsksHelp(lowerMsg) && !IsTired(lowerMsg) && !IsThanks(lowerMsg)
           && IsLaugh(lowerMsg)) ==> r == LaughReply)
      && (!given || KeywordReply(groupName, lowerMsg).None? ==> r in PoolFor(groupName))
  {
  }

  /** The chatter pool follows the group name's first matching category, else the generic pool. */
  lemma PoolCategories(groupName: string)
    ensures var n := Lower(groupName);
      (IsMathName(n) ==> PoolFor(groupName) == MathReplies)
      && (!IsMathName(n) && IsScienceName(n) ==> PoolFor(groupName) == ScienceReplies)
      && (!IsMathName(n) && !IsScienceName(n) && IsHumanitiesName(n) ==> PoolFor(groupName) == HumanitiesReplies)
      && ((!IsMathName(n) && !IsScienceName(n) && !IsHumanitiesName(n) && IsCodeName(n))
          ==> PoolFor(groupName) == CodeReplies)
      && ((!IsMathName(n) && !IsScienceName(n) && !IsHumanitiesName(n) && !IsCodeName(n))
          ==> PoolFor(groupName) == GenericReplies)
  {
  }

  /** Every canned reply is a non-empty string. */
  lemma ContextualReplyNonEmpty(groupName: string, lastMessage: Option<string>, pick: nat)
    ensures |ContextualReply(groupName, lastMessage, pick)| > 0
  {
    var pool := PoolFor(groupName);
    PoolNonEmpty(groupName);
    assert pool[pick % |pool|] in pool;
  }

  /** No chatter line is empty. */
  lemma PoolNonEmpty(groupName: string)
    ensures forall r :: r in PoolFor(groupName) ==> |r| > 0
  {
    var lowerName := Lower(groupName);
    if IsMathName(lowerName) {
      MathNonEmpty();
    } else if IsScienceName(lowerName) {
      ScienceNonEmpty();
    } else if IsHumanitiesName(lowerName) {
      HumanitiesNonEmpty();
    } else if IsCodeName(lowerName) {
      CodeNonEmpty();
    } else {
      GenericNonEmpty();
    }
  }

  lemma MathNonEmpty() ensures forall i :: 0 <= i < |MathReplies| ==> |MathReplies[i]| > 0 { }
  lemma ScienceNonEmpty() ensures forall i :: 0 <= i < |ScienceReplies| ==> |ScienceReplies[i]| > 0 { }
  lemma HumanitiesNonEmpty() ensures forall i :: 0 <= i < |HumanitiesReplies| ==> |HumanitiesReplies[i]| > 0 { }
  lemma CodeNonEmpty() ensures forall i :: 0 <= i < |CodeReplies| ==> |CodeReplies[i]| > 0 { }
  lemma GenericNonEmpty() ensures forall i :: 0 <= i < |GenericReplies| ==> |GenericReplies[i]| > 0 { }

  /** Lower-casing keeps the length and maps each character. */
  lemma LowerAt(s: string, i: nat)
    requires i < |s|
    ensures |Lower(s)| == |s| && Lower(s)[i] == LowerChar(s[i])
  {
  }

  /**
    Because matching is by substring and greetings come first, a message that
    starts with "hey" gets the welcome line even when it asks for help.
   */
  lemma HeyStuckIsWelcomed(groupName: string, pick: nat)
    ensures ContextualReply(groupName, Some("hey is anyone stuck on derivatives"), pick) == WelcomeReply(groupName)
  {
    var msg := "hey is anyone stuck on derivatives";
    var low := Lower(msg);
    assert msg[0] == 'h' && msg[1] == 'e' && msg[2] == 'y';
    LowerAt(msg, 0);
    LowerAt(msg, 1);
    LowerAt(msg, 2);
    assert low[0] == 'h' && low[1] == 'e' && low[2] == 'y';
    assert low[0..3] == "hey";
    ContainsAt(low, "hey", 0);
  }

  /**
    Matching is by substring: "hi" anywhere in the lower-cased message (in
    "this", "which", "nothing") already selects the welcome line.
   */
  lemma HiAnywhereIsWelcomed(groupName: string, msg: string, j: nat, pick: nat)
    requires j + 2 <= |msg| && Lower(msg)[j..j + 2] == "hi"
    ensures ContextualReply(groupName, Some(msg), pick) == WelcomeReply(groupName)
  {
    ContainsAt(Lower(msg), "hi", j);
  }

  /** What the generative service gave back for a bot reply. */
  datatype AiOutcome = AiFailed | AiReturned(text: string)

  /**
    The reply text of `handleSendMessage` (App.tsx:1002-1011): the service's
    answer, or the canned reply to the user's message when the call threw or
    answered with an empty string. It is never empty.
   */
  function ReplyText(outcome: AiOutcome, groupName: string, content: string, pick: nat): (r: string)
    ensures |r| > 0
    ensures outcome.AiReturned? && |outcome.text| > 0 ==> r == outcome.text
    ensures outcome.AiFailed? || |outcome.text| == 0 ==> r == ContextualReply(groupName, Some(content), pick)
  {
    ContextualReplyNonEmpty(groupName, Some(content), pick);
    var first := if outcome.AiFailed? then ContextualReply(groupName, Some(content), pick) else outcome.text;
    if |first| == 0 then ContextualReply(groupName, Some(content), pick) else first
  }

  /**
    The bot that answers a user message (App.tsx:987-1000): in a group with
    other members, the first one whose name is the author of the message
    being replied to, else the one at the random index.
   */
  function ChooseReplier(members: seq<GroupMember>, localId: string, replyTo: Option<ReplyRef>, pick: nat): Option<GroupMember>
  {
    var others := OthersThan(members, localId);
    if |others| == 0 then None
    else
      var named := if replyTo.Some? && |replyTo.value.userName| > 0 then FirstNamed(others, replyTo.value.userName) else None;
      if named.Some? then named else Some(others[pick % |others|])
  }

  /** The test `m => m.userId !== localId`. */
  function IsOther(localId: string): GroupMember -> bool
  {
    (m: GroupMember) => m.userId != localId
  }

  /** The test `m => m.name === name`. */
  function HasName(name: string): GroupMember -> bool
  {
    (m: GroupMember) => m.name == name
  }

  /**
    `members.filter(m => m.userId !== localId)`: every member but the user,
    each as often as in the group and in the group's order (`Seqs.FilterConcat`).
   */
  function OthersThan(members: seq<GroupMember>, localId: string): (r: seq<GroupMember>)
    ensures forall m :: m in r <==> m in members && m.userId != localId
    ensures forall m :: multiset(r)[m] == if m.userId != localId then multiset(members)[m] else 0
  {
    Filter(members, IsOther(localId))
  }

  /** `members.find(m => m.name === name)` */
  function FirstNamed(members: seq<GroupMember>, name: string): (r: Option<GroupMember>)
    ensures r.Some? ==> r.value in members && r.value.name == name
    ensures r.Some? ==> exists k :: 0 <= k < |members| && members[k] == r.value && forall j :: 0 <= j < k ==> members[j].name != name
    ensures r.None? ==> forall m :: m in members ==> m.name != name
  {
    Find(members, HasName(name))
  }


  /**
    A replier exists exactly when the group has a member other than the user;
    it is always such a member, and when the replied-to author's name is
    among them it is the first of them, in the group's order, with that name.
   */
  lemma ChooseReplierSpec(members: seq<GroupMember>, localId: string, replyTo: Option<ReplyRef>, pick: nat)
    ensures var r := ChooseReplier(members, localId, replyTo, pick);
      (r.Some? <==> exists m :: m in members && m.userId != localId)
      && (r.Some? ==> r.value in members && r.value.userId != localId)
      && (replyTo.Some? && |replyTo.value.userName| > 0
          && (exists m :: m in members && m.userId != localId && m.name == replyTo.value.userName)
          ==> r.Some? && FirstOtherNamed(members, localId, replyTo.value.userName, r.value))
  {
    var others := OthersThan(members, localId);
    if |others| > 0 {
      assert others[pick % |others|] in others;
    }
    if replyTo.Some? && |replyTo.value.userName| > 0 {
      NamedAmongOthers(members, localId, replyTo.value.userName);
    }
  }

  /** `v` is the first member of the group, in its order, that is not the user and has the name. */
  ghost predicate FirstOtherNamed(members: seq<GroupMember>, localId: string, name: string, v: GroupMember)
  {
    exists k :: 0 <= k < |members| && members[k] == v && members[k].userId != localId && members[k].name == name
      && forall j :: 0 <= j < k ==> members[j].userId != localId ==> members[j].name != name
  }

  /**
    Looking a name up among the other members finds the first member of the
    whole group that is not the user and has it, and finds one exactly when
    such a member exists.
   */
  lemma NamedAmongOthers(members: seq<GroupMember>, localId: string, name: string)
    ensures var r := FirstNamed(OthersThan(members, localId), name);
      (r.Some? ==> FirstOtherNamed(members, localId, name, r.value))
      && (r.None? <==> forall m :: m in members ==> m.userId != localId ==> m.name != name)
  {
    var r := FirstNamed(OthersThan(members, localId), name);
    if r.Some? {
      FoundAmongOthers(members, localId, name, r.value);
    }
  }

  /** The member a name lookup among the other members finds comes first in the whole group. */
  lemma FoundAmongOthers(members: seq<GroupMember>, localId: string, name: string, v: GroupMember)
    requires FirstNamed(OthersThan(members, localId), name) == Some(v)
    ensures FirstOtherNamed(members, localId, name, v)
  {
    FindFilter(members, IsOther(localId), HasName(name));
    PassingIsOtherNamed(members, localId, name, v);
  }

  /** The first member passing both tests is the first other member with the name. */
  lemma PassingIsOtherNamed(members: seq<GroupMember>, localId: string, name: string, v: GroupMember)
    requires FirstPassing(members, IsOther(localId), HasName(name), v)
    ensures FirstOtherNamed(members, localId, name, v)
  {
    var p, q := IsOther(localId), HasName(name);
    var k := FirstPassingIndex(members, p, q, v);
    assert members[k].userId != localId && members[k].name == name;
    assert forall j :: 0 <= j < k ==> members[j].userId != localId ==> members[j].name != name;
  }
}

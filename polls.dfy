/**
  Group polls: the user's exclusive vote (`handleVotePoll`, App.tsx), the
  bots' votes of the chat tick, and the totals the poll card shows
  (`renderPoll`, GroupsView.tsx).
 */
module Polls {
  import opened Seqs
  import opened Model

  /** No user id is in the votes of two different options. */
  predicate Disjoint(a: seq<string>, b: seq<string>)
  {
    forall v :: v in a ==> v !in b
  }

  /**
    The shape the application keeps for every poll: distinct option ids, no
    vote recorded twice, and every voter in at most one option.
   */
  predicate PollOptionsValid(opts: seq<PollOption>)
  {
    (forall i, j :: 0 <= i < j < |opts| ==> opts[i].id != opts[j].id)
    && (forall i :: 0 <= i < |opts| ==> NoDup(opts[i].votes))
    && (forall i, j :: 0 <= i < |opts| && 0 <= j < |opts| && i != j ==> Disjoint(opts[i].votes, opts[j].votes))
  }

  /** `poll.options.some(opt => opt.votes.includes(uid))` */
  predicate HasVoted(opts: seq<PollOption>, uid: string)
  {
    exists i :: 0 <= i < |opts| && uid in opts[i].votes
  }

  /**
    `handleVotePoll` on one poll: the user's id is filtered out of every
    option's votes and appended to the chosen option's.
   */
  function VoteOptions(opts: seq<PollOption>, optionId: string, uid: string): (r: seq<PollOption>)
    ensures |r| == |opts|
  {
    seq(|opts|, i requires 0 <= i < |opts| =>
      var newVotes := Without(opts[i].votes, uid);
      if opts[i].id == optionId then opts[i].(votes := newVotes + [uid]) else opts[i].(votes := newVotes))
  }

  /** `handleVotePoll` on a group's polls: only the polls with the given id change. */
  function VotePolls(polls: seq<Poll>, pollId: string, optionId: string, uid: string): (r: seq<Poll>)
    ensures |r| == |polls|
  {
    seq(|polls|, i requires 0 <= i < |polls| =>
      if polls[i].id == pollId then polls[i].(options := VoteOptions(polls[i].options, optionId, uid)) else polls[i])
  }

  /**
    After a vote the user's id is in the chosen option exactly once and in no
    other option; every option keeps its id and text, and every other user's
    votes stay as they were, in order.
   */
  lemma VoteIsExclusive(opts: seq<PollOption>, optionId: string, uid: string)
    ensures var r := VoteOptions(opts, optionId, uid);
      forall i :: 0 <= i < |opts| ==>
        r[i].id == opts[i].id && r[i].text == opts[i].text
        && multiset(r[i].votes)[uid] == (if opts[i].id == optionId then 1 else 0)
        && Without(r[i].votes, uid) == Without(opts[i].votes, uid)
  {
    var r := VoteOptions(opts, optionId, uid);
    forall i | 0 <= i < |opts|
      ensures multiset(r[i].votes)[uid] == (if opts[i].id == optionId then 1 else 0)
      ensures Without(r[i].votes, uid) == Without(opts[i].votes, uid)
    {
      var newVotes := Without(opts[i].votes, uid);
      assert multiset(newVotes)[uid] == 0;
      if opts[i].id == optionId {
        WithoutAppended(newVotes, uid);
      }
    }
  }

  /** Voting keeps a poll well formed, and afterwards the user has voted exactly when the option exists. */
  lemma VoteKeepsPollValid(opts: seq<PollOption>, optionId: string, uid: string)
    requires PollOptionsValid(opts)
    ensures PollOptionsValid(VoteOptions(opts, optionId, uid))
    ensures HasVoted(VoteOptions(opts, optionId, uid), uid) <==> exists i :: 0 <= i < |opts| && opts[i].id == optionId
  {
    var r := VoteOptions(opts, optionId, uid);
    forall i | 0 <= i < |opts| ensures NoDup(r[i].votes) {
      if opts[i].id == optionId {
        AppendFresh(Without(opts[i].votes, uid), uid);
      }
    }
    forall i, j | 0 <= i < |opts| && 0 <= j < |opts| && i != j ensures Disjoint(r[i].votes, r[j].votes) {
      VoteDisjoint(opts, optionId, uid, i, j);
    }
    if exists i :: 0 <= i < |opts| && opts[i].id == optionId {
      var i :| 0 <= i < |opts| && opts[i].id == optionId;
      assert uid in r[i].votes;
    }
  }

  lemma VoteDisjoint(opts: seq<PollOption>, optionId: string, uid: string, i: nat, j: nat)
    requires PollOptionsValid(opts)
    requires i < |opts| && j < |opts| && i != j
    ensures var r := VoteOptions(opts, optionId, uid);
      Disjoint(r[i].votes, r[j].votes)
  {
    var r := VoteOptions(opts, optionId, uid);
    assert Disjoint(opts[i].votes, opts[j].votes);
    forall v | v in r[i].votes ensures v !in r[j].votes {
      if v != uid {
        assert v in Without(opts[i].votes, uid);
        assert v in opts[i].votes;
        assert v !in opts[j].votes;
        assert v !in Without(opts[j].votes, uid);
      }
    }
  }

  /**
    The bot vote of the chat tick: the voter is appended to the chosen option
    of the chosen poll, with no removal.
   */
  function BotVoteOptions(opts: seq<PollOption>, optionId: string, voter: string): (r: seq<PollOption>)
    ensures |r| == |opts|
  {
    seq(|opts|, i requires 0 <= i < |opts| =>
      if opts[i].id == optionId then opts[i].(votes := opts[i].votes + [voter]) else opts[i])
  }

  function BotVotePolls(polls: seq<Poll>, pollId: string, optionId: string, voter: string): (r: seq<Poll>)
    ensures |r| == |polls|
  {
    seq(|polls|, i requires 0 <= i < |polls| =>
      if polls[i].id == pollId then polls[i].(options := BotVoteOptions(polls[i].options, optionId, voter)) else polls[i])
  }

  /**
    A bot vote for a voter who has not voted keeps the poll well formed, and
    the voter ends up in exactly one option when the chosen option exists.
   */
  lemma BotVoteKeepsPollValid(opts: seq<PollOption>, optionId: string, voter: string)
    requires PollOptionsValid(opts) && !HasVoted(opts, voter)
    ensures PollOptionsValid(BotVoteOptions(opts, optionId, voter))
    ensures forall i :: 0 <= i < |opts| ==>
      multiset(BotVoteOptions(opts, optionId, voter)[i].votes)[voter] == if opts[i].id == optionId then 1 else 0
  {
    var r := BotVoteOptions(opts, optionId, voter);
    forall i | 0 <= i < |opts| ensures NoDup(r[i].votes) {
      if opts[i].id == optionId {
        AppendFresh(opts[i].votes, voter);
      }
    }
    forall i, j | 0 <= i < |opts| && 0 <= j < |opts| && i != j ensures Disjoint(r[i].votes, r[j].votes) {
      forall v | v in r[i].votes ensures v !in r[j].votes {
        if v != voter {
          assert v in opts[i].votes;
        }
      }
    }
    forall i | 0 <= i < |opts|
      ensures multiset(r[i].votes)[voter] == if opts[i].id == optionId then 1 else 0
    {
      assert voter !in opts[i].votes;
    }
  }

  /** `poll.options.reduce((acc, curr) => acc + curr.votes.length, 0)` */
  function TotalVotes(opts: seq<PollOption>): nat
  {
    if opts == [] then 0 else |opts[0].votes| + TotalVotes(opts[1..])
  }

  /** Two option lists with the same vote count, option by option, have the same total. */
  lemma {:induction false} TotalVotesPointwise(a: seq<PollOption>, b: seq<PollOption>)
    requires |a| == |b|
    requires forall i :: 0 <= i < |a| ==> |b[i].votes| == |a[i].votes|
    ensures TotalVotes(a) == TotalVotes(b)
    decreases |a|
  {
    if a != [] {
      TotalVotesPointwise(a[1..], b[1..]);
    }
  }

  /**
    The card's total after the user votes for an existing option: one more
    when the user had not voted, unchanged when the vote only moved.
   */
  lemma {:induction false} TotalAfterVote(opts: seq<PollOption>, optionId: string, uid: string)
    requires PollOptionsValid(opts)
    requires exists i :: 0 <= i < |opts| && opts[i].id == optionId
    ensures TotalVotes(VoteOptions(opts, optionId, uid)) == TotalVotes(opts) + (if HasVoted(opts, uid) then 0 else 1)
  {
    var r := VoteOptions(opts, optionId, uid);
    var c :| 0 <= c < |opts| && opts[c].id == optionId;
    VoteLengths(opts, optionId, uid, c);
    if HasVoted(opts, uid) {
      var v :| 0 <= v < |opts| && uid in opts[v].votes;
      VoterCounts(opts, uid, v);
      TotalMoved(opts, r, v, c);
    } else {
      forall i | 0 <= i < |opts| ensures multiset(opts[i].votes)[uid] == 0 {
        assert uid !in opts[i].votes;
      }
      TotalMoved(opts, r, -1, c);
    }
  }

  /** After the vote, each option lost the user's old votes and the chosen one gained one. */
  lemma VoteLengths(opts: seq<PollOption>, optionId: string, uid: string, c: nat)
    requires PollOptionsValid(opts)
    requires c < |opts| && opts[c].id == optionId
    ensures var r := VoteOptions(opts, optionId, uid);
      forall i :: 0 <= i < |opts| ==>
        |r[i].votes| == |opts[i].votes| - multiset(opts[i].votes)[uid] + (if i == c then 1 else 0)
  {
    var r := VoteOptions(opts, optionId, uid);
    forall i | 0 <= i < |opts| ensures |r[i].votes| == |opts[i].votes| - multiset(opts[i].votes)[uid] + (if i == c then 1 else 0) {
      WithoutLength(opts[i].votes, uid);
      if i != c {
        assert opts[i].id != optionId;
      }
    }
  }

  /** A voter found in option `v` is counted once there and nowhere else. */
  lemma VoterCounts(opts: seq<PollOption>, uid: string, v: nat)
    requires PollOptionsValid(opts)
    requires v < |opts| && uid in opts[v].votes
    ensures |opts[v].votes| >= 1
    ensures forall i :: 0 <= i < |opts| ==> multiset(opts[i].votes)[uid] == (if i == v then 1 else 0)
  {
    forall i | 0 <= i < |opts| ensures multiset(opts[i].votes)[uid] == (if i == v then 1 else 0) {
      if i == v {
        CountOnce(opts[v].votes, uid);
      } else {
        assert Disjoint(opts[v].votes, opts[i].votes);
        assert uid !in opts[i].votes;
      }
    }
  }

  /** Filtering out `x` shortens a list by the number of copies of `x`. */
  lemma {:induction false} WithoutLength(s: seq<string>, x: string)
    ensures |Without(s, x)| == |s| - multiset(s)[x]
    decreases |s|
  {
    if s != [] {
      WithoutLength(s[1..], x);
      assert s == [s[0]] + s[1..];
    }
  }

  /** A value in a duplicate-free list occurs once. */
  lemma {:induction false} CountOnce(s: seq<string>, x: string)
    requires NoDup(s) && x in s
    ensures multiset(s)[x] == 1
    decreases |s|
  {
    assert s == [s[0]] + s[1..];
    if s[0] == x {
      assert x !in s[1..];
    } else {
      CountOnce(s[1..], x);
    }
  }

  /**
    Totals when option `from` (or none, for -1) loses one vote and option `to`
    gains one, every other option keeping its count.
   */
  lemma {:induction false} TotalMoved(a: seq<PollOption>, b: seq<PollOption>, from: int, to: int)
    requires |a| == |b| && -1 <= from < |a| && 0 <= to < |a|
    requires from >= 0 ==> |a[from].votes| >= 1
    requires forall i :: 0 <= i < |a| ==>
      |b[i].votes| == |a[i].votes| - (if i == from then 1 else 0) + (if i == to then 1 else 0)
    ensures TotalVotes(b) == TotalVotes(a) + (if from >= 0 then 0 else 1)
    decreases |a|
  {
    assert a == [a[0]] + a[1..] && b == [b[0]] + b[1..];
    if |a| == 1 {
      assert TotalVotes(a[1..]) == 0 && TotalVotes(b[1..]) == 0;
    } else if to == 0 {
      if from > 0 {
        TotalOneLess(a[1..], b[1..], from - 1);
      } else {
        TotalVotesPointwise(a[1..], b[1..]);
      }
    } else {
      TotalMoved(a[1..], b[1..], if from > 0 then from - 1 else -1, to - 1);
    }
  }

  /** Totals when one option loses exactly one vote. */
  lemma {:induction false} TotalOneLess(a: seq<PollOption>, b: seq<PollOption>, from: int)
    requires |a| == |b| && 0 <= from < |a| && |a[from].votes| >= 1
    requires forall i :: 0 <= i < |a| ==> |b[i].votes| == |a[i].votes| - (if i == from then 1 else 0)
    ensures TotalVotes(b) + 1 == TotalVotes(a)
    decreases |a|
  {
    if from == 0 {
      TotalVotesPointwise(a[1..], b[1..]);
    } else {
      TotalOneLess(a[1..], b[1..], from - 1);
    }
  }
}

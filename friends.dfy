/**
  Friends and incoming friend requests (App.tsx:1208-1257): sending a
  request (auto-accepted), accepting and rejecting an incoming one.
 */
module Friends {
  import opened Base
  import opened Seqs
  import opened Model
  import opened Text

  /** `friends.some(f => f.id === id)` */
  predicate IsFriend(friends: seq<LeaderboardEntry>, id: string)
  {
    exists i :: 0 <= i < |friends| && friends[i].id == id
  }

  /** `friendRequests.some(r => r.fromUser.id === id)` */
  predicate HasRequestFrom(reqs: seq<FriendRequest>, id: string)
  {
    exists i :: 0 <= i < |reqs| && reqs[i].fromUser.id == id
  }

  /**
    No friend twice, no two pending requests from the same person, and no
    pending request from someone who is already a friend.
   */
  predicate FriendsValid(friends: seq<LeaderboardEntry>, reqs: seq<FriendRequest>)
  {
    (forall i, j :: 0 <= i < j < |friends| ==> friends[i].id != friends[j].id)
    && DistinctSenders(reqs)
    && (forall i :: 0 <= i < |reqs| ==> !IsFriend(friends, reqs[i].fromUser.id))
  }

  /**
    `friendId.substring(0, 4)`: the first four UTF-16 code units, which are
    the first four characters when the id stays in the Basic Multilingual
    Plane.
   */
  function Prefix4(s: string): (p: string)
    ensures |p| <= |s| && p == s[..|p|] && Utf16Length(p) <= 4
    ensures |p| < |s| ==> Utf16Length(p) + Utf16Width(s[|p|]) > 4
    ensures Bmp(s) ==> p == s[..Min(4, |s|)]
  {
    Utf16PrefixBmp(s, 4);
    Utf16Prefix(s, 4)
  }

  /** The entry `handleSendFriendRequest` adds; `minutesPick` stands for the random minutes. */
  function NewFriendById(friendId: string, minutesPick: nat): LeaderboardEntry
  {
    LeaderboardEntry(friendId, 0, "Friend " + Prefix4(friendId), minutesPick % 500, AvatarBase + friendId,
      Same, [5, 4, 3, 2, 1], false, true, Some("Friend"))
  }

  /**
    `handleSendFriendRequest`: the user's own id, an existing friend and a
    sender with a pending request are ignored; any other id becomes a friend.
   */
  function SendFriendRequest(friends: seq<LeaderboardEntry>, reqs: seq<FriendRequest>, userId: string,
                             friendId: string, minutesPick: nat): seq<LeaderboardEntry>
  {
    if friendId == userId then friends
    else if IsFriend(friends, friendId) then friends
    else if HasRequestFrom(reqs, friendId) then friends
    else friends + [NewFriendById(friendId, minutesPick)]
  }

  /**
    Sending either changes nothing (own id, existing friend, pending sender)
    or appends exactly one friend with that id, and the friend lists stay
    valid.
   */
  lemma SendFriendRequestSpec(friends: seq<LeaderboardEntry>, reqs: seq<FriendRequest>, userId: string,
                              friendId: string, minutesPick: nat)
    requires FriendsValid(friends, reqs)
    ensures var r := SendFriendRequest(friends, reqs, userId, friendId, minutesPick);
      FriendsValid(r, reqs)
      && (friendId == userId || IsFriend(friends, friendId) || HasRequestFrom(reqs, friendId) ==> r == friends)
      && (friendId != userId && !IsFriend(friends, friendId) && !HasRequestFrom(reqs, friendId) ==>
        |r| == |friends| + 1 && r[..|friends|] == friends && r[|friends|].id == friendId
        && r[|friends|].isFriend && 0 <= r[|friends|].minutes < 500)
  {
    var r := SendFriendRequest(friends, reqs, userId, friendId, minutesPick);
    if r != friends {
      forall i | 0 <= i < |reqs| ensures !IsFriend(r, reqs[i].fromUser.id) {
        assert !IsFriend(friends, reqs[i].fromUser.id);
        assert reqs[i].fromUser.id != friendId;
      }
    }
  }

  /** `friendRequests.find(r => r.id === id)` */
  function FindRequest(reqs: seq<FriendRequest>, id: string): (r: Option<FriendRequest>)
    ensures r.Some? ==> r.value in reqs && r.value.id == id
    ensures r.Some? ==> exists k :: 0 <= k < |reqs| && reqs[k] == r.value && forall j :: 0 <= j < k ==> reqs[j].id != id
    ensures r.None? ==> forall q :: q in reqs ==> q.id != id
  {
    Find(reqs, (q: FriendRequest) => q.id == id)
  }


  /** `friendRequests.filter(r => r.id !== id)` */
  function DropRequest(reqs: seq<FriendRequest>, id: string): (r: seq<FriendRequest>)
    ensures forall q :: q in r <==> q in reqs && q.id != id
    ensures |r| <= |reqs|
    decreases |reqs|
  {
    if reqs == [] then []
    else (if reqs[0].id == id then [] else [reqs[0]]) + DropRequest(reqs[1..], id)
  }

  /** Distinct senders, the property `FriendsValid` asks of the pending requests. */
  predicate DistinctSenders(reqs: seq<FriendRequest>)
  {
    forall i, j :: 0 <= i < j < |reqs| ==> reqs[i].fromUser.id != reqs[j].fromUser.id
  }

  lemma ConsDistinct(x: FriendRequest, rest: seq<FriendRequest>)
    requires DistinctSenders(rest)
    requires forall q :: q in rest ==> q.fromUser.id != x.fromUser.id
    ensures DistinctSenders([x] + rest)
  {
    var r := [x] + rest;
    forall i, j | 0 <= i < j < |r| ensures r[i].fromUser.id != r[j].fromUser.id {
      assert r[j] == rest[j - 1];
      if i > 0 {
        assert r[i] == rest[i - 1];
      } else {
        assert rest[j - 1] in rest;
      }
    }
  }

  /** Filtering keeps the surviving requests in their order, so distinct senders stay distinct. */
  lemma {:induction false} DropRequestKeepsSenders(reqs: seq<FriendRequest>, id: string)
    requires DistinctSenders(reqs)
    ensures DistinctSenders(DropRequest(reqs, id))
    decreases |reqs|
  {
    if reqs != [] {
      DropRequestKeepsSenders(reqs[1..], id);
      var rest := DropRequest(reqs[1..], id);
      forall q | q in rest ensures q.fromUser.id != reqs[0].fromUser.id {
        var k :| 0 <= k < |reqs[1..]| && reqs[1..][k] == q;
        assert reqs[k + 1] == q;
      }
      if reqs[0].id != id {
        ConsDistinct(reqs[0], rest);
      }
    }
  }

  /** The friend entry `handleAcceptFriendRequest` builds from a request. */
  function FriendFromRequest(req: FriendRequest, minutesPick: nat): LeaderboardEntry
  {
    LeaderboardEntry(req.fromUser.id, 0, req.fromUser.name, minutesPick % 500, req.fromUser.avatar,
      Same, [5, 4, 3, 2, 1], false, true, Some(req.fromUser.region))
  }

  /** `handleAcceptFriendRequest`: an unknown request id changes nothing. */
  function AcceptRequest(friends: seq<LeaderboardEntry>, reqs: seq<FriendRequest>, requestId: string,
                         minutesPick: nat): (seq<LeaderboardEntry>, seq<FriendRequest>)
  {
    match FindRequest(reqs, requestId)
    case None => (friends, reqs)
    case Some(req) => (friends + [FriendFromRequest(req, minutesPick)], DropRequest(reqs, requestId))
  }

  /** `handleRejectFriendRequest` */
  function RejectRequest(reqs: seq<FriendRequest>, requestId: string): seq<FriendRequest>
  {
    DropRequest(reqs, requestId)
  }

  /**
    Accepting a known request makes its sender a friend (appended once) and
    removes every request with that id, keeping the others; the lists stay
    valid, so the new friend was not a friend before.
   */
  lemma AcceptRequestSpec(friends: seq<LeaderboardEntry>, reqs: seq<FriendRequest>, requestId: string, minutesPick: nat)
    requires FriendsValid(friends, reqs)
    ensures var (f, q) := AcceptRequest(friends, reqs, requestId, minutesPick);
      FriendsValid(f, q)
      && (forall x :: x in q <==> x in reqs && x.id != requestId)
      && ((forall x :: x in reqs ==> x.id != requestId) ==> f == friends && q == reqs)
      && (forall x :: x in reqs && x.id == requestId ==>
            |f| == |friends| + 1 && f[..|friends|] == friends && IsFriend(f, FindRequest(reqs, requestId).value.fromUser.id))
  {
    var found := FindRequest(reqs, requestId);
    if found.Some? {
      var req := found.value;
      AcceptKeepsValid(friends, reqs, req, minutesPick);
      var f := friends + [FriendFromRequest(req, minutesPick)];
      assert f[|friends|].id == req.fromUser.id;
    }
  }

  /** The sender of a pending request becomes a friend that no remaining request comes from. */
  lemma AcceptKeepsValid(friends: seq<LeaderboardEntry>, reqs: seq<FriendRequest>, req: FriendRequest, minutesPick: nat)
    requires FriendsValid(friends, reqs) && req in reqs
    ensures FriendsValid(friends + [FriendFromRequest(req, minutesPick)], DropRequest(reqs, req.id))
  {
    var f := friends + [FriendFromRequest(req, minutesPick)];
    var q := DropRequest(reqs, req.id);
    var k :| 0 <= k < |reqs| && reqs[k] == req;
    assert !IsFriend(friends, req.fromUser.id);
    DropRequestKeepsSenders(reqs, req.id);
    forall i | 0 <= i < |q| ensures !IsFriend(f, q[i].fromUser.id) {
      assert q[i] in q;
      var j :| 0 <= j < |reqs| && reqs[j] == q[i];
      assert j != k;
      assert !IsFriend(friends, reqs[j].fromUser.id);
    }
  }

  /** Rejecting removes every request with that id, keeps the rest, and leaves the lists valid. */
  lemma RejectRequestSpec(friends: seq<LeaderboardEntry>, reqs: seq<FriendRequest>, requestId: string)
    requires FriendsValid(friends, reqs)
    ensures var q := RejectRequest(reqs, requestId);
      FriendsValid(friends, q) && |q| <= |reqs| && forall x :: x in q <==> x in reqs && x.id != requestId
  {
    var q := RejectRequest(reqs, requestId);
    assert q == DropRequest(reqs, requestId);
    DropRequestKeepsSenders(reqs, requestId);
    forall i | 0 <= i < |q| ensures !IsFriend(friends, q[i].fromUser.id) {
      assert q[i] in q;
      var j :| 0 <= j < |reqs| && reqs[j] == q[i];
    }
  }
}

/**
  Emoji reactions on a chat message (`handleToggleReaction`, App.tsx, and the
  simulated reactions of the chat tick). A message keeps a list of
  `{emoji, userIds}` entries; the code always works on the first entry with a
  given emoji.
 */
module Reactions {
  import opened Seqs
  import opened Model

  /** `reactions.findIndex(r => r.emoji === emoji)` */
  function FindReaction(rs: seq<Reaction>, emoji: string): (k: int)
    ensures -1 <= k < |rs|
    ensures k >= 0 ==> rs[k].emoji == emoji
    ensures forall j :: 0 <= j < |rs| && (k == -1 || j < k) ==> rs[j].emoji != emoji
  {
    FirstIndex(rs, (r: Reaction) => r.emoji == emoji)
  }


  /** The first entry with `emoji` is the one `FindReaction` returns. */
  lemma FindReactionAt(rs: seq<Reaction>, emoji: string, j: int)
    requires 0 <= j < |rs| && rs[j].emoji == emoji
    requires forall i :: 0 <= i < j ==> rs[i].emoji != emoji
    ensures FindReaction(rs, emoji) == j
  {
  }

  /** The users shown under `emoji`: those of its first entry, or nobody. */
  function UsersOf(rs: seq<Reaction>, emoji: string): seq<string>
  {
    var k := FindReaction(rs, emoji);
    if k >= 0 then rs[k].userIds else []
  }

  /**
    The shape every reaction list the application builds has: one entry per
    emoji, each naming at least one user, none twice.
   */
  predicate ReactionsValid(rs: seq<Reaction>)
  {
    (forall i, j :: 0 <= i < j < |rs| ==> rs[i].emoji != rs[j].emoji)
    && forall i :: 0 <= i < |rs| ==> rs[i].userIds != [] && NoDup(rs[i].userIds)
  }

  /**
    `handleToggleReaction` on one message: remove the user from the emoji's
    entry (dropping the entry once nobody is left), add the user to an
    existing entry, or append a new entry for the user.
   */
  function ToggleReaction(rs: seq<Reaction>, emoji: string, uid: string): seq<Reaction>
  {
    var k := FindReaction(rs, emoji);
    if k > -1 then
      var existing := rs[k];
      if uid in existing.userIds then
        var ids := Without(existing.userIds, uid);
        if |ids| == 0 then rs[..k] + rs[k + 1..]
        else rs[k := existing.(userIds := ids)]
      else rs[k := existing.(userIds := existing.userIds + [uid])]
    else rs + [Reaction(emoji, [uid])]
  }

  /**
    The simulated reaction of the chat tick: it only ever adds the reactor to
    the emoji's entry; a reactor already there leaves the list as it was.
   */
  function AddReaction(rs: seq<Reaction>, emoji: string, uid: string): seq<Reaction>
  {
    var k := FindReaction(rs, emoji);
    if k > -1 then
      if uid !in rs[k].userIds then rs[k := rs[k].(userIds := rs[k].userIds + [uid])]
      else rs
    else rs + [Reaction(emoji, [uid])]
  }

  /** Replacing the users of entry `k` (keeping its emoji) changes `UsersOf` for that emoji only. */
  lemma {:induction false} ReplaceUsers(rs: seq<Reaction>, k: int, ids: seq<string>)
    requires 0 <= k < |rs| && FindReaction(rs, rs[k].emoji) == k
    ensures UsersOf(rs[k := rs[k].(userIds := ids)], rs[k].emoji) == ids
    ensures forall e :: e != rs[k].emoji ==> UsersOf(rs[k := rs[k].(userIds := ids)], e) == UsersOf(rs, e)
  {
    var r := rs[k := rs[k].(userIds := ids)];
    FindReactionAt(r, rs[k].emoji, k);
    forall e | e != rs[k].emoji ensures UsersOf(r, e) == UsersOf(rs, e) {
      var j := FindReaction(rs, e);
      if j >= 0 {
        FindReactionAt(r, e, j);
      } else {
        assert forall i :: 0 <= i < |r| ==> r[i].emoji != e;
      }
    }
  }

  /** Dropping the entry at `k` empties its emoji and leaves the other emojis alone. */
  lemma {:induction false} DropEntry(rs: seq<Reaction>, k: int)
    requires ReactionsValid(rs) && 0 <= k < |rs|
    ensures UsersOf(rs[..k] + rs[k + 1..], rs[k].emoji) == []
    ensures forall e :: e != rs[k].emoji ==> UsersOf(rs[..k] + rs[k + 1..], e) == UsersOf(rs, e)
  {
    var r := rs[..k] + rs[k + 1..];
    assert forall i :: 0 <= i < |r| ==> r[i] == if i < k then rs[i] else rs[i + 1];
    forall e | e != rs[k].emoji ensures UsersOf(r, e) == UsersOf(rs, e) {
      var j := FindReaction(rs, e);
      if 0 <= j < k {
        FindReactionAt(r, e, j);
      } else if j > k {
        FindReactionAt(r, e, j - 1);
      } else {
        assert forall i :: 0 <= i < |r| ==> r[i].emoji != e;
      }
    }
  }

  /** Appending an entry for an emoji that had none. */
  lemma {:induction false} AppendEntry(rs: seq<Reaction>, emoji: string, uid: string)
    requires FindReaction(rs, emoji) == -1
    ensures UsersOf(rs + [Reaction(emoji, [uid])], emoji) == [uid]
    ensures forall e :: e != emoji ==> UsersOf(rs + [Reaction(emoji, [uid])], e) == UsersOf(rs, e)
  {
    var r := rs + [Reaction(emoji, [uid])];
    FindReactionAt(r, emoji, |rs|);
    forall e | e != emoji ensures UsersOf(r, e) == UsersOf(rs, e) {
      var j := FindReaction(rs, e);
      if j >= 0 {
        FindReactionAt(r, e, j);
      } else {
        assert forall i :: 0 <= i < |r| ==> r[i].emoji != e;
      }
    }
  }

  /**
    Toggling flips the user's reaction under `emoji`: a user who had reacted
    is removed and the other reactors stay in order, a user who had not is
    appended. No other emoji's reactors change.
   */
  lemma {:induction false} ToggleReactionFlips(rs: seq<Reaction>, emoji: string, uid: string)
    requires ReactionsValid(rs)
    ensures var before := UsersOf(rs, emoji);
      UsersOf(ToggleReaction(rs, emoji, uid), emoji)
        == if uid in before then Without(before, uid) else before + [uid]
    ensures forall e :: e != emoji ==> UsersOf(ToggleReaction(rs, emoji, uid), e) == UsersOf(rs, e)
  {
    var k := FindReaction(rs, emoji);
    if k > -1 {
      var existing := rs[k];
      if uid in existing.userIds {
        var ids := Without(existing.userIds, uid);
        if |ids| == 0 {
          assert ToggleReaction(rs, emoji, uid) == rs[..k] + rs[k + 1..];
          DropEntry(rs, k);
        } else {
          assert ToggleReaction(rs, emoji, uid) == rs[k := existing.(userIds := ids)];
          ReplaceUsers(rs, k, ids);
        }
      } else {
        assert ToggleReaction(rs, emoji, uid) == rs[k := existing.(userIds := existing.userIds + [uid])];
        ReplaceUsers(rs, k, existing.userIds + [uid]);
      }
    } else {
      AppendEntry(rs, emoji, uid);
    }
  }

  /** Toggling keeps the reaction list's shape. */
  lemma ToggleReactionValid(rs: seq<Reaction>, emoji: string, uid: string)
    requires ReactionsValid(rs)
    ensures ReactionsValid(ToggleReaction(rs, emoji, uid))
  {
    var k := FindReaction(rs, emoji);
    var r := ToggleReaction(rs, emoji, uid);
    if k > -1 {
      var existing := rs[k];
      if uid in existing.userIds {
        var ids := Without(existing.userIds, uid);
        if |ids| == 0 {
          assert forall i :: 0 <= i < |r| ==> r[i] == if i < k then rs[i] else rs[i + 1];
        }
      } else {
        AppendFresh(existing.userIds, uid);
      }
    }
  }

  /** Toggling twice, starting from "not reacted", restores the reaction list exactly. */
  lemma {:induction false} ToggleTwiceRestores(rs: seq<Reaction>, emoji: string, uid: string)
    requires ReactionsValid(rs)
    requires uid !in UsersOf(rs, emoji)
    ensures ToggleReaction(ToggleReaction(rs, emoji, uid), emoji, uid) == rs
  {
    var k := FindReaction(rs, emoji);
    var once := ToggleReaction(rs, emoji, uid);
    if k > -1 {
      var existing := rs[k];
      FindReactionAt(once, emoji, k);
      WithoutAppended(existing.userIds, uid);
      assert once[k].userIds == existing.userIds + [uid];
      assert once[k := existing] == rs;
    } else {
      FindReactionAt(once, emoji, |rs|);
      assert Without([uid], uid) == [];
      assert once[..|rs|] + once[|rs| + 1..] == rs;
    }
  }

  /**
    The simulated reaction leaves the reactor under `emoji` (appended when new),
    changes no other emoji, keeps the list's shape, and a second identical
    reaction changes nothing.
   */
  lemma {:induction false} AddReactionAdds(rs: seq<Reaction>, emoji: string, uid: string)
    requires ReactionsValid(rs)
    ensures var before := UsersOf(rs, emoji);
      UsersOf(AddReaction(rs, emoji, uid), emoji) == if uid in before then before else before + [uid]
    ensures forall e :: e != emoji ==> UsersOf(AddReaction(rs, emoji, uid), e) == UsersOf(rs, e)
    ensures ReactionsValid(AddReaction(rs, emoji, uid))
    ensures AddReaction(AddReaction(rs, emoji, uid), emoji, uid) == AddReaction(rs, emoji, uid)
  {
    var k := FindReaction(rs, emoji);
    if k > -1 {
      if uid !in rs[k].userIds {
        AddToEntry(rs, k, uid);
        var r := AddReaction(rs, emoji, uid);
        assert r == rs[k := rs[k].(userIds := rs[k].userIds + [uid])];
        assert FindReaction(r, emoji) == k && uid in r[k].userIds;
      }
    } else {
      AddNewEntry(rs, emoji, uid);
    }
  }

  /** Adding a new reactor to the first entry of its emoji keeps that entry first and the list well formed. */
  lemma AddToEntry(rs: seq<Reaction>, k: int, uid: string)
    requires ReactionsValid(rs) && 0 <= k < |rs| && FindReaction(rs, rs[k].emoji) == k && uid !in rs[k].userIds
    ensures var r := rs[k := rs[k].(userIds := rs[k].userIds + [uid])];
      UsersOf(r, rs[k].emoji) == rs[k].userIds + [uid]
      && (forall e :: e != rs[k].emoji ==> UsersOf(r, e) == UsersOf(rs, e))
      && ReactionsValid(r) && FindReaction(r, rs[k].emoji) == k
  {
    var r := rs[k := rs[k].(userIds := rs[k].userIds + [uid])];
    ReplaceUsers(rs, k, rs[k].userIds + [uid]);
    AppendFresh(rs[k].userIds, uid);
    FindReactionAt(r, rs[k].emoji, k);
  }

  /** A new entry for an emoji without one: the list stays well formed, and the entry is the emoji's first. */
  lemma AddNewEntry(rs: seq<Reaction>, emoji: string, uid: string)
    requires ReactionsValid(rs) && FindReaction(rs, emoji) == -1
    ensures var r := rs + [Reaction(emoji, [uid])];
      UsersOf(r, emoji) == [uid]
      && (forall e :: e != emoji ==> UsersOf(r, e) == UsersOf(rs, e))
      && ReactionsValid(r) && FindReaction(r, emoji) == |rs|
  {
    AppendEntry(rs, emoji, uid);
    FindReactionAt(rs + [Reaction(emoji, [uid])], emoji, |rs|);
  }
}

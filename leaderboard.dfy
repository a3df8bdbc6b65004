/**
  The leaderboard of components/Leaderboard.tsx: the effect that merges the
  world entries with the friends and the current user, filters by category,
  sorts by minutes and numbers the ranks; the mock rank history; and the
  check of the add-friend form.
 */
module Leaderboard {
  import opened Base
  import opened Seqs
  import opened Text
  import opened Model

  datatype Category = World | Regional | Friends

  /** `combined.some(e => e.id === id)` */
  predicate HasId(es: seq<LeaderboardEntry>, id: string)
  {
    exists i :: 0 <= i < |es| && es[i].id == id
  }

  predicate UniqueIds(es: seq<LeaderboardEntry>)
  {
    forall i, j :: 0 <= i < j < |es| ==> es[i].id != es[j].id
  }

  // ---------------------------------------------------------------- merge

  /** The friends loop of Leaderboard.tsx:82-87 as a left fold: a friend whose id is new is pushed. */
  function MergeFriends(combined: seq<LeaderboardEntry>, fs: seq<LeaderboardEntry>): seq<LeaderboardEntry>
    decreases |fs|
  {
    if fs == [] then combined
    else MergeFriends(if HasId(combined, fs[0].id) then combined else combined + [fs[0]], fs[1..])
  }

  /**
    Merging keeps the world entries in front, unchanged; every entry after
    them is a friend whose id was not there before; every friend's id ends
    up present; and unique ids stay unique.
   */
  lemma {:induction false} MergeFriendsSpec(base: seq<LeaderboardEntry>, fs: seq<LeaderboardEntry>)
    ensures var r := MergeFriends(base, fs);
      |r| >= |base| && r[..|base|] == base
      && (forall i :: |base| <= i < |r| ==> r[i] in fs && !HasId(base, r[i].id))
      && (forall f :: f in fs ==> HasId(r, f.id))
      && (UniqueIds(base) ==> UniqueIds(r))
    decreases |fs|
  {
    if fs != [] {
      var next := if HasId(base, fs[0].id) then base else base + [fs[0]];
      MergeFriendsSpec(next, fs[1..]);
      var r := MergeFriends(base, fs);
      assert r == MergeFriends(next, fs[1..]);
      assert r[..|base|] == base by {
        assert r[..|next|][..|base|] == r[..|base|];
        assert next[..|base|] == base;
      }
      forall i | |base| <= i < |r| ensures r[i] in fs && !HasId(base, r[i].id) {
        if i < |next| {
          assert next != base && r[i] == next[i] == fs[0];
        } else {
          assert r[i] in fs[1..];
          assert !HasId(next, r[i].id);
        }
      }
      forall f | f in fs ensures HasId(r, f.id) {
        if f == fs[0] {
          if HasId(base, f.id) {
            var j :| 0 <= j < |base| && base[j].id == f.id;
            assert r[j] == base[j];
          } else {
            assert r[|base|] == next[|base|] == f;
          }
        } else {
          assert f in fs[1..];
        }
      }
      if UniqueIds(base) {
        if next != base {
          forall i, j | 0 <= i < j < |next| ensures next[i].id != next[j].id {
            if j == |base| {
              assert next[i] == base[i];
            }
          }
        }
      }
    }
  }

  /** The current user's own entry. */
  function Me(profile: UserProfile, minutes: int): LeaderboardEntry
  {
    LeaderboardEntry(profile.id, 0, profile.name, minutes, profile.avatar, Same, [], true, false, Some(profile.region))
  }

  /** `combined.findIndex(e => e.isCurrentUser || e.id === userProfile.id)` */
  function FindMe(es: seq<LeaderboardEntry>, id: string): (k: int)
    ensures -1 <= k < |es|
    ensures k >= 0 ==> (es[k].isCurrentUser || es[k].id == id)
    ensures forall i :: 0 <= i < |es| && (k == -1 || i < k) ==> !es[i].isCurrentUser && es[i].id != id
  {
    FirstIndex(es, (e: LeaderboardEntry) => e.isCurrentUser || e.id == id)
  }


  /**
    "Update or Add Me" (Leaderboard.tsx:102-108): the first entry that is the
    user becomes the user's entry (`{ ...entry, ...me }` keeps only the
    entry's `isFriend`), or the user's entry is appended.
   */
  function PlaceMe(es: seq<LeaderboardEntry>, profile: UserProfile, minutes: int): seq<LeaderboardEntry>
  {
    var k := FindMe(es, profile.id);
    if k == -1 then es + [Me(profile, minutes)]
    else es[k := Me(profile, minutes).(isFriend := es[k].isFriend)]
  }

  /** After placing, the user is at index `k` with the current minutes, and every other entry is untouched. */
  lemma PlaceMeSpec(es: seq<LeaderboardEntry>, profile: UserProfile, minutes: int)
    ensures var r := PlaceMe(es, profile, minutes);
      var k := FindMe(es, profile.id);
      var at := if k == -1 then |es| else k;
      |r| == (if k == -1 then |es| + 1 else |es|)
      && r[at].id == profile.id && r[at].isCurrentUser && r[at].minutes == minutes
      && r[at].name == profile.name && r[at].region == Some(profile.region) && r[at].rankHistory == []
      && (forall i :: 0 <= i < |es| && i != at ==> r[i] == es[i])
  {
  }

  // ---------------------------------------------------------------- filter, sort and rank

  /** The category filter of Leaderboard.tsx:113-117. */
  predicate Keeps(cat: Category, region: string, e: LeaderboardEntry)
  {
    match cat
    case World => true
    case Regional => e.isCurrentUser || e.region == Some(region) || e.isFriend
    case Friends => e.isCurrentUser || e.isFriend
  }

  function FilterCategory(es: seq<LeaderboardEntry>, cat: Category, region: string): (r: seq<LeaderboardEntry>)
    ensures forall e :: e in r <==> e in es && Keeps(cat, region, e)
    ensures |r| <= |es|
    decreases |es|
  {
    if es == [] then []
    else (if Keeps(cat, region, es[0]) then [es[0]] else []) + FilterCategory(es[1..], cat, region)
  }

  /** The world view keeps every entry, in order. */
  lemma {:induction false} WorldKeepsAll(es: seq<LeaderboardEntry>, region: string)
    ensures FilterCategory(es, World, region) == es
    decreases |es|
  {
    if es != [] {
      WorldKeepsAll(es[1..], region);
    }
  }

  /** The user's own entry survives every filter. */
  lemma UserSurvivesFilters(es: seq<LeaderboardEntry>, cat: Category, region: string, e: LeaderboardEntry)
    requires e in es && e.isCurrentUser
    ensures e in FilterCategory(es, cat, region)
  {
  }

  /** `d` is, but for its rank, an entry of `pool`. */
  predicate Reranked(d: LeaderboardEntry, pool: seq<LeaderboardEntry>)
  {
    exists e :: e in pool && d == e.(rank := d.rank)
  }

  /** `filtered.map((entry, idx) => ({ ...entry, rank: idx + 1 }))` */
  function Rank(s: seq<LeaderboardEntry>): seq<LeaderboardEntry>
  {
    seq(|s|, i requires 0 <= i < |s| => s[i].(rank := i + 1))
  }

  function Minutes(e: LeaderboardEntry): int { e.minutes }

  /** The effect of Leaderboard.tsx:77-125, as one function of its inputs. */
  function Display(world: seq<LeaderboardEntry>, friends: seq<LeaderboardEntry>, profile: UserProfile,
                   minutes: int, cat: Category): seq<LeaderboardEntry>
  {
    Rank(SortDesc(FilterCategory(Combined(world, friends, profile, minutes), cat, profile.region), Minutes))
  }

  /** The merged list with the user's entry, before filtering. */
  function Combined(world: seq<LeaderboardEntry>, friends: seq<LeaderboardEntry>, profile: UserProfile,
                    minutes: int): seq<LeaderboardEntry>
  {
    PlaceMe(MergeFriends(world, friends), profile, minutes)
  }

  /**
    What a displayed list promises about the pool it is built from: it is
    non-increasing in minutes and ranked 1..n in display order; each entry
    is, but for its rank, an entry of the pool that the category keeps; the
    user is among them with the given minutes; and with ranks cleared it
    holds every entry the category keeps, exactly as often.
   */
  predicate RankedDisplayOf(d: seq<LeaderboardEntry>, pool: seq<LeaderboardEntry>, cat: Category, region: string,
                            id: string, mins: int)
  {
    RankedFrom(d, pool, cat, region, id, mins)
    && multiset(Unranked(d)) == multiset(Unranked(FilterCategory(pool, cat, region)))
  }

  /** All of the above but the multiset of entries. */
  predicate RankedFrom(d: seq<LeaderboardEntry>, pool: seq<LeaderboardEntry>, cat: Category, region: string,
                       id: string, mins: int)
  {
    (forall i, j :: 0 <= i < j < |d| ==> d[i].minutes >= d[j].minutes)
    && (forall i :: 0 <= i < |d| ==> d[i].rank == i + 1)
    && (forall i :: 0 <= i < |d| ==> Reranked(d[i], pool) && Keeps(cat, region, d[i]))
    && (exists i :: 0 <= i < |d| && d[i].id == id && d[i].isCurrentUser && d[i].minutes == mins)
  }

  /** The displayed list keeps those promises about the merged list with the user's entry. */
  lemma DisplaySpec(world: seq<LeaderboardEntry>, friends: seq<LeaderboardEntry>, profile: UserProfile,
                    minutes: int, cat: Category)
    ensures RankedDisplayOf(Display(world, friends, profile, minutes, cat), Combined(world, friends, profile, minutes),
                            cat, profile.region, profile.id, minutes)
  {
    var me := UserInCombined(world, friends, profile, minutes);
    RankedView(Combined(world, friends, profile, minutes), cat, profile.region, me, profile.id, minutes);
  }

  /** The ranked view of any pool keeps those promises, the user's entry being one of the pool. */
  lemma RankedView(pool: seq<LeaderboardEntry>, cat: Category, region: string, me: LeaderboardEntry, id: string, mins: int)
    requires me in pool && me.isCurrentUser && me.id == id && me.minutes == mins
    ensures RankedDisplayOf(Rank(SortDesc(FilterCategory(pool, cat, region), Minutes)), pool, cat, region, id, mins)
  {
    var sorted := SortDesc(FilterCategory(pool, cat, region), Minutes);
    SortedKept(pool, cat, region, me);
    RankedOf(sorted, pool, cat, region, me, id, mins);
    RankedViewUnranked(pool, cat, region);
  }

  /** The sorted view holds only kept entries of the pool, and the user's entry among them. */
  lemma SortedKept(pool: seq<LeaderboardEntry>, cat: Category, region: string, me: LeaderboardEntry)
    requires me in pool && me.isCurrentUser
    ensures var sorted := SortDesc(FilterCategory(pool, cat, region), Minutes);
      me in sorted && forall x :: x in sorted ==> x in pool && Keeps(cat, region, x)
  {
    var filtered := FilterCategory(pool, cat, region);
    var sorted := SortDesc(filtered, Minutes);
    SortedFromPool(pool, filtered, sorted, cat, region);
    UserSurvivesFilters(pool, cat, region, me);
    assert me in multiset(filtered);
  }

  /** Ranking a sorted list of kept entries of the pool, one of them the user's. */
  lemma RankedOf(s: seq<LeaderboardEntry>, pool: seq<LeaderboardEntry>, cat: Category, region: string, me: LeaderboardEntry,
                 id: string, mins: int)
    requires SortedDesc(s, Minutes) && me in s && me.isCurrentUser && me.id == id && me.minutes == mins
    requires forall x :: x in s ==> x in pool && Keeps(cat, region, x)
    ensures RankedFrom(Rank(s), pool, cat, region, id, mins)
  {
    RankSpec(s);
    RankedFromPool(s, pool, cat, region);
    RankFinds(s, me);
    var i :| 0 <= i < |Rank(s)| && Rank(s)[i] == me.(rank := i + 1);
    assert Rank(s)[i].id == me.id && Rank(s)[i].isCurrentUser && Rank(s)[i].minutes == me.minutes;
  }

  /** With ranks cleared, the ranked view holds the kept entries of the pool, each as often. */
  lemma RankedViewUnranked(pool: seq<LeaderboardEntry>, cat: Category, region: string)
    ensures multiset(Unranked(Rank(SortDesc(FilterCategory(pool, cat, region), Minutes))))
         == multiset(Unranked(FilterCategory(pool, cat, region)))
  {
    var filtered := FilterCategory(pool, cat, region);
    var sorted := SortDesc(filtered, Minutes);
    UnrankedRank(sorted);
    UnrankedPerm(sorted, filtered);
  }

  function ClearRank(e: LeaderboardEntry): LeaderboardEntry
  {
    e.(rank := 0)
  }

  /** The entries with their ranks cleared, so that lists can be compared whatever their ranks. */
  function Unranked(s: seq<LeaderboardEntry>): seq<LeaderboardEntry>
  {
    Map(s, ClearRank)
  }

  /** Ranking changes nothing but the ranks. */
  lemma UnrankedRank(s: seq<LeaderboardEntry>)
    ensures Unranked(Rank(s)) == Unranked(s)
  {
    var r := Rank(s);
    forall i | 0 <= i < |s| ensures Unranked(r)[i] == Unranked(s)[i] {
      MapAt(r, ClearRank, i);
      MapAt(s, ClearRank, i);
    }
  }

  /** Lists with the same entries, each as often, have the same entries once their ranks are cleared. */
  lemma UnrankedPerm(a: seq<LeaderboardEntry>, b: seq<LeaderboardEntry>)
    requires multiset(a) == multiset(b)
    ensures multiset(Unranked(a)) == multiset(Unranked(b))
  {
    MapPerm(a, b, ClearRank);
  }

  /** The merged list holds the user's entry with the current minutes. */
  lemma UserInCombined(world: seq<LeaderboardEntry>, friends: seq<LeaderboardEntry>, profile: UserProfile,
                       minutes: int) returns (me: LeaderboardEntry)
    ensures me in Combined(world, friends, profile, minutes)
    ensures me.id == profile.id && me.isCurrentUser && me.minutes == minutes
  {
    var merged := MergeFriends(world, friends);
    PlaceMeSpec(merged, profile, minutes);
    var k := FindMe(merged, profile.id);
    me := PlaceMe(merged, profile, minutes)[if k == -1 then |merged| else k];
  }

  lemma SortedFromPool(pool: seq<LeaderboardEntry>, filtered: seq<LeaderboardEntry>, sorted: seq<LeaderboardEntry>,
                       cat: Category, region: string)
    requires filtered == FilterCategory(pool, cat, region) && multiset(sorted) == multiset(filtered)
    ensures forall x :: x in sorted ==> x in pool && Keeps(cat, region, x)
  {
    forall x | x in sorted ensures x in pool && Keeps(cat, region, x) {
      assert x in multiset(filtered);
    }
  }

  lemma RankedFromPool(s: seq<LeaderboardEntry>, pool: seq<LeaderboardEntry>, cat: Category, region: string)
    requires forall x :: x in s ==> x in pool && Keeps(cat, region, x)
    ensures forall i :: 0 <= i < |Rank(s)| ==> Reranked(Rank(s)[i], pool) && Keeps(cat, region, Rank(s)[i])
  {
    forall i | 0 <= i < |Rank(s)| ensures Reranked(Rank(s)[i], pool) && Keeps(cat, region, Rank(s)[i]) {
      assert s[i] in s;
      assert Rank(s)[i] == s[i].(rank := i + 1);
    }
  }

  /** Ranking keeps the order and the entries, numbering them 1..n; a sorted list stays sorted. */
  lemma RankSpec(s: seq<LeaderboardEntry>)
    requires SortedDesc(s, Minutes)
    ensures var d := Rank(s);
      |d| == |s|
      && (forall i, j :: 0 <= i < j < |d| ==> d[i].minutes >= d[j].minutes)
      && (forall i :: 0 <= i < |d| ==> d[i].rank == i + 1)
      && (forall i :: 0 <= i < |d| ==> Reranked(d[i], s))
  {
    var d := Rank(s);
    forall i, j | 0 <= i < j < |d| ensures d[i].minutes >= d[j].minutes {
      assert Minutes(s[i]) >= Minutes(s[j]);
    }
    forall i | 0 <= i < |d| ensures Reranked(d[i], s) {
      assert s[i] in s;
      assert d[i] == s[i].(rank := i + 1);
    }
  }

  /** An entry of the list shows up ranked, with its id, flags and minutes. */
  lemma RankFinds(s: seq<LeaderboardEntry>, e: LeaderboardEntry)
    requires e in s
    ensures exists i :: 0 <= i < |Rank(s)| && Rank(s)[i] == e.(rank := i + 1)
  {
    var i :| 0 <= i < |s| && s[i] == e;
    assert Rank(s)[i] == e.(rank := i + 1);
  }

  /** The merge, the update of the user's entry, the filter, the sort and the ranks, step by step. */
  method DisplayEntries(world: seq<LeaderboardEntry>, friends: seq<LeaderboardEntry>, profile: UserProfile,
                        minutes: int, cat: Category) returns (display: seq<LeaderboardEntry>)
    ensures display == Display(world, friends, profile, minutes, cat)
  {
    var combined := world;
    var k := 0;
    while k < |friends|
      invariant 0 <= k <= |friends|
      invariant MergeFriends(combined, friends[k..]) == MergeFriends(world, friends)
    {
      assert friends[k..][1..] == friends[k + 1..];
      if !HasId(combined, friends[k].id) {
        combined := combined + [friends[k]];
      }
      k := k + 1;
    }
    var myIndex := FindMe(combined, profile.id);
    if myIndex != -1 {
      combined := combined[myIndex := Me(profile, minutes).(isFriend := combined[myIndex].isFriend)];
    } else {
      combined := combined + [Me(profile, minutes)];
    }
    var filtered := FilterCategory(combined, cat, profile.region);
    filtered := SortDesc(filtered, Minutes);
    display := Rank(filtered);
  }

  // ---------------------------------------------------------------- rank history

  /** The history `generateHistory` builds: five draws around the rank, then the rank itself. */
  function History(rank: int, pick: nat -> nat): seq<int>
  {
    seq(5, i requires 0 <= i < 5 => Max(1, rank + pick(i) % 5 - 2)) + [rank]
  }

  /**
    `generateHistory` (Leaderboard.tsx:29-36); `pick(i)` stands for the
    draw of round `i`, of which `Math.floor(Math.random() * 5)` is `pick(i) % 5`.
   */
  method GenerateHistory(rank: int, pick: nat -> nat) returns (history: seq<int>)
    ensures history == History(rank, pick)
  {
    history := [];
    var i := 0;
    while i < 5
      invariant 0 <= i <= 5
      invariant |history| == i
      invariant forall j :: 0 <= j < i ==> history[j] == Max(1, rank + pick(j) % 5 - 2)
    {
      history := history + [Max(1, rank + pick(i) % 5 - 2)];
      i := i + 1;
    }
    history := history + [rank];
  }

  /** Six values, the last one the rank, the others at least 1 and within two of the rank. */
  lemma HistoryBounds(rank: int, pick: nat -> nat)
    ensures var h := History(rank, pick);
      |h| == 6 && h[5] == rank
      && forall i :: 0 <= i < 5 ==> Max(1, rank - 2) <= h[i] <= Max(1, rank + 2)
  {
    var h := History(rank, pick);
    forall i | 0 <= i < 5 ensures Max(1, rank - 2) <= h[i] <= Max(1, rank + 2) {
      assert h[i] == Max(1, rank + pick(i) % 5 - 2);
    }
  }

  /** Every value between the bounds can occur: the draw 0..4 reaches each of them. */
  lemma HistoryReaches(rank: int, v: int, i: nat, pick: nat -> nat)
    requires rank >= 3 && rank - 2 <= v <= rank + 2 && i < 5 && pick(i) == v - rank + 2
    ensures History(rank, pick)[i] == v
  {
    assert History(rank, pick)[i] == Max(1, rank + pick(i) % 5 - 2);
  }

  /** The seeding of Leaderboard.tsx:64-69: entries without a history get one for their position. */
  function EnsureHistories(es: seq<LeaderboardEntry>, pick: nat -> nat -> nat): (r: seq<LeaderboardEntry>)
    ensures |r| == |es|
    ensures forall i :: 0 <= i < |es| ==>
      (es[i].rankHistory != [] ==> r[i] == es[i])
      && (es[i].rankHistory == [] ==> r[i] == es[i].(rankHistory := History(i + 1, pick(i))) && |r[i].rankHistory| == 6)
  {
    seq(|es|, i requires 0 <= i < |es| =>
      if es[i].rankHistory == [] then es[i].(rankHistory := History(i + 1, pick(i))) else es[i])
  }

  // ---------------------------------------------------------------- add-friend form

  datatype SubmitOutcome = EmptyIdError | SelfError | AlreadyFriendError | SendId(id: string)

  /**
    `handleSendRequestSubmit` as written (Leaderboard.tsx:128-147): the
    blank check trims, but the checks against the user's own id and the
    friends compare the raw input, and the trimmed id is sent.
   */
  function SubmitAsWritten(input: string, ownId: string, friends: seq<LeaderboardEntry>): SubmitOutcome
  {
    if Trim(input) == "" then EmptyIdError
    else if input == ownId then SelfError
    else if HasId(friends, input) then AlreadyFriendError
    else SendId(Trim(input))
  }

  /** With a leading space the user's own id passes the form and is sent. */
  lemma OwnIdWithSpaceIsSent()
    ensures SubmitAsWritten(" u1", "u1", []) == SendId("u1")
  {
    var id := "u1";
    assert |id| == 2 && id[0] == 'u' && id[1] == '1';
    assert !IsSpace(id[0]) && !IsSpace(id[1]);
    assert TrimStart(id) == id;
    assert TrimEnd(id) == id;
    var typed := " u1";
    assert typed[0] == ' ' && typed[1..] == id;
    assert TrimStart(typed) == TrimStart(id);
    assert Trim(typed) == id;
    assert |typed| != |id|;
  }

  /** The form with every check on the trimmed id, as its error messages intend. */
  function Submit(input: string, ownId: string, friends: seq<LeaderboardEntry>): (r: SubmitOutcome)
    ensures r.SendId? ==> r.id == Trim(input) && r.id != "" && r.id != ownId && !HasId(friends, r.id)
  {
    var id := Trim(input);
    if id == "" then EmptyIdError
    else if id == ownId then SelfError
    else if HasId(friends, id) then AlreadyFriendError
    else SendId(id)
  }

  /**
    The checks apply in order: blank input first, then the user's own id,
    then an existing friend; anything else is sent trimmed.
   */
  lemma SubmitOrder(input: string, ownId: string, friends: seq<LeaderboardEntry>)
    ensures var r := Submit(input, ownId, friends);
      var id := Trim(input);
      (id == "" <==> r == EmptyIdError)
      && (id != "" && id == ownId <==> r == SelfError)
      && (id != "" && id != ownId && HasId(friends, id) <==> r == AlreadyFriendError)
      && (id != "" && id != ownId && !HasId(friends, id) <==> r == SendId(id))
  {
  }

  /** On input without surrounding white space both versions agree. */
  lemma SubmitAgreesOnTrimmedInput(input: string, ownId: string, friends: seq<LeaderboardEntry>)
    requires input == [] || (!IsSpace(input[0]) && !IsSpace(input[|input| - 1]))
    ensures Submit(input, ownId, friends) == SubmitAsWritten(input, ownId, friends)
  {
    assert Trim(input) == input;
  }
}

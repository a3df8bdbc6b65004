/**
  The profile dialog (components/ProfileModal.tsx): the avatar seed it
  starts from, read out of the saved avatar URL, and the profile it saves.
 */
module Profile {
  import opened Text
  import opened Model

  const DefaultSeed: string := "Felix"

  /** The preset seeds the dialog offers. */
  const AvatarSeeds: seq<string> := ["Felix", "Aneka", "Zack", "Midnight", "Lilac", "Sky", "Bandit", "Misty"]

  /**
    The initial `avatarSeed` (ProfileModal.tsx:18): the text after the first
    `seed=` up to the next one, or "Felix" when the avatar has none.
   */
  function InitialSeed(avatar: string): (seed: string)
    ensures !Contains(avatar, SeedMark) ==> seed == DefaultSeed
    ensures Contains(avatar, SeedMark) ==> seed == Split(avatar[IndexOf(avatar, SeedMark) + |SeedMark|..], SeedMark)[0]
  {
    if Contains(avatar, SeedMark) then Split(avatar, SeedMark)[1] else DefaultSeed
  }

  function AvatarUrl(seed: string): string
  {
    AvatarBase + seed
  }

  /** `handleSave` (ProfileModal.tsx:27-34): same id, the edited name and region, the avatar of the seed. */
  function Save(profile: UserProfile, name: string, region: string, seed: string): (r: UserProfile)
    ensures r.id == profile.id && r.name == name && r.region == region && r.avatar == AvatarUrl(seed)
  {
    profile.(name := name, region := region, avatar := AvatarUrl(seed))
  }

  /** The base address holds the mark only at its very end. */
  lemma MarkEndsBase()
    ensures MatchAt(AvatarBase, SeedMark, |AvatarBase| - |SeedMark|)
    ensures forall i :: 0 <= i < |AvatarBase| - 1 ==> AvatarBase[i] != '='
  {
    assert AvatarBase[|AvatarHost|..] == SeedMark;
    assert '=' !in AvatarHost;
    forall i | 0 <= i < |AvatarBase| - 1 ensures AvatarBase[i] != '=' {
      if i < |AvatarHost| {
        assert AvatarBase[i] == AvatarHost[i];
      } else {
        assert AvatarBase[i] == SeedMark[i - |AvatarHost|];
      }
    }
  }

  /** The first `seed=` of a saved avatar is the one that ends the base address. */
  lemma FirstMarkOfUrl(seed: string)
    ensures IndexOf(AvatarUrl(seed), SeedMark) == |AvatarBase| - |SeedMark|
  {
    var url := AvatarUrl(seed);
    var k := |AvatarBase| - |SeedMark|;
    MarkEndsBase();
    assert url[k..k + |SeedMark|] == AvatarBase[k..] == SeedMark;
    assert MatchAt(url, SeedMark, k);
    forall j | 0 <= j < k ensures !MatchAt(url, SeedMark, j) {
      assert url[j..j + 5][4] == url[j + 4] == AvatarBase[j + 4];
    }
  }

  /**
    Reopening the dialog after saving with a seed that holds no `seed=`
    starts from that seed again.
   */
  lemma SeedRoundTrip(profile: UserProfile, name: string, region: string, seed: string)
    requires !Contains(seed, SeedMark)
    ensures InitialSeed(Save(profile, name, region, seed).avatar) == seed
  {
    var url := AvatarUrl(seed);
    FirstMarkOfUrl(seed);
    assert url[|AvatarBase|..] == seed;
  }

  /** A seed without `=` holds no `seed=`: this covers the presets and the random base-36 seeds. */
  lemma NoEqualsNoMark(seed: string)
    requires '=' !in seed
    ensures !Contains(seed, SeedMark)
  {
    forall j | 0 <= j <= |seed| - |SeedMark| ensures !MatchAt(seed, SeedMark, j) {
      assert seed[j + 4] in seed;
      assert seed[j..j + 5][4] == seed[j + 4];
    }
  }

  /** Every preset seed survives a save and a reopening. */
  lemma PresetsRoundTrip(profile: UserProfile, name: string, region: string, k: nat)
    requires k < |AvatarSeeds|
    ensures InitialSeed(Save(profile, name, region, AvatarSeeds[k]).avatar) == AvatarSeeds[k]
  {
    NoEqualsNoMark(AvatarSeeds[k]);
    SeedRoundTrip(profile, name, region, AvatarSeeds[k]);
  }

  /** An avatar from outside the application, with no `seed=`, starts from "Felix". */
  lemma ForeignAvatarFallsBack(avatar: string)
    requires '=' !in avatar
    ensures InitialSeed(avatar) == DefaultSeed
  {
    NoEqualsNoMark(avatar);
  }
}

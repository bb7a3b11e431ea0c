/** `ProfileService`: the profiles and their nicknames, kept in the
    `profiles` store, with `PROFILES_UPDATED` announced after each write.
    `generateId()` is the parameter `newId`. */
module Profiles {
  import opened Optional
  import opened Store
  import opened Records
  import opened Events
  import opened Lists
  import opened Database
  import opened Defaults

  function ProfileId(p: Profile): string {
    p.id
  }

  function NicknameId(n: Nickname): string {
    n.id
  }

  /** The trace of one `put('profiles', p)` per profile, in order. */
  function ProfilePuts(ps: seq<Profile>): (w: seq<Effect>)
    ensures |w| == |ps|
    ensures forall j | 0 <= j < |ps| :: w[j] == Wrote(ProfilesTable, PutRow(ps[j].id))
  {
    if ps == [] then [] else ProfilePuts(ps[..|ps| - 1]) + [Wrote(ProfilesTable, PutRow(ps[|ps| - 1].id))]
  }

  /** The profiles store after `initialize()`: the seed profiles, one `put`
      each, when it was empty, and otherwise as it was. */
  function AfterInit(t: Table<Profile>, starId: string): Table<Profile> {
    if t == [] then PutAll([], ProfileId, DefaultProfiles(starId)) else t
  }

  /** What `initialize()` writes and then emits. */
  function InitTrace(t: Table<Profile>, starId: string): seq<Effect> {
    (if t == [] then ProfilePuts(DefaultProfiles(starId)) else []) + [Emitted(ProfilesUpdated)]
  }

  /** `initialize()`: seeds `DEFAULT_PROFILES` into an empty store, leaves a
      non-empty store alone, and emits once either way. `starId` is the id
      the seed data gave Star when it was loaded. */
  method Initialize(db: Database, starId: string)
    requires db.Valid()
    modifies db
    ensures db.Valid() && db.categories == old(db.categories)
    ensures db.profiles == AfterInit(old(db.profiles), starId)
    ensures db.trace == old(db.trace) + InitTrace(old(db.profiles), starId)
  {
    var existing := db.GetAllProfiles();
    if |existing| == 0 {
      PutProfiles(db, DefaultProfiles(starId));
    }
    db.Notify(ProfilesUpdated);
  }

  /** The seeding loop of `initialize`: one `put` per profile, in order. */
  method PutProfiles(db: Database, ps: seq<Profile>)
    requires db.Valid()
    modifies db
    ensures db.Valid() && db.categories == old(db.categories)
    ensures db.profiles == PutAll(old(db.profiles), ProfileId, ps)
    ensures db.trace == old(db.trace) + ProfilePuts(ps)
  {
    for i := 0 to |ps|
      invariant db.Valid() && db.categories == old(db.categories)
      invariant db.profiles == PutAll(old(db.profiles), ProfileId, ps[..i])
      invariant db.trace == old(db.trace) + ProfilePuts(ps[..i])
    {
      assert ps[..i + 1][..i] == ps[..i];
      db.PutProfile(ps[i]);
      assert db.trace == old(db.trace) + ProfilePuts(ps[..i + 1]) by {
        assert ProfilePuts(ps[..i + 1]) == ProfilePuts(ps[..i]) + [Wrote(ProfilesTable, PutRow(ps[i].id))];
      }
    }
    assert ps[..|ps|] == ps;
  }

  /** After `initialize` on an empty store, `getAllProfiles` lists Leelou
      before Léna: the store returns rows in key order, not insertion order. */
  lemma SeededProfiles(starId: string)
    ensures Values(PutAll([], ProfileId, DefaultProfiles(starId)))
         == [DefaultProfiles(starId)[1], DefaultProfiles(starId)[0]]
  {
    var ps := DefaultProfiles(starId);
    DefaultProfileKeys(starId);
    var first := ps[..1];
    assert first == [ps[0]] && first[..0] == [] && ps[..|ps| - 1] == first;
    assert PutAll([], ProfileId, first[..0]) == [];
    var one := PutAll([], ProfileId, first);
    assert one == Put([], ps[0].id, ps[0]);
    assert one == [Row(ps[0].id, ps[0])];
    assert PutAll([], ProfileId, ps) == Put(one, ps[1].id, ps[1]);
    assert Put(one, ps[1].id, ps[1]) == [Row(ps[1].id, ps[1]), Row(ps[0].id, ps[0])];
  }

  /** The placeholder image of a new profile: the fixed URL followed by the
      first character of the display name (nothing for an empty name, as
      `charAt(0)` gives ""). */
  function PlaceholderImage(displayName: string): (url: string)
    ensures "https://placehold.co/64x64/ccc/333?text=" <= url
    ensures displayName == [] ==> url == "https://placehold.co/64x64/ccc/333?text="
    ensures displayName != [] ==> |url| == 41 && url[40] == displayName[0]
  {
    "https://placehold.co/64x64/ccc/333?text=" + (if displayName == [] then "" else [displayName[0]])
  }

  /** `createProfile(displayName, mainTranslation)`: a new profile with no
      nicknames, no birthdate and no timezone, stored and then announced. */
  method CreateProfile(db: Database, displayName: string, mainTranslation: string, newId: string)
    returns (p: Profile)
    requires db.Valid()
    modifies db
    ensures p == Profile(newId, displayName, mainTranslation, PlaceholderImage(displayName), None, None, [])
    ensures db.Valid() && db.categories == old(db.categories)
    ensures db.profiles == Put(old(db.profiles), newId, p)
    ensures db.trace == old(db.trace) + [Wrote(ProfilesTable, PutRow(newId)), Emitted(ProfilesUpdated)]
  {
    p := Profile(newId, displayName, mainTranslation, PlaceholderImage(displayName), None, None, []);
    db.PutProfile(p);
    db.Notify(ProfilesUpdated);
  }

  /** `updateProfile(id, updates)`: announces even when the id is unknown. */
  method UpdateProfile(db: Database, id: string, u: ProfilePatch)
    requires db.Valid()
    modifies db
    ensures db.Valid() && db.categories == old(db.categories)
    ensures db.profiles == Update(old(db.profiles), id, p => ApplyProfile(p, u))
    ensures db.trace == old(db.trace) + [Wrote(ProfilesTable, UpdateRow(id)), Emitted(ProfilesUpdated)]
  {
    db.UpdateProfile(id, u);
    db.Notify(ProfilesUpdated);
  }

  /** `deleteProfile(id)`: removes only that profile; announces even when the
      id is unknown. */
  method DeleteProfile(db: Database, id: string)
    requires db.Valid()
    modifies db
    ensures db.Valid() && db.categories == old(db.categories)
    ensures db.profiles == Delete(old(db.profiles), id)
    ensures db.trace == old(db.trace) + [Wrote(ProfilesTable, DeleteRow(id)), Emitted(ProfilesUpdated)]
  {
    db.DeleteProfile(id);
    db.Notify(ProfilesUpdated);
  }

  /** `addNickname(profileId, display, targetLangValue)`: on a stored profile,
      appends a nickname whose base-language value is the display text,
      stores the profile, announces and returns the nickname; on a missing
      profile does nothing and returns `undefined`. */
  method AddNickname(db: Database, profileId: string, display: string, targetLangValue: string, newId: string)
    returns (r: Option<Nickname>)
    requires db.Valid()
    modifies db
    ensures db.Valid() && db.categories == old(db.categories)
    ensures r.Some? <==> HasKey(old(db.profiles), profileId)
    ensures match Get(old(db.profiles), profileId)
      case None =>
        db.profiles == old(db.profiles) && db.trace == old(db.trace)
      case Some(p) =>
        && r == Some(Nickname(newId, display, display, targetLangValue))
        && db.profiles == Put(old(db.profiles), profileId, p.(nicknames := p.nicknames + [r.value]))
        && db.trace == old(db.trace) + [Wrote(ProfilesTable, PutRow(profileId)), Emitted(ProfilesUpdated)]
  {
    var found := db.GetProfile(profileId);
    if found.Some? {
      var p := found.value;
      var nickname := Nickname(newId, display, display, targetLangValue);
      db.PutProfile(p.(nicknames := p.nicknames + [nickname]));
      db.Notify(ProfilesUpdated);
      r := Some(nickname);
    } else {
      r := None;
    }
  }

  /** `updateNickname(profileId, nicknameId, updates)`: merges the updates
      into the first nickname with the id; stores and announces only when
      both the profile and the nickname are found. */
  method UpdateNickname(db: Database, profileId: string, nicknameId: string, u: NicknamePatch)
    requires db.Valid()
    modifies db
    ensures db.Valid() && db.categories == old(db.categories)
    ensures match Get(old(db.profiles), profileId)
      case None =>
        db.profiles == old(db.profiles) && db.trace == old(db.trace)
      case Some(p) =>
        match FindFirst(p.nicknames, NicknameId, nicknameId)
        case None =>
          db.profiles == old(db.profiles) && db.trace == old(db.trace)
        case Some(i) =>
          && db.profiles == Put(old(db.profiles), profileId,
                                p.(nicknames := p.nicknames[i := ApplyNickname(p.nicknames[i], u)]))
          && db.trace == old(db.trace) + [Wrote(ProfilesTable, PutRow(profileId)), Emitted(ProfilesUpdated)]
  {
    var found := db.GetProfile(profileId);
    if found.Some? {
      var p := found.value;
      var at := FindFirst(p.nicknames, NicknameId, nicknameId);
      if at.Some? {
        var i := at.value;
        var t0 := db.trace;
        db.PutProfile(p.(nicknames := p.nicknames[i := ApplyNickname(p.nicknames[i], u)]));
        db.Notify(ProfilesUpdated);
        TraceTwo(t0, Wrote(ProfilesTable, PutRow(profileId)), Emitted(ProfilesUpdated));
      }
    }
  }

  /** `deleteNickname(profileId, nicknameId)`: drops every nickname with the
      id; stores and announces whenever the profile exists. */
  method DeleteNickname(db: Database, profileId: string, nicknameId: string)
    requires db.Valid()
    modifies db
    ensures db.Valid() && db.categories == old(db.categories)
    ensures match Get(old(db.profiles), profileId)
      case None =>
        db.profiles == old(db.profiles) && db.trace == old(db.trace)
      case Some(p) =>
        && db.profiles == Put(old(db.profiles), profileId, p.(nicknames := WithoutId(p.nicknames, NicknameId, nicknameId)))
        && db.trace == old(db.trace) + [Wrote(ProfilesTable, PutRow(profileId)), Emitted(ProfilesUpdated)]
  {
    var found := db.GetProfile(profileId);
    if found.Some? {
      var p := found.value;
      db.PutProfile(p.(nicknames := WithoutId(p.nicknames, NicknameId, nicknameId)));
      db.Notify(ProfilesUpdated);
    }
  }

  /** Deleting a nickname just added with a fresh id restores the profile's
      nickname list; before that, `find` locates the new nickname at the end. */
  lemma AddThenDeleteNickname(p: Profile, n: Nickname)
    requires forall j | 0 <= j < |p.nicknames| :: p.nicknames[j].id != n.id
    ensures FindFirst(p.nicknames + [n], NicknameId, n.id) == Some(|p.nicknames|)
    ensures WithoutId(p.nicknames + [n], NicknameId, n.id) == p.nicknames
  {
    FindAppended(p.nicknames, n, NicknameId);
    RemoveAppended(p.nicknames, n, NicknameId);
  }
}

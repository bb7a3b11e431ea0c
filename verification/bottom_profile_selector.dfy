/** `<bottom-profile-selector>`: the floating profile picker. It re-reads the
    profiles on every `PROFILES_UPDATED`, falls back to the first profile
    when the active one has gone, and re-broadcasts the active profile as a
    `{ profile, nickname }` choice. Only the state fields are modelled. */
module BottomProfileSelectorElement {
  import opened Optional
  import opened Records
  import opened Events
  import opened Lists
  import opened Store
  import opened Database
  import opened Profiles
  import opened Signals

  /** The object the "General" option selects. */
  const General := Profile("general", "General", "", "https://placehold.co/40x40/ccc/333?text=G", None, None, [])

  /** `profiles.some(p => p.id === active?.id)`, false when nothing is
      active. */
  predicate StillListed(ps: seq<Profile>, active: Option<Profile>) {
    active.Some? && FindFirst(ps, ProfileId, active.value.id).Some?
  }

  function Choice(profile: Option<Profile>, nickname: Option<Nickname>): Emission {
    Emission(ProfileSelected, ChoiceData(profile, nickname))
  }

  /** The state and emissions a reload ends in. */
  datatype Reload = Reload(profile: Option<Profile>, nickname: Option<Nickname>, out: seq<Emission>)

  /** `loadProfiles()` on the reloaded list `ps`, from the active profile and
      nickname before the reload. */
  function AfterReload(ps: seq<Profile>, active: Option<Profile>, nickname: Option<Nickname>): (r: Reload)
    // the active profile is null exactly when the list is empty, and is
    // otherwise one of the reloaded records
    ensures r.profile.None? <==> ps == []
    ensures r.profile.Some? ==> r.profile.value in ps
    // fallback: the first profile, without a nickname
    ensures !StillListed(ps, active) ==> r.nickname.None? && (ps != [] ==> r.profile == Some(ps[0]))
    // kept: the reloaded record with the same id
    ensures StillListed(ps, active) ==> r.profile.value.id == active.value.id
    // a nickname survives only while its id is still among the profile's
    ensures StillListed(ps, active) && nickname.Some? ==>
              (r.nickname == nickname <==> FindFirst(r.profile.value.nicknames, NicknameId, nickname.value.id).Some?)
    ensures StillListed(ps, active) && r.nickname != nickname ==> r.nickname.None?
    ensures r.nickname.Some? ==> FindFirst(r.profile.value.nicknames, NicknameId, r.nickname.value.id).Some?
    // two emissions on a fallback to a profile, one when kept, none for an
    // empty list; each announces the final choice
    ensures |r.out| == (if StillListed(ps, active) then 1 else if ps == [] then 0 else 2)
    ensures forall i | 0 <= i < |r.out| :: r.out[i] == Choice(r.profile, r.nickname)
  {
    if !StillListed(ps, active) then
      if ps == [] then Reload(None, None, [])
      else Reload(Some(ps[0]), None, [Choice(Some(ps[0]), None), Choice(Some(ps[0]), None)])
    else
      var p := ps[FindFirst(ps, ProfileId, active.value.id).value];
      var n := if nickname.Some? && FindFirst(p.nicknames, NicknameId, nickname.value.id).None? then None else nickname;
      Reload(Some(p), n, [Choice(Some(p), n)])
  }

  class BottomProfileSelector {
    var profiles: seq<Profile>
    var activeProfile: Option<Profile>
    var activeNickname: Option<Nickname>
    var isOpen: bool

    constructor()
      ensures profiles == [] && activeProfile == None && activeNickname == None && !isOpen
    {
      profiles := [];
      activeProfile := None;
      activeNickname := None;
      isOpen := false;
    }

    /** `loadProfiles()`: the stored profiles, then the fallback or refresh of
        the active choice, then the broadcasts. */
    method LoadProfiles(db: Database) returns (out: seq<Emission>)
      requires db.Valid()
      modifies this
      ensures profiles == Values(db.profiles) && isOpen == old(isOpen)
      ensures Reload(activeProfile, activeNickname, out) == AfterReload(profiles, old(activeProfile), old(activeNickname))
    {
      var all := db.GetAllProfiles();
      profiles := all;
      out := [];
      var stillExists := activeProfile.Some? && FindFirst(profiles, ProfileId, activeProfile.value.id).Some?;
      if !stillExists {
        activeProfile := if |profiles| > 0 then Some(profiles[0]) else None;
        activeNickname := None;
        if activeProfile.Some? {
          out := out + [Choice(activeProfile, None)];
        }
      } else {
        activeProfile := Some(profiles[FindFirst(profiles, ProfileId, activeProfile.value.id).value]);
        if activeNickname.Some? {
          var nicknameStillExists := FindFirst(activeProfile.value.nicknames, NicknameId, activeNickname.value.id).Some?;
          if !nicknameStillExists {
            activeNickname := None;
          }
        }
      }
      if activeProfile.Some? {
        out := out + [Choice(activeProfile, activeNickname)];
      }
    }

    /** `selectProfile(profile)`: sets the profile, clears the nickname,
        closes the dropdown and announces `{ profile, nickname: null }`. */
    method SelectProfile(p: Profile) returns (out: seq<Emission>)
      modifies this
      ensures profiles == old(profiles)
      ensures activeProfile == Some(p) && activeNickname == None && !isOpen
      ensures out == [Choice(Some(p), None)]
    {
      activeProfile := Some(p);
      activeNickname := None;
      CloseDropdown();
      out := [Choice(activeProfile, None)];
    }

    /** `selectNickname(profile, nickname)`: sets both, closes the dropdown
        and announces them. */
    method SelectNickname(p: Profile, n: Nickname) returns (out: seq<Emission>)
      modifies this
      ensures profiles == old(profiles)
      ensures activeProfile == Some(p) && activeNickname == Some(n) && !isOpen
      ensures out == [Choice(Some(p), Some(n))]
    {
      activeProfile := Some(p);
      activeNickname := Some(n);
      CloseDropdown();
      out := [Choice(activeProfile, activeNickname)];
    }

    method ToggleDropdown()
      modifies this
      ensures isOpen == !old(isOpen)
      ensures profiles == old(profiles) && activeProfile == old(activeProfile) && activeNickname == old(activeNickname)
    {
      isOpen := !isOpen;
    }

    /** `closeDropdown()`: closed afterwards, whatever the state before. */
    method CloseDropdown()
      modifies this
      ensures !isOpen
      ensures profiles == old(profiles) && activeProfile == old(activeProfile) && activeNickname == old(activeNickname)
    {
      if isOpen {
        isOpen := false;
      }
    }
  }

  /** The 'general' sentinel is never among stored profiles read back with a
      different id, so a reload after choosing "General" always falls back. */
  lemma GeneralFallsBack(ps: seq<Profile>, nickname: Option<Nickname>)
    requires forall i | 0 <= i < |ps| :: ps[i].id != "general"
    ensures AfterReload(ps, Some(General), nickname).nickname.None?
    ensures ps != [] ==> AfterReload(ps, Some(General), nickname).profile == Some(ps[0])
  {
    var r := FindFirst(ps, ProfileId, "general");
    assert forall i | 0 <= i < |ps| :: ProfileId(ps[i]) != "general";
  }
}

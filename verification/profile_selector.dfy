/** `<profile-selector>`: the profile buttons (plus "General") and the
    nickname buttons of the active profile. Only the state fields are
    modelled; the DOM it renders is not. Each method returns what it emits. */
module ProfileSelectorElement {
  import opened Optional
  import opened Records
  import opened Events
  import opened Lists
  import opened Store
  import opened Database
  import opened Profiles
  import opened Signals

  /** The object the "General" button selects: only `id` and `displayName`
      are set; the missing fields are modelled as empty. */
  const General := Profile("general", "General", "", "", None, None, [])

  /** `getCurrentSelection()` for an active profile and nickname: nothing
      active, or the "General" sentinel, gives the empty pair even when a
      nickname is set; otherwise the nickname's stored values, and failing a
      nickname the profile's name and translation. */
  function SelectionOf(profile: Option<Profile>, nickname: Option<Nickname>): (s: Selection)
    ensures profile.None? || profile.value.id == "general" ==> s == NoSelection
    ensures profile.Some? && profile.value.id != "general" && nickname.Some? ==>
              s == Selection(nickname.value.baseLangValue, nickname.value.targetLangValue)
    ensures profile.Some? && profile.value.id != "general" && nickname.None? ==>
              s == Selection(profile.value.displayName, profile.value.mainTranslation)
  {
    match profile
    case None => NoSelection
    case Some(p) =>
      if p.id == "general" then NoSelection
      else
        match nickname
        case Some(n) => Selection(n.baseLangValue, n.targetLangValue)
        case None => Selection(p.displayName, p.mainTranslation)
  }

  /** `emitSelectionChange()`: `PROFILE_SELECTED` with the current pair, then
      `NICKNAME_SELECTED` with the same pair exactly when a nickname is
      active. */
  function SelectionEmissions(profile: Option<Profile>, nickname: Option<Nickname>): (out: seq<Emission>)
    ensures |out| == (if nickname.Some? then 2 else 1)
    ensures out[0].event == ProfileSelected
    ensures nickname.Some? ==> out[1].event == NicknameSelected
    ensures forall i | 0 <= i < |out| :: out[i].data == SelectionData(SelectionOf(profile, nickname))
    ensures CountOf(out, ProfileSelected) == 1
    ensures CountOf(out, NicknameSelected) == (if nickname.Some? then 1 else 0)
  {
    var data := SelectionData(SelectionOf(profile, nickname));
    var first := [Emission(ProfileSelected, data)];
    assert first[..0] == [];
    if nickname.Some? then
      var both := first + [Emission(NicknameSelected, data)];
      assert both[..1] == first;
      both
    else
      first
  }

  class ProfileSelector {
    var profiles: seq<Profile>
    var activeProfile: Option<Profile>
    var activeNickname: Option<Nickname>

    /** A selected nickname is one of the active profile's nicknames. */
    predicate Valid()
      reads this
    {
      activeNickname.Some? ==> activeProfile.Some? && activeNickname.value in activeProfile.value.nicknames
    }

    constructor()
      ensures profiles == [] && activeProfile == None && activeNickname == None
      ensures Valid()
    {
      profiles := [];
      activeProfile := None;
      activeNickname := None;
    }

    function CurrentSelection(): Selection
      reads this
    {
      SelectionOf(activeProfile, activeNickname)
    }

    method EmitSelectionChange() returns (out: seq<Emission>)
      ensures out == SelectionEmissions(activeProfile, activeNickname)
    {
      var selection := CurrentSelection();
      out := [Emission(ProfileSelected, SelectionData(selection))];
      if activeNickname.Some? {
        out := out + [Emission(NicknameSelected, SelectionData(selection))];
      }
    }

    /** `selectProfile(profile)`: always clears the nickname, then emits. */
    method SelectProfile(p: Profile) returns (out: seq<Emission>)
      modifies this
      ensures profiles == old(profiles)
      ensures activeProfile == Some(p) && activeNickname == None
      ensures out == SelectionEmissions(Some(p), None)
      ensures Valid()
    {
      activeProfile := Some(p);
      activeNickname := None;
      out := EmitSelectionChange();
    }

    /** `selectNickname(nickname)`: keeps the active profile, then emits both
        events. */
    method SelectNickname(n: Nickname) returns (out: seq<Emission>)
      modifies this
      ensures profiles == old(profiles) && activeProfile == old(activeProfile)
      ensures activeNickname == Some(n)
      ensures out == SelectionEmissions(activeProfile, Some(n))
    {
      activeNickname := Some(n);
      out := EmitSelectionChange();
    }

    /** `loadProfiles()`: takes the stored profiles and selects the first one
        only when none is active; an active profile is kept even when it is
        no longer stored. */
    method LoadProfiles(db: Database) returns (out: seq<Emission>)
      requires db.Valid()
      modifies this
      ensures profiles == Values(db.profiles)
      ensures if profiles != [] && old(activeProfile).None? then
                activeProfile == Some(profiles[0]) && activeNickname == None
                && out == SelectionEmissions(Some(profiles[0]), None)
              else
                activeProfile == old(activeProfile) && activeNickname == old(activeNickname) && out == []
      ensures old(Valid()) ==> Valid()
    {
      var all := db.GetAllProfiles();
      profiles := all;
      if |profiles| > 0 && activeProfile.None? {
        out := SelectProfile(profiles[0]);
      } else {
        out := [];
      }
    }

    /** A click on a profile button: "general" selects the sentinel, a stored
        id selects the first profile with it, and an unknown id does
        nothing. */
    method ClickProfile(id: string) returns (out: seq<Emission>)
      modifies this
      ensures profiles == old(profiles)
      ensures id == "general" ==>
                activeProfile == Some(General) && activeNickname == None && out == SelectionEmissions(Some(General), None)
      ensures id != "general" ==>
                match FindFirst(profiles, ProfileId, id)
                case None =>
                  activeProfile == old(activeProfile) && activeNickname == old(activeNickname) && out == []
                case Some(i) =>
                  activeProfile == Some(profiles[i]) && activeNickname == None
                  && out == SelectionEmissions(Some(profiles[i]), None)
      ensures old(Valid()) ==> Valid()
    {
      if id == "general" {
        out := SelectProfile(General);
      } else {
        var at := FindFirst(profiles, ProfileId, id);
        if at.Some? {
          out := SelectProfile(profiles[at.value]);
        } else {
          out := [];
        }
      }
    }

    /** A click on a nickname button: only a nickname found in the active
        profile's list is selected, so the selected nickname always belongs
        to the active profile. */
    method ClickNickname(id: string) returns (out: seq<Emission>)
      modifies this
      ensures profiles == old(profiles) && activeProfile == old(activeProfile)
      ensures match old(activeProfile)
        case None =>
          activeNickname == old(activeNickname) && out == []
        case Some(p) =>
          match FindFirst(p.nicknames, NicknameId, id)
          case None =>
            activeNickname == old(activeNickname) && out == []
          case Some(i) =>
            activeNickname == Some(p.nicknames[i]) && out == SelectionEmissions(Some(p), Some(p.nicknames[i]))
      ensures old(Valid()) ==> Valid()
    {
      out := [];
      if activeProfile.Some? {
        var p := activeProfile.value;
        var at := FindFirst(p.nicknames, NicknameId, id);
        if at.Some? {
          out := SelectNickname(p.nicknames[at.value]);
        }
      }
    }
  }

  /** A nickname of the active profile is selected and announced by clicking
      its button, and the announced pair is that nickname's values. */
  lemma NicknameClickSelects(p: Profile, i: nat)
    requires i < |p.nicknames| && p.id != "general"
    requires forall j | 0 <= j < i :: p.nicknames[j].id != p.nicknames[i].id
    ensures FindFirst(p.nicknames, NicknameId, p.nicknames[i].id) == Some(i)
    ensures SelectionEmissions(Some(p), Some(p.nicknames[i]))[1]
         == Emission(NicknameSelected, SelectionData(Selection(p.nicknames[i].baseLangValue, p.nicknames[i].targetLangValue)))
  {
    var r := FindFirst(p.nicknames, NicknameId, p.nicknames[i].id);
    assert NicknameId(p.nicknames[i]) == p.nicknames[i].id;
  }
}

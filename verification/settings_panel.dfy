/** `<settings-panel>`: the slide-in panel with its "profiles" and
    "messages" tabs. Only `isOpen` and `activeTab` are modelled. */
module SettingsPanelElement {
  import opened Events
  import opened Signals

  /** What a click inside the panel lands on. */
  datatype ClickTarget = Overlay | CloseButton | TabButton(tab: string) | Elsewhere

  class SettingsPanel {
    var isOpen: bool
    var activeTab: string

    constructor()
      ensures !isOpen && activeTab == "profiles"
    {
      isOpen := false;
      activeTab := "profiles";
    }

    method Open()
      modifies this
      ensures isOpen && activeTab == old(activeTab)
    {
      isOpen := true;
    }

    method Close()
      modifies this
      ensures !isOpen && activeTab == old(activeTab)
    {
      isOpen := false;
    }

    /** `toggle()`: flips the flag, then opens or closes to match it. */
    method Toggle()
      modifies this
      ensures isOpen == !old(isOpen) && activeTab == old(activeTab)
    {
      isOpen := !isOpen;
      if isOpen {
        Open();
      } else {
        Close();
      }
    }

    method SwitchTab(tab: string)
      modifies this
      ensures activeTab == tab && isOpen == old(isOpen)
    {
      activeTab := tab;
    }

    /** `handleClick(event)`: the overlay and the close button close the
        panel, a tab button switches to its tab, anything else is ignored. */
    method HandleClick(target: ClickTarget)
      modifies this
      ensures match target
        case Overlay => !isOpen && activeTab == old(activeTab)
        case CloseButton => !isOpen && activeTab == old(activeTab)
        case TabButton(tab) => activeTab == tab && isOpen == old(isOpen)
        case Elsewhere => isOpen == old(isOpen) && activeTab == old(activeTab)
    {
      match target
      case Overlay => Close();
      case CloseButton => Close();
      case TabButton(tab) => SwitchTab(tab);
      case Elsewhere =>
    }

    /** The bus delivering emissions to the panel's one listener: each
        `SETTINGS_TOGGLE` runs `toggle()` once and nothing else reaches it, so
        the panel ends open exactly when it started open and the number of
        toggles is even. */
    method Deliver(es: seq<Emission>) returns (toggles: nat)
      modifies this
      ensures toggles == CountOf(es, SettingsToggle)
      ensures isOpen == (if toggles % 2 == 0 then old(isOpen) else !old(isOpen))
      ensures activeTab == old(activeTab)
    {
      toggles := 0;
      for i := 0 to |es|
        invariant toggles == CountOf(es[..i], SettingsToggle)
        invariant isOpen == (if toggles % 2 == 0 then old(isOpen) else !old(isOpen))
        invariant activeTab == old(activeTab)
      {
        assert es[..i + 1][..i] == es[..i];
        if es[i].event == SettingsToggle {
          Toggle();
          toggles := toggles + 1;
        }
      }
      assert es[..|es|] == es;
    }
  }
}

/** `<bottom-nav>`: the bar of view buttons. It listens to its own
    `VIEW_CHANGED` announcements; since `EVENTS.VIEW_CHANGED` is undefined,
    it subscribes and emits under the same bus key "undefined". Only
    `activeView` is modelled. */
module BottomNavElement {
  import opened Optional
  import opened Events
  import opened Signals

  class BottomNav {
    var activeView: string

    constructor()
      ensures activeView == "home"
    {
      activeView := "home";
    }

    /** `setActiveView(view)`: a new view is set and then announced once; the
        current view changes nothing and announces nothing. */
    method SetActiveView(view: string) returns (out: seq<Emission>)
      modifies this
      ensures activeView == view
      ensures out == (if view != old(activeView) then [Emission(ViewChanged, ViewData(view))] else [])
    {
      if view != activeView {
        activeView := view;
        out := [Emission(ViewChanged, ViewData(view))];
      } else {
        out := [];
      }
    }

    /** `setActiveView` followed by the bus running the component's own
        listener on each announcement: the listener sees the view already
        set, so it announces nothing and no emit loop starts. */
    method SetActiveViewAndListen(view: string) returns (out: seq<Emission>, echoes: seq<Emission>)
      modifies this
      ensures activeView == view
      ensures out == (if view != old(activeView) then [Emission(ViewChanged, ViewData(view))] else [])
      ensures echoes == []
    {
      out := SetActiveView(view);
      echoes := [];
      for i := 0 to |out|
        invariant activeView == view && echoes == []
        invariant out == (if view != old(activeView) then [Emission(ViewChanged, ViewData(view))] else [])
      {
        if out[i].event == ViewChanged && out[i].data.ViewData? {
          var echo := SetActiveView(out[i].data.view);
          echoes := echoes + echo;
        }
      }
    }

    /** A click on a button with `data-view`: "settings" asks for the settings
        panel and keeps the view; any other view is set through
        `setActiveView` with the listener attached; a button without a view
        (the empty string) does nothing. */
    method Click(view: string) returns (out: seq<Emission>)
      modifies this
      ensures view == "" ==> activeView == old(activeView) && out == []
      ensures view == "settings" ==> activeView == old(activeView) && out == [Emission(SettingsToggle, NoData)]
      ensures view != "" && view != "settings" ==>
                activeView == view && out == (if view != old(activeView) then [Emission(ViewChanged, ViewData(view))] else [])
    {
      if view != "" {
        if view == "settings" {
          out := [Emission(SettingsToggle, NoData)];
        } else {
          var echoes;
          out, echoes := SetActiveViewAndListen(view);
        }
      } else {
        out := [];
      }
    }
  }
}

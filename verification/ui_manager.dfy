/**
 * The UI manager: two name-keyed registries (panels and windows), the
 * initialized and show-debug-overlay flags, visibility control by name,
 * and the order in which Update and Render reach the registered objects.
 * Update and Render are modelled as the sequence of calls they make. The
 * registries are hash maps whose iteration order is unspecified, so that
 * order is a parameter: any enumeration of the keys, each once.
 */
module UIManager {
  import opened Optional
  import B = UIBase

  datatype Manager = Manager(
    panels: map<string, B.Panel>,
    windows: map<string, B.Window>,
    initialized: bool,
    showDebugOverlay: bool)

  /** A fresh manager: not initialized, nothing registered, debug overlay shown. */
  const Initial := Manager(map[], map[], false, true)

  const MenuBar := "MenuBar"
  const DebugOverlay := "DebugOverlay"
  const StatusBar := "StatusBar"

  /** A call the manager makes on a registered object, by registry and name. */
  datatype Call = PanelCall(name: string) | WindowCall(name: string)

  // ---- Lifecycle ------------------------------------------------------------

  /** Initialize: a warning and no change when already initialized; otherwise set the flag. */
  function Initialize(m: Manager): (r: Manager)
    ensures r.initialized
    ensures r.panels == m.panels && r.windows == m.windows && r.showDebugOverlay == m.showDebugOverlay
  {
    if m.initialized then m else m.(initialized := true)
  }

  /** Shutdown: only when initialized, both registries are emptied and the flag drops. */
  function Shutdown(m: Manager): (r: Manager)
    ensures !r.initialized
    ensures m.initialized ==> r.panels == map[] && r.windows == map[]
    ensures !m.initialized ==> r == m
    ensures r.showDebugOverlay == m.showDebugOverlay
  {
    if !m.initialized then m else m.(panels := map[], windows := map[], initialized := false)
  }

  /** Panels registered before Initialize survive it; Shutdown of an uninitialized manager keeps them too. */
  lemma RegistrationOutlivesUninitializedShutdown(m: Manager, name: string, p: B.Panel)
    requires !m.initialized
    ensures GetPanel(Shutdown(RegisterPanel(m, name, Some(p))), name) == Some(p)
    ensures GetPanel(Shutdown(Initialize(RegisterPanel(m, name, Some(p)))), name) == None
  {
  }

  function SetShowDebugOverlay(m: Manager, show: bool): (r: Manager)
    ensures r.showDebugOverlay == show
    ensures r.panels == m.panels && r.windows == m.windows && r.initialized == m.initialized
  {
    m.(showDebugOverlay := show)
  }

  // ---- Registries -----------------------------------------------------------

  /** RegisterPanel: a null panel is refused; otherwise the name is bound, replacing any earlier panel. */
  function RegisterPanel(m: Manager, name: string, p: Option<B.Panel>): (r: Manager)
    ensures p.None? ==> r == m
    ensures p.Some? ==> GetPanel(r, name) == p
    ensures forall n :: n != name ==> GetPanel(r, n) == GetPanel(m, n)
    ensures r.windows == m.windows && r.initialized == m.initialized && r.showDebugOverlay == m.showDebugOverlay
  {
    if p.None? then m else m.(panels := m.panels[name := p.value])
  }

  /** UnregisterPanel: the name is dropped if present; nothing else changes. */
  function UnregisterPanel(m: Manager, name: string): (r: Manager)
    ensures GetPanel(r, name).None?
    ensures forall n :: n != name ==> GetPanel(r, n) == GetPanel(m, n)
    ensures name !in m.panels ==> r == m
    ensures r.windows == m.windows && r.initialized == m.initialized && r.showDebugOverlay == m.showDebugOverlay
  {
    if name in m.panels then m.(panels := m.panels - {name}) else m
  }

  /** GetPanel: the registered panel, or null. */
  function GetPanel(m: Manager, name: string): (r: Option<B.Panel>)
    ensures r.Some? <==> name in m.panels
    ensures r.Some? ==> r.value == m.panels[name]
  {
    if name in m.panels then Some(m.panels[name]) else None
  }

  function RegisterWindow(m: Manager, name: string, w: Option<B.Window>): (r: Manager)
    ensures w.None? ==> r == m
    ensures w.Some? ==> GetWindow(r, name) == w
    ensures forall n :: n != name ==> GetWindow(r, n) == GetWindow(m, n)
    ensures r.panels == m.panels && r.initialized == m.initialized && r.showDebugOverlay == m.showDebugOverlay
  {
    if w.None? then m else m.(windows := m.windows[name := w.value])
  }

  function UnregisterWindow(m: Manager, name: string): (r: Manager)
    ensures GetWindow(r, name).None?
    ensures forall n :: n != name ==> GetWindow(r, n) == GetWindow(m, n)
    ensures name !in m.windows ==> r == m
    ensures r.panels == m.panels && r.initialized == m.initialized && r.showDebugOverlay == m.showDebugOverlay
  {
    if name in m.windows then m.(windows := m.windows - {name}) else m
  }

  function GetWindow(m: Manager, name: string): (r: Option<B.Window>)
    ensures r.Some? <==> name in m.windows
    ensures r.Some? ==> r.value == m.windows[name]
  {
    if name in m.windows then Some(m.windows[name]) else None
  }

  /** Panels and windows are separate registries: one name can be both. */
  lemma RegistriesAreSeparate(m: Manager, name: string, p: B.Panel, w: B.Window)
    ensures var r := RegisterWindow(RegisterPanel(m, name, Some(p)), name, Some(w));
            GetPanel(r, name) == Some(p) && GetWindow(r, name) == Some(w)
    ensures GetWindow(UnregisterPanel(m, name), name) == GetWindow(m, name)
  {
  }

  /** Registering over an existing name and unregistering it leaves nothing behind. */
  lemma RegisterUnregister(m: Manager, name: string, p: B.Panel)
    ensures UnregisterPanel(RegisterPanel(m, name, Some(p)), name) == UnregisterPanel(m, name)
  {
    assert m.panels[name := p] - {name} == m.panels - {name};
  }

  // ---- Visibility -----------------------------------------------------------

  function WithPanelVisible(p: B.Panel, v: bool): (r: B.Panel)
    ensures r.self.visible == v && r.self.enabled == p.self.enabled && r.widgets == p.widgets
  {
    p.(self := p.self.(visible := v))
  }

  function WithWindowVisible(w: B.Window, v: bool): (r: B.Window)
    ensures r.base.self.visible == v && r.title == w.title && r.base.widgets == w.base.widgets
  {
    w.(base := WithPanelVisible(w.base, v))
  }

  /** Show, Hide and Toggle on a panel name; an unknown name is ignored. */
  function SetPanelVisible(m: Manager, name: string, v: bool): (r: Manager)
    ensures name in m.panels ==> IsPanelVisible(r, name) == v
    ensures name !in m.panels ==> r == m
    ensures r.panels.Keys == m.panels.Keys
    ensures forall n :: n in m.panels && n != name ==> r.panels[n] == m.panels[n]
    ensures r.windows == m.windows && r.initialized == m.initialized && r.showDebugOverlay == m.showDebugOverlay
  {
    if name in m.panels then m.(panels := m.panels[name := WithPanelVisible(m.panels[name], v)]) else m
  }

  function ShowPanel(m: Manager, name: string): (r: Manager)
    ensures IsPanelVisible(r, name) <==> name in m.panels
  {
    SetPanelVisible(m, name, true)
  }

  function HidePanel(m: Manager, name: string): (r: Manager)
    ensures !IsPanelVisible(r, name)
  {
    SetPanelVisible(m, name, false)
  }

  function TogglePanel(m: Manager, name: string): (r: Manager)
    ensures name in m.panels ==> IsPanelVisible(r, name) == !IsPanelVisible(m, name)
    ensures name !in m.panels ==> r == m
  {
    SetPanelVisible(m, name, !IsPanelVisible(m, name))
  }

  /** Toggling twice is the identity, on a known or an unknown name. */
  lemma TogglePanelTwice(m: Manager, name: string)
    ensures TogglePanel(TogglePanel(m, name), name) == m
  {
    if name in m.panels {
      var p := m.panels[name];
      assert p.(self := p.self.(visible := p.self.visible)) == p;
      assert m.panels[name := p] == m.panels;
    }
  }

  /** IsPanelVisible: false for an unknown name. */
  predicate IsPanelVisible(m: Manager, name: string) {
    name in m.panels && m.panels[name].self.visible
  }

  function SetWindowVisible(m: Manager, name: string, v: bool): (r: Manager)
    ensures name in m.windows ==> IsWindowVisible(r, name) == v
    ensures name !in m.windows ==> r == m
    ensures r.windows.Keys == m.windows.Keys
    ensures forall n :: n in m.windows && n != name ==> r.windows[n] == m.windows[n]
    ensures r.panels == m.panels && r.initialized == m.initialized && r.showDebugOverlay == m.showDebugOverlay
  {
    if name in m.windows then m.(windows := m.windows[name := WithWindowVisible(m.windows[name], v)]) else m
  }

  function ShowWindow(m: Manager, name: string): (r: Manager)
    ensures IsWindowVisible(r, name) <==> name in m.windows
  {
    SetWindowVisible(m, name, true)
  }

  function HideWindow(m: Manager, name: string): (r: Manager)
    ensures !IsWindowVisible(r, name)
  {
    SetWindowVisible(m, name, false)
  }

  function ToggleWindow(m: Manager, name: string): (r: Manager)
    ensures name in m.windows ==> IsWindowVisible(r, name) == !IsWindowVisible(m, name)
    ensures name !in m.windows ==> r == m
  {
    SetWindowVisible(m, name, !IsWindowVisible(m, name))
  }

  lemma ToggleWindowTwice(m: Manager, name: string)
    ensures ToggleWindow(ToggleWindow(m, name), name) == m
  {
    if name in m.windows {
      var w := m.windows[name];
      assert w.(base := w.base.(self := w.base.self.(visible := w.base.self.visible))) == w;
      assert m.windows[name := w] == m.windows;
    }
  }

  predicate IsWindowVisible(m: Manager, name: string) {
    name in m.windows && m.windows[name].base.self.visible
  }

  /** Showing or hiding a panel never touches the window of the same name. */
  lemma PanelVisibilityIndependentOfWindows(m: Manager, name: string, v: bool)
    ensures IsWindowVisible(SetPanelVisible(m, name, v), name) == IsWindowVisible(m, name)
  {
  }

  // ---- Update and Render ----------------------------------------------------

  /** `order` lists every key of `keys` exactly once: a possible iteration order of the hash map. */
  ghost predicate Enumerates(order: seq<string>, keys: set<string>) {
    && (forall n :: n in order <==> n in keys)
    && (forall i, j :: 0 <= i < j < |order| ==> order[i] != order[j])
  }

  function PanelVisibility(m: Manager): (r: map<string, bool>)
    ensures r.Keys == m.panels.Keys
    ensures forall n :: n in r ==> (r[n] <==> IsPanelVisible(m, n))
  {
    map n | n in m.panels :: m.panels[n].self.visible
  }

  function WindowVisibility(m: Manager): (r: map<string, bool>)
    ensures r.Keys == m.windows.Keys
    ensures forall n :: n in r ==> (r[n] <==> IsWindowVisible(m, n))
  {
    map n | n in m.windows :: m.windows[n].base.self.visible
  }

  /** The names of `order`, in that order, that are registered and visible. */
  function VisibleInOrder(order: seq<string>, visible: map<string, bool>): (r: seq<string>)
    ensures forall n :: n in r <==> n in order && n in visible && visible[n]
    ensures |r| <= |order|
    decreases |order|
  {
    if |order| == 0 then []
    else
      var rest := VisibleInOrder(order[1..], visible);
      var n := order[0];
      assert forall x :: x in order <==> x == n || x in order[1..];
      (if n in visible && visible[n] then [n] else []) + rest
  }

  function PanelCalls(names: seq<string>): (r: seq<Call>)
    ensures |r| == |names|
    ensures forall k :: 0 <= k < |r| ==> r[k] == PanelCall(names[k])
  {
    seq(|names|, k requires 0 <= k < |names| => PanelCall(names[k]))
  }

  function WindowCalls(names: seq<string>): (r: seq<Call>)
    ensures |r| == |names|
    ensures forall k :: 0 <= k < |r| ==> r[k] == WindowCall(names[k])
  {
    seq(|names|, k requires 0 <= k < |names| => WindowCall(names[k]))
  }

  /**
   * Update: nothing before Initialize; otherwise every visible panel, in
   * registry order, then every visible window. Each object's own Update
   * then decides on its enabled flag (UIBase.UpdatePanel).
   */
  function Update(m: Manager, panelOrder: seq<string>, windowOrder: seq<string>): (calls: seq<Call>)
    requires Enumerates(panelOrder, m.panels.Keys) && Enumerates(windowOrder, m.windows.Keys)
    ensures !m.initialized ==> calls == []
  {
    if !m.initialized then []
    else
      PanelCalls(VisibleInOrder(panelOrder, PanelVisibility(m)))
      + WindowCalls(VisibleInOrder(windowOrder, WindowVisibility(m)))
  }

  /** An initialized manager updates exactly the visible panels. */
  lemma UpdatePanels(m: Manager, panelOrder: seq<string>, windowOrder: seq<string>, name: string)
    requires Enumerates(panelOrder, m.panels.Keys) && Enumerates(windowOrder, m.windows.Keys)
    requires m.initialized
    ensures PanelCall(name) in Update(m, panelOrder, windowOrder) <==> IsPanelVisible(m, name)
  {
    var ps := PanelCalls(VisibleInOrder(panelOrder, PanelVisibility(m)));
    var ws := WindowCalls(VisibleInOrder(windowOrder, WindowVisibility(m)));
    assert Update(m, panelOrder, windowOrder) == ps + ws;
    assert PanelCall(name) !in ws;
    PanelCallsMembers(VisibleInOrder(panelOrder, PanelVisibility(m)), name);
  }

  /** An initialized manager updates exactly the visible windows. */
  lemma UpdateWindows(m: Manager, panelOrder: seq<string>, windowOrder: seq<string>, name: string)
    requires Enumerates(panelOrder, m.panels.Keys) && Enumerates(windowOrder, m.windows.Keys)
    requires m.initialized
    ensures WindowCall(name) in Update(m, panelOrder, windowOrder) <==> IsWindowVisible(m, name)
  {
    var ps := PanelCalls(VisibleInOrder(panelOrder, PanelVisibility(m)));
    var ws := WindowCalls(VisibleInOrder(windowOrder, WindowVisibility(m)));
    assert Update(m, panelOrder, windowOrder) == ps + ws;
    assert WindowCall(name) !in ps;
    WindowCallsMembers(VisibleInOrder(windowOrder, WindowVisibility(m)), name);
  }

  /** Every panel is updated before every window. */
  lemma UpdatePanelsFirst(m: Manager, panelOrder: seq<string>, windowOrder: seq<string>)
    requires Enumerates(panelOrder, m.panels.Keys) && Enumerates(windowOrder, m.windows.Keys)
    ensures forall i, j :: 0 <= i < j < |Update(m, panelOrder, windowOrder)| ==>
              !(Update(m, panelOrder, windowOrder)[i].WindowCall? && Update(m, panelOrder, windowOrder)[j].PanelCall?)
  {
    if m.initialized {
      PanelsBeforeWindows(VisibleInOrder(panelOrder, PanelVisibility(m)),
                          VisibleInOrder(windowOrder, WindowVisibility(m)));
    }
  }

  lemma PanelsBeforeWindows(ps: seq<string>, ws: seq<string>)
    ensures forall i, j :: 0 <= i < j < |PanelCalls(ps) + WindowCalls(ws)| ==>
              !((PanelCalls(ps) + WindowCalls(ws))[i].WindowCall? && (PanelCalls(ps) + WindowCalls(ws))[j].PanelCall?)
  {
    var calls := PanelCalls(ps) + WindowCalls(ws);
    forall i, j | 0 <= i < j < |calls|
      ensures !(calls[i].WindowCall? && calls[j].PanelCall?)
    {
      if i >= |ps| {
        assert calls[j] == WindowCalls(ws)[j - |ps|];
      } else {
        assert calls[i] == PanelCalls(ps)[i];
      }
    }
  }

  lemma PanelCallsMembers(names: seq<string>, name: string)
    ensures PanelCall(name) in PanelCalls(names) <==> name in names
  {
    var cs := PanelCalls(names);
    if PanelCall(name) in cs {
      var k :| 0 <= k < |cs| && cs[k] == PanelCall(name);
      assert names[k] == name;
    }
    if name in names {
      var k :| 0 <= k < |names| && names[k] == name;
      assert cs[k] == PanelCall(name);
    }
  }

  lemma WindowCallsMembers(names: seq<string>, name: string)
    ensures WindowCall(name) in WindowCalls(names) <==> name in names
  {
    var cs := WindowCalls(names);
    if WindowCall(name) in cs {
      var k :| 0 <= k < |cs| && cs[k] == WindowCall(name);
      assert names[k] == name;
    }
    if name in names {
      var k :| 0 <= k < |names| && names[k] == name;
      assert cs[k] == WindowCall(name);
    }
  }

  /** The MenuBar call, when the MenuBar panel is registered and visible. */
  function MenuBarCall(m: Manager): (r: seq<Call>)
    ensures r == [] || r == [PanelCall(MenuBar)]
  {
    if IsPanelVisible(m, MenuBar) then [PanelCall(MenuBar)] else []
  }

  /** The DebugOverlay call: the flag and registration decide; the panel's own visibility does not. */
  function OverlayCall(m: Manager): (r: seq<Call>)
    ensures r == [] || r == [PanelCall(DebugOverlay)]
  {
    if m.showDebugOverlay && DebugOverlay in m.panels then [PanelCall(DebugOverlay)] else []
  }

  function StatusBarCall(m: Manager): (r: seq<Call>)
    ensures r == [] || r == [PanelCall(StatusBar)]
  {
    if IsPanelVisible(m, StatusBar) then [PanelCall(StatusBar)] else []
  }

  /**
   * Render: nothing before Initialize; otherwise the MenuBar, the visible
   * windows in registry order, the debug overlay, and the StatusBar last.
   */
  function Render(m: Manager, windowOrder: seq<string>): (calls: seq<Call>)
    requires Enumerates(windowOrder, m.windows.Keys)
    ensures !m.initialized ==> calls == []
  {
    if !m.initialized then []
    else MenuBarCall(m) + WindowCalls(VisibleInOrder(windowOrder, WindowVisibility(m))) + OverlayCall(m) + StatusBarCall(m)
  }

  /** Which panels Render reaches: only the three named ones, each under its own condition. */
  lemma RenderPanels(m: Manager, windowOrder: seq<string>, name: string)
    requires Enumerates(windowOrder, m.windows.Keys) && m.initialized
    ensures PanelCall(name) in Render(m, windowOrder) <==>
              || (name == MenuBar && IsPanelVisible(m, MenuBar))
              || (name == DebugOverlay && m.showDebugOverlay && DebugOverlay in m.panels)
              || (name == StatusBar && IsPanelVisible(m, StatusBar))
  {
    var ws := WindowCalls(VisibleInOrder(windowOrder, WindowVisibility(m)));
    assert PanelCall(name) !in ws;
    assert Render(m, windowOrder) == MenuBarCall(m) + ws + OverlayCall(m) + StatusBarCall(m);
  }

  /** Render reaches exactly the visible windows. */
  lemma RenderWindows(m: Manager, windowOrder: seq<string>, name: string)
    requires Enumerates(windowOrder, m.windows.Keys) && m.initialized
    ensures WindowCall(name) in Render(m, windowOrder) <==> IsWindowVisible(m, name)
  {
    var vs := VisibleInOrder(windowOrder, WindowVisibility(m));
    var ws := WindowCalls(vs);
    assert Render(m, windowOrder) == MenuBarCall(m) + ws + OverlayCall(m) + StatusBarCall(m);
    WindowCallsMembers(vs, name);
  }

  /** The MenuBar comes before every window and the StatusBar after every call. */
  lemma RenderLayering(m: Manager, windowOrder: seq<string>)
    requires Enumerates(windowOrder, m.windows.Keys) && m.initialized
    ensures IsPanelVisible(m, MenuBar) ==> Render(m, windowOrder)[0] == PanelCall(MenuBar)
    ensures IsPanelVisible(m, StatusBar) ==>
              Render(m, windowOrder)[|Render(m, windowOrder)| - 1] == PanelCall(StatusBar)
    ensures forall k :: 0 <= k < |Render(m, windowOrder)| && Render(m, windowOrder)[k].WindowCall? ==>
              k >= |MenuBarCall(m)| && k < |Render(m, windowOrder)| - |OverlayCall(m)| - |StatusBarCall(m)|
  {
    var ws := WindowCalls(VisibleInOrder(windowOrder, WindowVisibility(m)));
    var calls := Render(m, windowOrder);
    assert calls == MenuBarCall(m) + ws + OverlayCall(m) + StatusBarCall(m);
    assert forall k :: 0 <= k < |MenuBarCall(m)| ==> calls[k] == MenuBarCall(m)[k];
    assert forall k :: |calls| - |StatusBarCall(m)| - |OverlayCall(m)| <= k < |calls| ==>
             !calls[k].WindowCall?;
  }

  /** A hidden DebugOverlay is still drawn while the overlay flag is on. */
  lemma HiddenOverlayStillRendered(m: Manager, windowOrder: seq<string>)
    requires Enumerates(windowOrder, m.windows.Keys) && m.initialized
    requires DebugOverlay in m.panels && !m.panels[DebugOverlay].self.visible && m.showDebugOverlay
    ensures PanelCall(DebugOverlay) in Render(m, windowOrder)
  {
    RenderPanels(m, windowOrder, DebugOverlay);
  }
}

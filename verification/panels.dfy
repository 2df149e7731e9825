/**
 * UI panels and the manager that switches the input action map
 * (UI/Panel/UIPanel.cs, UI/Panel/PanelManager.cs and the identical
 * UI/PanelSystem/PanelManager.cs): while at least one panel is open the "UI"
 * map is active and the cursor is free; otherwise the "Player" map is active
 * and the cursor is locked.
 */
module Panels {
  type PanelRef = nat

  datatype ActionMap = PlayerMap | UIMap
  datatype CursorMode = Locked | Free

  /** `active` is the game object's active flag. */
  datatype Panel = Panel(isOpen: bool, active: bool)

  datatype Manager = Manager(openPanels: set<PanelRef>, actionMap: ActionMap, cursor: CursorMode)

  /** `UIPanel.Awake`: closed and hidden. */
  function AwakePanel(): (p: Panel)
    ensures !p.isOpen && !p.active
  {
    Panel(false, false)
  }

  /** `PanelManager.Awake`: the "Player" map with a locked cursor and no
      panel recorded as open. */
  function AwakeManager(): (m: Manager)
    ensures m.openPanels == {} && m.actionMap == PlayerMap && m.cursor == Locked
  {
    Manager({}, PlayerMap, Locked)
  }

  /** `OnPanelOpened`: record the panel; the first one switches to "UI". */
  function OnPanelOpened(m: Manager, p: PanelRef): (r: Manager)
    ensures r.openPanels == m.openPanels + {p}
    ensures |r.openPanels| == 1 ==> r.actionMap == UIMap && r.cursor == Free
    ensures |r.openPanels| != 1 ==> r.actionMap == m.actionMap && r.cursor == m.cursor
  {
    var open := m.openPanels + {p};
    if |open| == 1 then Manager(open, UIMap, Free) else m.(openPanels := open)
  }

  /** `OnPanelClosed`: forget a recorded panel; the last one switches back
      to "Player". An unrecorded panel changes nothing. */
  function OnPanelClosed(m: Manager, p: PanelRef): (r: Manager)
    ensures p !in m.openPanels ==> r == m
    ensures p in m.openPanels ==> r.openPanels == m.openPanels - {p}
    ensures p in m.openPanels && |r.openPanels| == 0 ==> r.actionMap == PlayerMap && r.cursor == Locked
    ensures p in m.openPanels && |r.openPanels| != 0 ==> r.actionMap == m.actionMap && r.cursor == m.cursor
  {
    if p !in m.openPanels then m
    else
      var open := m.openPanels - {p};
      if |open| == 0 then Manager(open, PlayerMap, Locked) else m.(openPanels := open)
  }

  /** `OpenPanel`: a closed panel opens, shows and notifies the manager; an
      open one does nothing. */
  function OpenPanel(panel: Panel, p: PanelRef, m: Manager): (r: (Panel, Manager))
    ensures panel.isOpen ==> r == (panel, m)
    ensures !panel.isOpen ==> r.0 == Panel(true, true) && r.1 == OnPanelOpened(m, p)
  {
    if panel.isOpen then (panel, m) else (Panel(true, true), OnPanelOpened(m, p))
  }

  /** `ClosePanel`: an open panel closes, hides and notifies the manager; a
      closed one does nothing. */
  function ClosePanel(panel: Panel, p: PanelRef, m: Manager): (r: (Panel, Manager))
    ensures !panel.isOpen ==> r == (panel, m)
    ensures panel.isOpen ==> r.0 == Panel(false, false) && r.1 == OnPanelClosed(m, p)
  {
    if !panel.isOpen then (panel, m) else (Panel(false, false), OnPanelClosed(m, p))
  }

  /** Opening a closed panel and closing it again restores the panel and,
      when the manager had not recorded it and its mode matched its set,
      the manager too. */
  lemma OpenCloseRestores(panel: Panel, p: PanelRef, m: Manager)
    requires !panel.isOpen && p !in m.openPanels
    requires (m.actionMap == UIMap <==> m.openPanels != {}) && (m.cursor == Free <==> m.openPanels != {})
    ensures var o := OpenPanel(panel, p, m);
            var c := ClosePanel(o.0, p, o.1);
            c.0 == Panel(false, false) && c.1 == m
  {
    var o := OpenPanel(panel, p, m);
    assert o.1.openPanels - {p} == m.openPanels;
    if m.openPanels == {} {
      assert |o.1.openPanels| == 1;
    } else {
      assert o.1.openPanels != {p};
      var w :| w in m.openPanels;
      assert {w, p} <= o.1.openPanels;
      SubsetCard({w, p}, o.1.openPanels);
    }
  }

  /** The panels of a scene, by reference, and their manager. */
  datatype Ui = Ui(panels: map<PanelRef, Panel>, manager: Manager)

  function AwakeUi(ids: set<PanelRef>): (u: Ui)
    ensures u.panels.Keys == ids
  {
    Ui(map p | p in ids :: AwakePanel(), AwakeManager())
  }

  /** The manager records exactly the open panels, every panel is shown iff
      open, and the input mode follows whether any panel is open. */
  predicate Consistent(u: Ui)
  {
    && u.manager.openPanels == (set p | p in u.panels && u.panels[p].isOpen)
    && (forall p :: p in u.panels ==> u.panels[p].active == u.panels[p].isOpen)
    && (u.manager.actionMap == UIMap <==> u.manager.openPanels != {})
    && (u.manager.cursor == Free <==> u.manager.openPanels != {})
  }

  datatype PanelEvent = Open(p: PanelRef) | Close(p: PanelRef)

  function Step(u: Ui, e: PanelEvent): (r: Ui)
    ensures r.panels.Keys == u.panels.Keys
  {
    if e.p !in u.panels then u
    else
      var s := match e
        case Open(p) => OpenPanel(u.panels[p], p, u.manager)
        case Close(p) => ClosePanel(u.panels[p], p, u.manager);
      Ui(u.panels[e.p := s.0], s.1)
  }

  lemma AwakeConsistent(ids: set<PanelRef>)
    ensures Consistent(AwakeUi(ids))
  {
    var u := AwakeUi(ids);
    assert (set p | p in u.panels && u.panels[p].isOpen) == {};
  }

  lemma StepConsistent(u: Ui, e: PanelEvent)
    requires Consistent(u)
    ensures Consistent(Step(u, e))
  {
    if e.p in u.panels {
      var r := Step(u, e);
      var q := e.p;
      assert forall p :: p in u.panels && p != q ==> r.panels[p] == u.panels[p];
      var openAfter := set p | p in r.panels && r.panels[p].isOpen;
      if u.panels[q].isOpen == r.panels[q].isOpen {
        assert openAfter == u.manager.openPanels;
      } else if r.panels[q].isOpen {
        assert openAfter == u.manager.openPanels + {q};
        assert q !in u.manager.openPanels;
        if u.manager.openPanels != {} {
          var w :| w in u.manager.openPanels;
          assert {w, q} <= openAfter;
          assert |{w, q}| == 2;
          SubsetCard({w, q}, openAfter);
        }
      } else {
        assert openAfter == u.manager.openPanels - {q};
      }
    }
  }

  lemma SubsetCard(a: set<PanelRef>, b: set<PanelRef>)
    requires a <= b
    ensures |a| <= |b|
  {
    assert b == a + (b - a);
  }

  function Run(u: Ui, events: seq<PanelEvent>): Ui
    decreases |events|
  {
    if |events| == 0 then u else Run(Step(u, events[0]), events[1..])
  }

  /** After any sequence of open and close requests, the "UI" map is active
      and the cursor free exactly when some panel is open. */
  lemma {:induction false} RunConsistent(u: Ui, events: seq<PanelEvent>)
    requires Consistent(u)
    ensures Consistent(Run(u, events))
    ensures var r := Run(u, events);
            (r.manager.actionMap == UIMap <==> exists p :: p in r.panels && r.panels[p].isOpen)
    decreases |events|
  {
    if |events| == 0 {
      OpenExists(u);
    } else {
      StepConsistent(u, events[0]);
      RunConsistent(Step(u, events[0]), events[1..]);
    }
  }

  lemma OpenExists(u: Ui)
    requires Consistent(u)
    ensures u.manager.actionMap == UIMap <==> exists p :: p in u.panels && u.panels[p].isOpen
  {
    if u.manager.actionMap == UIMap {
      var w :| w in u.manager.openPanels;
      assert w in u.panels && u.panels[w].isOpen;
    } else {
      assert forall p :: p in u.panels && u.panels[p].isOpen ==> p in u.manager.openPanels;
    }
  }
}

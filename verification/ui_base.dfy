/**
 * The UI base types: layout rectangles, widgets, and the panel that owns
 * a list of shared widget pointers and forwards Render and Update to them.
 * A widget pointer is the widget's id, or None for a null pointer; the
 * widgets themselves live in a pool keyed by id, so two list entries with
 * one id are one object.
 */
module UIBase {
  import opened Optional

  datatype Rect = Rect(x: real, y: real, width: real, height: real)

  /** FRect::Contains: inclusive on all four edges. */
  predicate Contains(r: Rect, px: real, py: real) {
    px >= r.x && px <= r.x + r.width && py >= r.y && py <= r.y + r.height
  }

  /** The corners of a rectangle of non-negative size are inside it; anything left of or above it is not. */
  lemma ContainsEdges(r: Rect, px: real, py: real)
    requires r.width >= 0.0 && r.height >= 0.0
    ensures Contains(r, r.x, r.y) && Contains(r, r.x + r.width, r.y + r.height)
    ensures Contains(r, r.x + r.width, r.y) && Contains(r, r.x, r.y + r.height)
    ensures px < r.x || py < r.y || px > r.x + r.width || py > r.y + r.height ==> !Contains(r, px, py)
  {
  }

  type WidgetId = nat

  /** A widget's own state. */
  datatype Widget = Widget(bounds: Rect, visible: bool, enabled: bool)

  /** A newly made widget: empty bounds, visible and enabled. */
  const DefaultWidget := Widget(Rect(0.0, 0.0, 0.0, 0.0), true, true)

  /** A panel: its own widget state plus the list of child pointers. */
  datatype Panel = Panel(self: Widget, widgets: seq<Option<WidgetId>>, name: string)

  const EmptyPanel := Panel(DefaultWidget, [], "")

  /** A window: a panel with a title, resizable and movable flags, and a minimized flag. */
  datatype Window = Window(base: Panel, title: string, resizable: bool, movable: bool, minimized: bool)

  const EmptyWindow := Window(EmptyPanel, "", true, true, false)

  /** Every widget, panel and window starts visible and enabled; a window starts resizable, movable and not minimized. */
  lemma NewObjectDefaults()
    ensures DefaultWidget.visible && DefaultWidget.enabled
    ensures EmptyPanel.self.visible && EmptyPanel.self.enabled && EmptyPanel.widgets == []
    ensures EmptyWindow.base.self.visible && EmptyWindow.resizable && EmptyWindow.movable && !EmptyWindow.minimized
  {
  }

  /** Every non-null child is a live widget of the pool (shared_ptr keeps it alive). */
  ghost predicate ChildrenLive(p: Panel, pool: map<WidgetId, Widget>) {
    Live(p.widgets, pool)
  }

  ghost predicate Live(ws: seq<Option<WidgetId>>, pool: map<WidgetId, Widget>) {
    forall k :: 0 <= k < |ws| && ws[k].Some? ==> ws[k].value in pool
  }

  lemma LiveAppend(a: seq<Option<WidgetId>>, b: seq<Option<WidgetId>>, pool: map<WidgetId, Widget>)
    requires Live(a, pool) && Live(b, pool)
    ensures Live(a + b, pool) && Live((a + b)[|a|..], pool)
  {
    assert forall k :: |a| <= k < |a + b| ==> (a + b)[k] == b[k - |a|];
    assert (a + b)[|a|..] == b;
  }

  /** AddWidget: null is ignored, anything else goes at the end. */
  function AddWidget(p: Panel, w: Option<WidgetId>): (r: Panel)
    ensures w.None? ==> r == p
    ensures w.Some? ==> r.widgets == p.widgets + [w]
    ensures r.self == p.self
  {
    if w.Some? then p.(widgets := p.widgets + [w]) else p
  }

  /** The entries of `ws` that are not `w`, in order (std::remove_if with pointer equality). */
  function Without(ws: seq<Option<WidgetId>>, w: Option<WidgetId>): (r: seq<Option<WidgetId>>)
    ensures |r| <= |ws|
    ensures w !in r
    decreases |ws|
  {
    if |ws| == 0 then []
    else (if ws[0] == w then [] else [ws[0]]) + Without(ws[1..], w)
  }

  lemma {:induction false} WithoutCounts(ws: seq<Option<WidgetId>>, w: Option<WidgetId>)
    ensures multiset(Without(ws, w))[w] == 0
    ensures forall x :: x != w ==> multiset(Without(ws, w))[x] == multiset(ws)[x]
    decreases |ws|
  {
    if |ws| > 0 {
      var head := if ws[0] == w then [] else [ws[0]];
      WithoutCounts(ws[1..], w);
      assert ws == [ws[0]] + ws[1..];
      assert multiset(ws) == multiset([ws[0]]) + multiset(ws[1..]);
      assert multiset(Without(ws, w)) == multiset(head) + multiset(Without(ws[1..], w));
    }
  }

  lemma {:induction false} WithoutAppend(a: seq<Option<WidgetId>>, b: seq<Option<WidgetId>>, w: Option<WidgetId>)
    ensures Without(a + b, w) == Without(a, w) + Without(b, w)
    decreases |a|
  {
    if |a| == 0 {
      assert a + b == b;
    } else {
      var head := if a[0] == w then [] else [a[0]];
      var ab := a + b;
      assert ab[0] == a[0] && ab[1..] == a[1..] + b;
      WithoutAppend(a[1..], b, w);
      calc {
        Without(ab, w);
        head + Without(ab[1..], w);
        head + (Without(a[1..], w) + Without(b, w));
        { ConcatAssoc(head, Without(a[1..], w), Without(b, w)); }
        (head + Without(a[1..], w)) + Without(b, w);
        Without(a, w) + Without(b, w);
      }
    }
  }

  lemma ConcatAssoc<T>(x: seq<T>, y: seq<T>, z: seq<T>)
    ensures x + (y + z) == (x + y) + z
  {
  }

  /**
   * RemoveWidget: every occurrence of the pointer goes, every other entry
   * stays as often as it was, and the survivors keep their order.
   */
  function RemoveWidget(p: Panel, w: Option<WidgetId>): (r: Panel)
    ensures w !in r.widgets
    ensures r.self == p.self
    ensures forall x :: x != w ==> multiset(r.widgets)[x] == multiset(p.widgets)[x]
  {
    WithoutCounts(p.widgets, w);
    p.(widgets := Without(p.widgets, w))
  }

  /** Removing is order-preserving: it distributes over a split of the list. */
  lemma RemoveWidgetKeepsOrder(a: seq<Option<WidgetId>>, b: seq<Option<WidgetId>>, w: Option<WidgetId>)
    ensures Without(a + b, w) == Without(a, w) + Without(b, w)
    ensures w !in a ==> Without(a, w) == a
  {
    WithoutAppend(a, b, w);
    WithoutAbsent(a, w);
  }

  lemma {:induction false} WithoutAbsent(a: seq<Option<WidgetId>>, w: Option<WidgetId>)
    ensures w !in a ==> Without(a, w) == a
    decreases |a|
  {
    if |a| > 0 {
      WithoutAbsent(a[1..], w);
      if w !in a {
        assert w !in a[1..];
        assert a == [a[0]] + a[1..];
      }
    }
  }

  /** Adding a widget and removing it again restores a list that did not hold it. */
  lemma AddRemoveRoundTrip(p: Panel, w: WidgetId)
    requires Some(w) !in p.widgets
    ensures RemoveWidget(AddWidget(p, Some(w)), Some(w)) == p
  {
    WithoutAppend(p.widgets, [Some(w)], Some(w));
    WithoutAbsent(p.widgets, Some(w));
    assert Without([Some(w)], Some(w)) == [];
  }

  function ClearWidgets(p: Panel): (r: Panel)
    ensures r.widgets == [] && r.self == p.self
  {
    p.(widgets := [])
  }

  /**
   * The ids, in list order, of the non-null children that `Picked` accepts.
   * A child outside the pool is skipped; the callers require every child to
   * be live, so that case does not arise for them.
   */
  function Selected(ws: seq<Option<WidgetId>>, pool: map<WidgetId, Widget>, render: bool): (r: seq<WidgetId>)
    ensures |r| <= |ws|
    decreases |ws|
  {
    if |ws| == 0 then []
    else
      Chosen(ws[0], pool, render) + Selected(ws[1..], pool, render)
  }

  /** One list entry's contribution: its id when it is non-null, live and picked. */
  function Chosen(o: Option<WidgetId>, pool: map<WidgetId, Widget>, render: bool): seq<WidgetId> {
    if o.Some? && o.value in pool && Picked(pool[o.value], render) then [o.value] else []
  }

  /** An id is selected exactly when some entry points at it and `Picked` accepts its widget. */
  lemma {:induction false} SelectedMembers(ws: seq<Option<WidgetId>>, pool: map<WidgetId, Widget>, render: bool, id: WidgetId)
    ensures id in Selected(ws, pool, render) <==> Some(id) in ws && id in pool && Picked(pool[id], render)
    decreases |ws|
  {
    if |ws| > 0 {
      SelectedMembers(ws[1..], pool, render, id);
      assert ws == [ws[0]] + ws[1..];
    }
  }

  lemma SelectedAllMembers(ws: seq<Option<WidgetId>>, pool: map<WidgetId, Widget>, render: bool)
    ensures forall id :: id in Selected(ws, pool, render) <==> Some(id) in ws && id in pool && Picked(pool[id], render)
  {
    forall id: WidgetId
      ensures id in Selected(ws, pool, render) <==> Some(id) in ws && id in pool && Picked(pool[id], render)
    {
      SelectedMembers(ws, pool, render, id);
    }
  }

  /**
   * A selected id is called once per list entry naming it: a widget listed
   * twice is called twice.
   */
  lemma {:induction false} SelectedCounts(ws: seq<Option<WidgetId>>, pool: map<WidgetId, Widget>, render: bool, id: WidgetId)
    ensures multiset(Selected(ws, pool, render))[id]
            == if id in pool && Picked(pool[id], render) then multiset(ws)[Some(id)] else 0
    decreases |ws|
  {
    if |ws| > 0 {
      SelectedCounts(ws[1..], pool, render, id);
      ChosenCount(ws[0], pool, render, id);
      HeadCount(ws, Some(id));
      assert Selected(ws, pool, render) == Chosen(ws[0], pool, render) + Selected(ws[1..], pool, render);
    }
  }

  lemma ChosenCount(o: Option<WidgetId>, pool: map<WidgetId, Widget>, render: bool, id: WidgetId)
    ensures multiset(Chosen(o, pool, render))[id]
            == if o == Some(id) && id in pool && Picked(pool[id], render) then 1 else 0
  {
  }

  lemma HeadCount<T>(xs: seq<T>, x: T)
    requires |xs| > 0
    ensures multiset(xs)[x] == multiset(xs[1..])[x] + (if xs[0] == x then 1 else 0)
  {
    assert xs == [xs[0]] + xs[1..];
  }

  lemma SelectedAllCounts(ws: seq<Option<WidgetId>>, pool: map<WidgetId, Widget>, render: bool)
    ensures forall id :: multiset(Selected(ws, pool, render))[id]
                         == if id in pool && Picked(pool[id], render) then multiset(ws)[Some(id)] else 0
  {
    forall id: WidgetId
      ensures multiset(Selected(ws, pool, render))[id]
              == if id in pool && Picked(pool[id], render) then multiset(ws)[Some(id)] else 0
    {
      SelectedCounts(ws, pool, render, id);
    }
  }

  /** Render visits visible children, Update enabled ones. */
  predicate Picked(w: Widget, render: bool) {
    if render then w.visible else w.enabled
  }

  /** Selection follows list order: a concatenation is selected part by part. */
  lemma {:induction false} SelectedAppend(a: seq<Option<WidgetId>>, b: seq<Option<WidgetId>>,
                                          pool: map<WidgetId, Widget>, render: bool)
    ensures Selected(a + b, pool, render) == Selected(a, pool, render) + Selected(b, pool, render)
    decreases |a|
  {
    if |a| == 0 {
      assert a + b == b;
    } else {
      var ab := a + b;
      assert ab[0] == a[0] && ab[1..] == a[1..] + b;
      SelectedAppend(a[1..], b, pool, render);
      calc {
        Selected(ab, pool, render);
        Chosen(a[0], pool, render) + Selected(a[1..] + b, pool, render);
        Chosen(a[0], pool, render) + (Selected(a[1..], pool, render) + Selected(b, pool, render));
      }
    }
  }

  /**
   * IPanel::Render: nothing when the panel is hidden; otherwise a Render
   * call on each non-null visible child, in list order.
   */
  function RenderPanel(p: Panel, pool: map<WidgetId, Widget>): (calls: seq<WidgetId>)
    requires ChildrenLive(p, pool)
    ensures !p.self.visible ==> calls == []
    ensures p.self.visible ==> forall id :: id in calls <==> Some(id) in p.widgets && id in pool && pool[id].visible
    ensures p.self.visible ==> forall id :: multiset(calls)[id]
                                            == if id in pool && pool[id].visible then multiset(p.widgets)[Some(id)] else 0
  {
    if p.self.visible then
      SelectedAllMembers(p.widgets, pool, true);
      SelectedAllCounts(p.widgets, pool, true);
      Selected(p.widgets, pool, true)
    else []
  }

  /**
   * IPanel::Update: gated on the panel being enabled (not visible); an
   * Update call on each non-null enabled child, in list order.
   */
  function UpdatePanel(p: Panel, pool: map<WidgetId, Widget>): (calls: seq<WidgetId>)
    requires ChildrenLive(p, pool)
    ensures !p.self.enabled ==> calls == []
    ensures p.self.enabled ==> forall id :: id in calls <==> Some(id) in p.widgets && id in pool && pool[id].enabled
    ensures p.self.enabled ==> forall id :: multiset(calls)[id]
                                            == if id in pool && pool[id].enabled then multiset(p.widgets)[Some(id)] else 0
  {
    if p.self.enabled then
      SelectedAllMembers(p.widgets, pool, false);
      SelectedAllCounts(p.widgets, pool, false);
      Selected(p.widgets, pool, false)
    else []
  }

  /** A hidden but enabled panel still updates its enabled children. */
  lemma HiddenPanelStillUpdates(p: Panel, pool: map<WidgetId, Widget>, id: WidgetId)
    requires ChildrenLive(p, pool)
    requires !p.self.visible && p.self.enabled && Some(id) in p.widgets && pool[id].enabled
    ensures RenderPanel(p, pool) == [] && id in UpdatePanel(p, pool)
  {
  }

  /** Adding a visible widget to a visible panel renders it last, after the existing ones. */
  lemma RenderAfterAdd(p: Panel, pool: map<WidgetId, Widget>, w: WidgetId)
    requires ChildrenLive(p, pool) && w in pool && pool[w].visible && p.self.visible
    ensures ChildrenLive(AddWidget(p, Some(w)), pool)
    ensures RenderPanel(AddWidget(p, Some(w)), pool) == RenderPanel(p, pool) + [w]
  {
    LiveAppend(p.widgets, [Some(w)], pool);
    SelectedAppend(p.widgets, [Some(w)], pool, true);
    assert Selected([Some(w)], pool, true) == [w] by {
      assert [Some(w)][1..] == [];
    }
  }
}

/**
 * What one widget update looks like, and the sequences of updates the worker
 * and the provider push to the widget host. The host is the ordered list of
 * registered widget ids, the minimum width each reports, and the log of
 * updates it has received.
 */
module Render {
  import opened Wrappers

  /** The two layouts: `widget_2x1` (icon only) and `widget_5x1` (icon and title). */
  datatype Layout = Compact | Wide

  /** One `updateAppWidget` call: the widget, its layout, its icon resource and, on the wide layout, its title text. */
  datatype WidgetUpdate = WidgetUpdate(id: int, layout: Layout, icon: int, title: Option<string>)

  /** Widgets at least this wide (in dp) get the wide layout. */
  const WideThresholdDp := 300

  /** What the provider shows when no condition has been stored yet. */
  const UnknownCondition := "Unknown"

  /** The condition a render reads from the preferences: the stored one, or "Unknown" when unset. */
  function ShownCondition(stored: Option<string>): (shown: string)
    ensures stored.None? ==> shown == UnknownCondition
    ensures stored.Some? ==> shown == stored.value
  {
    stored.GetOr(UnknownCondition)
  }

  /** The minimum width a widget's options report; a widget without that option reports 0. */
  function MinWidth(widths: map<int, int>, id: int): (w: int)
    ensures id !in widths ==> w == 0
    ensures id in widths ==> w == widths[id]
  {
    if id in widths then widths[id] else 0
  }

  /** The update for one widget of the given width, as the worker's and the provider's loops build it. */
  function Views(id: int, condition: string, icon: int, minWidth: int): (u: WidgetUpdate)
    ensures u.id == id
    ensures u.icon == icon
    ensures u.layout == Wide <==> minWidth >= WideThresholdDp
    ensures u.title.Some? <==> u.layout == Wide
    ensures u.title.Some? ==> u.title.value == condition
  {
    if minWidth >= WideThresholdDp then
      WidgetUpdate(id, Wide, icon, Some(condition))
    else
      WidgetUpdate(id, Compact, icon, None)
  }

  /** The update `updateSingleWidget` builds: always the wide layout with its title, whatever the width. */
  function SingleWidgetViews(id: int, condition: string, icon: int): (u: WidgetUpdate)
    ensures u.id == id && u.icon == icon
    ensures u.layout == Wide && u.title == Some(condition)
  {
    WidgetUpdate(id, Wide, icon, Some(condition))
  }

  /** The single-widget update agrees with the width-aware one exactly for wide widgets. */
  lemma SingleWidgetIgnoresWidth(id: int, condition: string, icon: int, minWidth: int)
    ensures SingleWidgetViews(id, condition, icon) == Views(id, condition, icon, minWidth)
      <==> minWidth >= WideThresholdDp
  {
  }

  /** The updates for a list of widgets, one per id and in the same order. */
  function Renders(ids: seq<int>, condition: string, icon: int, widths: map<int, int>): (us: seq<WidgetUpdate>)
    ensures |us| == |ids|
  {
    if ids == [] then []
    else
      var last := |ids| - 1;
      Renders(ids[..last], condition, icon, widths) + [Views(ids[last], condition, icon, MinWidth(widths, ids[last]))]
  }

  /** Every widget gets exactly one update, at its own position, built for its own width. */
  lemma {:induction false} RendersAt(ids: seq<int>, condition: string, icon: int, widths: map<int, int>, i: nat)
    requires i < |ids|
    ensures Renders(ids, condition, icon, widths)[i] == Views(ids[i], condition, icon, MinWidth(widths, ids[i]))
  {
    var last := |ids| - 1;
    if i < last {
      RendersAt(ids[..last], condition, icon, widths, i);
    }
  }

  /** Rendering one more widget appends its update. */
  lemma RendersSnoc(ids: seq<int>, id: int, condition: string, icon: int, widths: map<int, int>)
    ensures Renders(ids + [id], condition, icon, widths)
      == Renders(ids, condition, icon, widths) + [Views(id, condition, icon, MinWidth(widths, id))]
  {
    assert (ids + [id])[..|ids|] == ids;
  }

  /** The ids in order, leaving out those whose update fails. */
  function Surviving(ids: seq<int>, failing: set<int>): (s: seq<int>)
    ensures |s| <= |ids|
  {
    if ids == [] then []
    else
      var last := |ids| - 1;
      Surviving(ids[..last], failing) + (if ids[last] in failing then [] else [ids[last]])
  }

  /** Exactly the ids that do not fail survive. */
  lemma {:induction false} SurvivingMembers(ids: seq<int>, failing: set<int>, id: int)
    ensures id in Surviving(ids, failing) <==> id in ids && id !in failing
  {
    if ids != [] {
      var last := |ids| - 1;
      SurvivingMembers(ids[..last], failing, id);
      assert ids == ids[..last] + [ids[last]];
    }
  }

  /** Without failures, every id survives. */
  lemma {:induction false} NothingFailingKeepsAll(ids: seq<int>, failing: set<int>)
    requires forall i :: 0 <= i < |ids| ==> ids[i] !in failing
    ensures Surviving(ids, failing) == ids
  {
    if ids != [] {
      var last := |ids| - 1;
      NothingFailingKeepsAll(ids[..last], failing);
      assert ids[..last] + [ids[last]] == ids;
    }
  }

  /** Taking one more id of the list renders it when it does not fail, and nothing when it does. */
  lemma SurvivingRendersStep(ids: seq<int>, i: nat, failing: set<int>, condition: string, icon: int, widths: map<int, int>)
    requires i < |ids|
    ensures Renders(Surviving(ids[..i + 1], failing), condition, icon, widths)
      == Renders(Surviving(ids[..i], failing), condition, icon, widths)
         + if ids[i] in failing then [] else [Views(ids[i], condition, icon, MinWidth(widths, ids[i]))]
  {
    var before := Surviving(ids[..i], failing);
    assert ids[..i + 1][..i] == ids[..i];
    if ids[i] in failing {
      assert Surviving(ids[..i + 1], failing) == before + [] == before;
    } else {
      assert Surviving(ids[..i + 1], failing) == before + [ids[i]];
      RendersSnoc(before, ids[i], condition, icon, widths);
    }
  }

  /** The position of the first id whose update fails, or the length of the list when none does. */
  function FirstFailure(ids: seq<int>, failing: set<int>): (k: nat)
    ensures k <= |ids|
    ensures forall i :: 0 <= i < k ==> ids[i] !in failing
    ensures k < |ids| ==> ids[k] in failing
  {
    if ids == [] || ids[0] in failing then 0 else 1 + FirstFailure(ids[1..], failing)
  }

  /** What a widget displays: the last update the host received for it, if any. */
  function LastUpdateFor(log: seq<WidgetUpdate>, id: int): (r: Option<WidgetUpdate>)
    ensures r.Some? ==> r.value in log && r.value.id == id
    ensures r.Some? ==> exists j :: 0 <= j < |log| && log[j] == r.value && forall k :: j < k < |log| ==> log[k].id != id
    ensures r.None? <==> forall u :: u in log ==> u.id != id
  {
    if log == [] then None
    else
      var last := |log| - 1;
      if log[last].id == id then Some(log[last]) else LastUpdateFor(log[..last], id)
  }

  /** Pushing the same update twice shows the same as pushing it once: re-rendering from unchanged state is harmless. */
  lemma RepeatedUpdateIsIdempotent(log: seq<WidgetUpdate>, u: WidgetUpdate, id: int)
    ensures LastUpdateFor(log + [u] + [u], id) == LastUpdateFor(log + [u], id)
  {
  }

  /**
   * After a full round of updates, every widget of the round displays its
   * update from that round, whatever was shown before.
   */
  lemma {:induction false} RoundShowsOnWidgets(log: seq<WidgetUpdate>, ids: seq<int>, condition: string, icon: int, widths: map<int, int>, id: int)
    requires id in ids
    ensures LastUpdateFor(log + Renders(ids, condition, icon, widths), id)
      == Some(Views(id, condition, icon, MinWidth(widths, id)))
  {
    var last := |ids| - 1;
    var front := log + Renders(ids[..last], condition, icon, widths);
    var u := Views(ids[last], condition, icon, MinWidth(widths, ids[last]));
    assert log + Renders(ids, condition, icon, widths) == front + [u];
    assert (front + [u])[..|front|] == front;
    if ids[last] != id {
      assert id in ids[..last] by {
        var j :| 0 <= j < |ids| && ids[j] == id;
        assert j < last && ids[..last][j] == id;
      }
      RoundShowsOnWidgets(log, ids[..last], condition, icon, widths, id);
    }
  }
}

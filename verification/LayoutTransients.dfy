/** The layout manager's map from transient windows to their toplevels, and the transients that each
    toplevel keeps for itself: the same pairs, over every run of events. */
module LayoutTransients {
  import opened Options
  import opened Stackers
  import L = LayoutManagers
  import T = Transients

  /** An event of the layout manager; for a window that is mapped, what it is like. */
  datatype Event = Event(layout: L.Event, modal: bool, infoBubble: bool)

  /** The layout manager, and the transients of each of its toplevels. */
  datatype Desktop = Desktop(layout: L.State, transients: map<XWindow, T.Toplevel>) {

    ghost predicate Valid() {
      && layout.Valid()
      && transients.Keys == layout.tops.Keys
      && forall x | x in transients :: transients[x].Valid()
    }

    /** A window is mapped to an owner exactly if it is one of the owner's transients. */
    ghost predicate Tied() {
      forall t, x :: PairTied(t, x)
    }

    ghost predicate PairTied(t: XWindow, x: XWindow) {
      (t in layout.owners && layout.owners[t] == x) <==> (x in transients && t in transients[x].transients)
    }

    predicate Possible(e: Event) {
      layout.Possible(e.layout)
    }

    ghost predicate Orderly(e: Event)
      requires layout.Valid()
    {
      Possible(e) && !layout.OrphansTransients(e.layout)
    }

    /** The transients after an event, before any of them is asked to take the focus. */
    function After(e: Event): map<XWindow, T.Toplevel> {
      match e.layout
      case MapWindow(win, transientFor, _, _) =>
        if transientFor in transients
        then transients[transientFor := transients[transientFor].Added(T.Window(win, e.modal, e.infoBubble))]
        else transients[win := T.Toplevel(map[], [], None)]
      case UnmapWindow(win) =>
        var left := if win in layout.owners && layout.owners[win] in transients
                    then transients[layout.owners[win] := transients[layout.owners[win]].Removed(win)]
                    else transients;
        left - {win}
      case _ => transients
    }

    /** One event; the toplevels may then raise or prefer some of their transients. */
    ghost predicate Step(e: Event, next: Desktop)
      requires layout.Valid() && Possible(e)
    {
      && next.layout == layout.Step(e.layout)
      && next.transients.Keys == After(e).Keys
      && forall x | x in next.transients ::
           next.transients[x].Valid() && next.transients[x].transients == After(e)[x].transients
    }

    lemma MapKeepsTied(e: Event, next: Desktop)
      requires Valid() && Tied() && Orderly(e) && Step(e, next) && e.layout.MapWindow?
      ensures next.Valid() && next.Tied()
    {
      hide L.State.Valid, T.Toplevel.Valid, L.State.Mapped;
      layout.MappedKeeps(e.layout);
      layout.MappedWindows(e.layout);
      var win, owner := e.layout.win, e.layout.transientFor;
      assert forall x :: x in layout.tops <==> x in transients.Keys;
      forall t, x
        ensures next.PairTied(t, x)
      {
        assert PairTied(t, x);
        assert PairTied(win, owner);
      }
    }

    /** The window's owner, if it has one, loses it; the window itself has no transients left. */
    lemma UnmapKeepsTied(e: Event, next: Desktop)
      requires Valid() && Tied() && Orderly(e) && Step(e, next) && e.layout.UnmapWindow?
      ensures next.Valid() && next.Tied()
    {
      hide L.State.Valid, T.Toplevel.Valid, L.State.Unmapped, T.Toplevel.Removed;
      var win := e.layout.win;
      layout.UnmappedKeepsExactly(win);
      layout.UnmappedWindows(win);
      assert forall t | t in layout.owners :: layout.owners[t] != win;
      forall t, x
        ensures next.PairTied(t, x)
      {
        assert PairTied(t, x) && PairTied(win, x);
        if x in transients {
          transients[x].RemovedShape(win);
        }
      }
    }

    lemma OtherKeepsTied(e: Event, next: Desktop)
      requires Valid() && Tied() && Orderly(e) && Step(e, next) && !e.layout.MapWindow? && !e.layout.UnmapWindow?
      ensures next.Valid() && next.Tied()
    {
      hide L.State.Valid, T.Toplevel.Valid, L.State.Step;
      layout.StepKeepsExactly(e.layout);
      layout.OtherWindows(e.layout);
      forall t, x
        ensures next.PairTied(t, x)
      {
        assert PairTied(t, x);
      }
    }

    lemma StepKeepsTied(e: Event, next: Desktop)
      requires Valid() && Tied() && Orderly(e) && Step(e, next)
      ensures next.Valid() && next.Tied()
    {
      hide Valid, Tied, Step, Orderly;
      if e.layout.MapWindow? {
        MapKeepsTied(e, next);
      } else if e.layout.UnmapWindow? {
        UnmapKeepsTied(e, next);
      } else {
        OtherKeepsTied(e, next);
      }
    }

    /** What an orderly event does to a desktop whose layout is valid. */
    ghost predicate Follows(e: Event, next: Desktop) {
      layout.Valid() ==> Orderly(e) && Step(e, next)
    }
  }

  /** Over every run of events in which no toplevel goes before its transients, the layout manager
      knows a transient's owner exactly as long as the owner's own map knows the transient. */
  lemma {:induction false} RunKeepsTied(states: seq<Desktop>, events: seq<Event>, i: nat)
    requires |states| == |events| + 1 && i < |states|
    requires states[0].Valid() && states[0].Tied()
    requires forall k | 0 <= k < |events| :: states[k].Follows(events[k], states[k + 1])
    ensures states[i].Valid() && states[i].Tied()
  {
    hide Desktop.Tied, Desktop.Step, Desktop.Orderly, L.State.Valid;
    if i > 0 {
      RunKeepsTied(states, events, i - 1);
      assert states[i - 1].Follows(events[i - 1], states[i]);
      states[i - 1].StepKeepsTied(events[i - 1], states[i]);
    }
  }
}

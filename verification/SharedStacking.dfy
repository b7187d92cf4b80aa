/** All toplevel windows together: each has its own transients, and all of them share the stacking
    order of the X server. */
module SharedStacking {
  import opened Options
  import opened Sequences
  import opened Stackers
  import T = Transients

  /** Something that is done to one of the toplevels, or a toplevel that comes or goes. */
  datatype Event =
    | Open(win: XWindow)
    | Close(win: XWindow)
    | Do(win: XWindow, call: T.Call)

  /** The toplevels by their windows, the sentinel of the layer for transients, and the server's
      order, top first. */
  datatype Windows = Windows(tops: map<XWindow, T.Toplevel>, layer: XWindow, z: seq<XWindow>) {

    function At(win: XWindow): T.Stage
      requires win in tops
    {
      T.Stage(tops[win], win, layer, z)
    }

    /** No window is a transient of two toplevels, or of one and a toplevel itself. */
    ghost predicate Apart() {
      forall a, b, x | a in tops && b in tops && x in tops[a].transients :: x != b && (x in tops[b].transients ==> a == b)
    }

    ghost predicate Valid() {
      layer in z && Apart() && forall win | win in tops :: At(win).Valid()
    }

    /** The server stacks the transients of every toplevel in the order that is asked for. */
    ghost predicate Agrees() {
      forall win | win in tops :: At(win).Agrees()
    }

    ghost predicate IsTransient(x: XWindow) {
      exists a | a in tops :: x in tops[a].transients
    }

    /** A window is opened once; a new transient is not known to any other toplevel. */
    ghost predicate Possible(e: Event) {
      match e
      case Open(win) => win in z && win != layer && win !in tops && !IsTransient(win)
      case Close(win) => win in tops
      case Do(win, call) =>
        && win in tops && At(win).CallMapped(call)
        && (call.AddTransient? ==>
              call.w.xid !in tops && forall a | a in tops && a != win :: call.w.xid !in tops[a].transients)
    }

    function Step(e: Event): Windows
      requires Valid() && Possible(e)
    {
      match e
      case Open(win) => this.(tops := tops[win := T.Toplevel(map[], [], None)])
      case Close(win) => this.(tops := tops - {win})
      case Do(win, call) => var s := At(win).Step(call); this.(tops := tops[win := s.top], z := s.z)
    }

    /** A new transient that goes below all others of its toplevel while one of them is below its
        place. */
    ghost predicate Misplaces(e: Event)
      requires Valid() && Possible(e)
    {
      e.Do? && At(e.win).Misplaces(e.call)
    }

    /** A toplevel begins without transients and takes its record along when it goes; neither changes
        the server's order. */
    lemma OpensAndCloses(win: XWindow)
      requires Valid()
      ensures Possible(Open(win)) ==>
                var t := Step(Open(win));
                && t.z == z && t.tops.Keys == tops.Keys + {win} && t.At(win).top.transients == map[]
                && forall a | a in tops :: t.tops[a] == tops[a]
      ensures Possible(Close(win)) ==>
                var t := Step(Close(win));
                && t.z == z && t.tops.Keys == tops.Keys - {win} && forall a | a in t.tops :: t.tops[a] == tops[a]
    {
      hide T.Stage.Valid, Apart, IsTransient;
    }

    // ----- One toplevel's operation and the others

    lemma DoIs(win: XWindow, call: T.Call)
      requires Valid() && Possible(Do(win, call))
      ensures var s, t := At(win).Step(call), Step(Do(win, call));
              && s.win == win && s.layer == layer && t.At(win) == s && t.z == s.z && t.tops.Keys == tops.Keys
              && forall a | a in tops && a != win :: t.tops[a] == tops[a]
    {
      hide T.Stage.Valid, T.Stage.Step, Apart;
      At(win).StepKeeps(call);
    }

    lemma DoKeepsApart(win: XWindow, call: T.Call)
      requires Valid() && Possible(Do(win, call))
      ensures Step(Do(win, call)).Apart()
    {
      hide T.Stage.Valid, T.Stage.Step;
      DoIs(win, call);
      At(win).StepTransients(call);
      var t := Step(Do(win, call));
      hide Step;
      assert forall x | x in t.tops[win].transients :: x in tops[win].transients || (call.AddTransient? && x == call.w.xid);
    }

    /** An operation of one toplevel leaves the transients of another in their order. */
    lemma DoKeepsOther(win: XWindow, call: T.Call, other: XWindow)
      requires Valid() && Possible(Do(win, call)) && other in tops && other != win
      ensures var t := Step(Do(win, call));
              other in t.tops && t.At(other).Valid() && (t.At(other).Agrees() <==> At(other).Agrees())
    {
      DoIs(win, call);
      OtherTransients(win, call, other);
      hide T.Stage.Step, T.Toplevel.Valid, Apart, Restrict;
      At(win).StepKeeps(call);
      At(win).StepKeepsOthers(call, tops[other].stack);
      var t := Step(Do(win, call));
      hide Step, T.Stage.CallMapped;
      assert t.tops[other] == tops[other];
    }

    lemma OtherTransients(win: XWindow, call: T.Call, other: XWindow)
      requires Valid() && Possible(Do(win, call)) && other in tops && other != win
      ensures forall x | x in tops[other].stack ::
                x !in tops[win].transients && (call.AddTransient? ==> x != call.w.xid)
    {
      assert At(other).Valid();
      forall x | x in tops[other].stack
        ensures x in tops[other].transients
      {
        tops[other].ListsMeaning(x);
      }
      hide T.Stage.Valid, T.Toplevel.Lists, T.Stage.CallMapped;
    }

    // ----- Every event

    lemma StepKeeps(e: Event)
      requires Valid() && Possible(e)
      ensures Step(e).Valid()
    {
      match e
      case Open(win) => OpenKeeps(win);
      case Close(win) => hide T.Stage.Valid;
      case Do(win, call) =>
        hide Step, Apart, T.Stage.Valid, T.Stage.CallMapped;
        DoIs(win, call);
        DoKeepsApart(win, call);
        At(win).StepKeeps(call);
        var t := Step(e);
        assert layer in t.z;
        forall a | a in t.tops
          ensures t.At(a).Valid()
        {
          if a != win {
            DoKeepsOther(win, call, a);
          }
        }
    }

    lemma OpenKeeps(win: XWindow)
      requires Valid() && Possible(Open(win))
      ensures Step(Open(win)).Valid()
    {
      var t := Step(Open(win));
      assert t.At(win).Valid();
      hide T.Stage.Valid, T.Toplevel.Valid;
      forall a | a in t.tops
        ensures t.At(a).Valid()
      {
        if a != win {
          assert At(a).Valid();
        }
      }
    }

    /** While all agree, an event keeps it so exactly if it does not misplace a new transient. */
    lemma StepAgreesExactly(e: Event)
      requires Valid() && Agrees() && Possible(e)
      ensures Step(e).Agrees() <==> !Misplaces(e)
    {
      match e
      case Open(win) =>
        NoneKept(z);
        hide T.Stage.Valid, Restrict;
      case Close(win) => hide T.Stage.Valid, T.Stage.Agrees;
      case Do(win, call) =>
        hide Step, Apart, T.Stage.Valid, T.Stage.Agrees, T.Stage.Misplaces;
        DoIs(win, call);
        At(win).StepAgreesExactly(call);
        forall a | a in tops && a != win
          ensures Step(e).At(a).Agrees()
        {
          DoKeepsOther(win, call, a);
        }
    }

    lemma NoneKept(z: seq<XWindow>)
      ensures Restrict(z, []) == []
    {
      T.NoneKept(z);
    }

    /** What an event does to windows whose records are valid. */
    ghost predicate Follows(e: Event, next: Windows) {
      Valid() ==> Possible(e) && next == Step(e)
    }

    ghost predicate Places(e: Event) {
      Valid() && Possible(e) ==> !Misplaces(e)
    }

    // ----- Layouts

    /** Configuring one toplevel for a layout: it takes the focus if it is to have it, and then all
        its transients are restacked. */
    function Configured(win: XWindow, direct: bool, focus: Option<XWindow>): (r: Windows)
      requires Valid() && win in tops
      ensures r.Valid() && r.tops.Keys == tops.Keys && r.layer == layer
    {
      hide Valid, T.Stage.Step;
      var s := if focus == Some(win) then Step(Do(win, T.TakeFocus)) else this;
      StepKeeps(Do(win, T.TakeFocus));
      s.StepKeeps(Do(win, T.RestackAll(direct)));
      s.Step(Do(win, T.RestackAll(direct)))
    }

    /** A layout configures toplevel after toplevel. */
    function LaidOut(order: seq<XWindow>, direct: bool, focus: Option<XWindow>): (r: Windows)
      requires Valid() && forall win | win in order :: win in tops
      ensures r.Valid() && r.tops.Keys == tops.Keys && r.layer == layer
    {
      hide Valid, Configured;
      if order == [] then this
      else
        assert forall win | win in Front(order) :: win in order;
        assert Last(order) in order;
        LaidOut(Front(order), direct, focus).Configured(Last(order), direct, focus)
    }

    lemma ConfiguredAgrees(win: XWindow, direct: bool, focus: Option<XWindow>, other: XWindow)
      requires Valid() && win in tops && other in tops && (other == win || At(other).Agrees())
      ensures Configured(win, direct, focus).At(other).Agrees()
    {
      hide Valid, Step, T.Stage.Valid, T.Stage.Agrees;
      var s := if focus == Some(win) then Step(Do(win, T.TakeFocus)) else this;
      StepKeeps(Do(win, T.TakeFocus));
      DoIs(win, T.TakeFocus);
      s.StepKeeps(Do(win, T.RestackAll(direct)));
      if other == win {
        s.DoIs(win, T.RestackAll(direct));
        s.StageIsValid(win);
        s.At(win).StepAgreesExactly(T.RestackAll(direct));
      } else {
        DoKeepsOther(win, T.TakeFocus, other);
        s.DoKeepsOther(win, T.RestackAll(direct), other);
      }
    }

    lemma StageIsValid(win: XWindow)
      requires Valid() && win in tops
      ensures At(win).Valid() && !At(win).Misplaces(T.RestackAll(true)) && !At(win).Misplaces(T.RestackAll(false))
    {
      hide T.Stage.Valid, Apart;
    }

    /** Whatever the orders were, every toplevel that a layout configures ends with its transients
        in the order that is asked for. */
    lemma {:induction false} LayoutAgrees(order: seq<XWindow>, direct: bool, focus: Option<XWindow>, win: XWindow)
      requires Valid() && win in order && forall x | x in order :: x in tops
      ensures LaidOut(order, direct, focus).At(win).Agrees()
    {
      hide Valid, Configured, T.Stage.Agrees;
      assert order == Front(order) + [Last(order)];
      if win != Last(order) {
        LayoutAgrees(Front(order), direct, focus, win);
      }
      LaidOut(Front(order), direct, focus).ConfiguredAgrees(Last(order), direct, focus, win);
    }

    /** After a layout of all toplevels, the server agrees for each of them. */
    lemma LayoutOfAllAgrees(order: seq<XWindow>, direct: bool, focus: Option<XWindow>)
      requires Valid() && forall x :: x in order <==> x in tops
      ensures LaidOut(order, direct, focus).Agrees()
    {
      hide Valid, LaidOut, T.Stage.Agrees;
      forall win | win in tops
        ensures LaidOut(order, direct, focus).At(win).Agrees()
      {
        LayoutAgrees(order, direct, focus, win);
      }
    }

    /** The toplevel with its transients directly above it, and no other window in between. */
    ghost predicate Together(win: XWindow)
      requires win in tops
    {
      Contiguous(z, tops[win].stack + [win])
    }

    lemma RestackedIs(win: XWindow)
      requires Valid() && win in tops
      ensures var s, t := At(win), Step(Do(win, T.RestackAll(true)));
              && win in z && t.tops == tops && z == s.AboveAnchor(true) + [win] + s.BelowAnchor(true)
              && t.z == Minus(s.AboveAnchor(true), tops[win].stack) + tops[win].stack
                        + ([win] + Minus(s.BelowAnchor(true), tops[win].stack))
    {
      hide Valid, Apart, Step, Possible, T.Stage.Valid, T.Stage.Agrees, T.Stage.Restacked, T.Stage.AboveAnchor,
           T.Stage.BelowAnchor, Minus;
      StageIsValid(win);
      var s, block := At(win), tops[win].stack;
      RestackPossible(win);
      DoIs(win, T.RestackAll(true));
      s.RestackAllAgrees(true);
      s.AnchorIsMapped(true);
      s.AnchorSplit(true);
      assert Step(Do(win, T.RestackAll(true))).tops == tops;
      assert Minus(s.AboveAnchor(true), block) + [] == Minus(s.AboveAnchor(true), block);
    }

    lemma RestackPossible(win: XWindow)
      requires win in tops
      ensures Possible(Do(win, T.RestackAll(true))) && At(win).win == win && At(win).top == tops[win] && At(win).z == z
    {
    }

    lemma RestackedTogether(win: XWindow, other: XWindow)
      requires Valid() && win in tops && other in tops && (other == win || Together(other))
      ensures var t := Step(Do(win, T.RestackAll(true))); other in t.tops && t.Together(other)
    {
      hide Step, T.Stage.AboveAnchor, T.Stage.BelowAnchor, Contiguous, Minus, T.Stage.Valid, Apart;
      RestackedIs(win);
      var a, c, block := At(win).AboveAnchor(true), At(win).BelowAnchor(true), tops[win].stack;
      if other == win {
        ContiguousIs(Minus(a, block), block + [win], Minus(c, block));
        assert Minus(a, block) + block + ([win] + Minus(c, block)) == Minus(a, block) + (block + [win]) + Minus(c, block);
      } else {
        PartsApart(win, other);
        BlockKeepsContiguous(a, win, c, block, tops[other].stack + [other]);
      }
    }

    lemma PartsApart(win: XWindow, other: XWindow)
      requires Valid() && win in tops && other in tops && win != other
      ensures win !in tops[other].stack + [other]
      ensures forall x | x in tops[win].stack :: x !in tops[other].stack + [other]
    {
      assert At(win).Valid() && At(other).Valid();
      forall x
        ensures x in tops[win].stack ==> x in tops[win].transients
        ensures x in tops[other].stack ==> x in tops[other].transients
      {
        tops[win].ListsMeaning(x);
        tops[other].ListsMeaning(x);
      }
      hide T.Stage.Valid, T.Toplevel.Lists;
    }

    /** A layout for overview mode puts the transients of every toplevel directly above it: later
        toplevels do not come between those that are done. */
    lemma {:induction false} LayoutGathers(order: seq<XWindow>, win: XWindow)
      requires Valid() && win in order && forall x | x in order :: x in tops
      ensures LaidOut(order, true, None).Together(win)
    {
      hide Valid, Together, Step;
      assert order == Front(order) + [Last(order)];
      if win != Last(order) {
        LayoutGathers(Front(order), win);
      }
      LaidOut(Front(order), true, None).RestackedTogether(Last(order), win);
    }
  }

  /** Over every run of toplevels that come and go and of whatever is done to each of them, no
      transient belongs to two of them and every record stays valid; and the server agrees with
      all of them as long as no new transient is misplaced. */
  lemma {:induction false} RunKeeps(states: seq<Windows>, events: seq<Event>, i: nat)
    requires |states| == |events| + 1 && i < |states| && states[0].Valid()
    requires forall k | 0 <= k < |events| :: states[k].Follows(events[k], states[k + 1])
    ensures states[i].Valid()
    ensures states[0].Agrees() && (forall k | 0 <= k < i :: states[k].Places(events[k])) ==> states[i].Agrees()
  {
    hide Windows.Valid, Windows.Agrees, Windows.Step, Windows.Possible, Windows.Misplaces;
    if i > 0 {
      RunKeeps(states, events, i - 1);
      var s, e := states[i - 1], events[i - 1];
      assert s.Follows(e, states[i]);
      s.StepKeeps(e);
      if s.Agrees() && s.Places(e) {
        s.StepAgreesExactly(e);
      }
    }
  }
}

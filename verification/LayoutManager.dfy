/** The layout manager's state: which toplevel windows there are and in which order, which one is
    active, magnified or under a dragged tab, and how every event changes this.  The old overview
    mode is modelled (lm_new_overview_mode is false, its default). */
module LayoutManagers {
  import opened Options
  import opened Sequences
  import opened Stackers

  datatype Mode = ActiveMode | OverviewMode

  datatype WindowState =
    | New
    | OnScreen
    | OffScreen
    | InFromRight
    | InFromLeft
    | OutToLeft
    | OutToRight
    | InFade
    | OutFade
    | OverviewNormal
    | OverviewMagnified

  /** How a window was last animated in active mode. */
  datatype Animation = Stayed | FromRight | FromLeft | FadedIn | FromBelow | ToLeft | ToRight | FadedOut | ToBelow

  /** What a ToplevelWindow object holds, as far as the layout needs it. */
  datatype Toplevel = Toplevel(inputXid: XWindow, chrome: bool, state: WindowState, animation: Animation) {

    /** The object after ConfigureForActiveMode. */
    function ForActiveMode(isActive: bool): Toplevel {
      if isActive then
        this.(state := OnScreen,
              animation := match state
                           case New => FromBelow
                           case OffScreen => FromBelow
                           case InFromRight => FromRight
                           case InFromLeft => FromLeft
                           case InFade => FadedIn
                           case _ => Stayed)
      else
        this.(state := OffScreen,
              animation := match state
                           case OutToLeft => ToLeft
                           case OutToRight => ToRight
                           case OutFade => FadedOut
                           case OffScreen => Stayed
                           case _ => ToBelow)
    }

    function ForOverviewMode(isMagnified: bool): Toplevel {
      this.(state := if isMagnified then OverviewMagnified else OverviewNormal)
    }
  }

  datatype Event =
    | MapWindow(win: XWindow, transientFor: XWindow, inputXid: XWindow, chrome: bool)
    | UnmapWindow(win: XWindow)
    | PressInput(xid: XWindow, button: int)
    | EnterInput(xid: XWindow)
    | SwitchToOverviewMessage(win: XWindow)
    | ActiveWindowRequest(win: XWindow)
    | MoveFloatingTab(at: Option<XWindow>, towardSummary: bool, intoBottom: bool)
    | CycleActive(forward: bool)
    | CycleMagnified(forward: bool)
    | ActivateByIndex(index: int)
    | MagnifyByIndex(index: int)
    | SwitchToActiveMode(activateMagnified: bool)
    | SwitchToOverviewMode
    | Resize

  /** An index modulo the number of windows. */
  function Around(i: nat, n: nat): (r: nat)
    requires n > 0
    ensures r < n
  {
    i % n
  }

  /** The index one step to the right or left of a window, around the ends. */
  function Neighbour(toplevels: seq<XWindow>, x: XWindow, forward: bool): (r: nat)
    requires x in toplevels
    ensures r < |toplevels|
  {
    Around(|toplevels| + IndexOf(toplevels, x) + (if forward then 1 else -1), |toplevels|)
  }

  /** A ToplevelWindow object is named by its window; tops holds the objects, toplevels their
      order from left to right.  inputs is input_to_toplevel_, owners transient_to_toplevel_. */
  datatype State = State(mode: Mode, toplevels: seq<XWindow>, tops: map<XWindow, Toplevel>,
                         active: Option<XWindow>, magnified: Option<XWindow>, underTab: Option<XWindow>,
                         inputs: map<XWindow, XWindow>, owners: map<XWindow, XWindow>) {

    // ----- What every event keeps

    ghost predicate Listed() {
      multiset(toplevels) == multiset(tops.Keys)
    }

    /** Input windows and toplevels belong to each other, one to one. */
    ghost predicate InputsMatch() {
      && (forall x | x in tops :: tops[x].inputXid in inputs && inputs[tops[x].inputXid] == x)
      && (forall k | k in inputs :: inputs[k] in tops && tops[inputs[k]].inputXid == k)
    }

    ghost predicate OwnersExist() {
      forall t | t in owners :: owners[t] in tops && t !in tops
    }

    predicate IsToplevel(p: Option<XWindow>) {
      p.Some? ==> p.value in tops
    }

    ghost predicate PointersExist() {
      IsToplevel(active) && IsToplevel(magnified) && IsToplevel(underTab)
    }

    /** In active mode one window is on the screen, if there is any, and that is the active one. */
    ghost predicate ModeShown() {
      match mode
      case ActiveMode =>
        && magnified.None?
        && (active.None? ==> tops == map[])
        && forall x | x in tops :: tops[x].state == if active == Some(x) then OnScreen else OffScreen
      case OverviewMode =>
        forall x | x in tops :: tops[x].state == OverviewNormal || tops[x].state == OverviewMagnified
    }

    ghost predicate Structure() {
      Listed() && InputsMatch() && PointersExist()
    }

    ghost predicate Sound() {
      Structure() && ModeShown()
    }

    ghost predicate Valid() {
      Sound() && OwnersExist()
    }

    /** In overview mode the windows show which one is magnified. */
    ghost predicate MagnifiedShown() {
      mode == OverviewMode ==>
        forall x | x in tops :: tops[x].state == OverviewMagnified <==> magnified == Some(x)
    }

    lemma ListedMeaning(x: XWindow)
      requires Listed()
      ensures x in toplevels <==> x in tops
    {
      assert x in toplevels <==> multiset(toplevels)[x] > 0;
    }

    lemma PointersListed()
      requires Structure()
      ensures active.Some? ==> active.value in toplevels
      ensures magnified.Some? ==> magnified.value in toplevels
    {
      if active.Some? {
        ListedMeaning(active.value);
      }
      if magnified.Some? {
        ListedMeaning(magnified.value);
      }
    }

    lemma StructureMeans()
      requires Structure()
      ensures Listed() && IsToplevel(active) && IsToplevel(magnified) && IsToplevel(underTab)
    {
    }

    lemma ValidMeans()
      requires Valid()
      ensures Structure() && OwnersExist() && Listed() && InputsMatch()
      ensures IsToplevel(active) && IsToplevel(magnified) && IsToplevel(underTab)
      ensures forall t | t in owners :: owners[t] in tops
      ensures forall k | k in inputs :: inputs[k] in tops
    {
      hide ModeShown;
    }

    lemma WithStateIs(x: XWindow, state: WindowState)
      requires x in tops
      ensures var t := WithState(x, state);
              t == this.(tops := t.tops) && t.tops.Keys == tops.Keys + {x}
      ensures Listed() ==> WithState(x, state).Listed()
    {
      assert WithState(x, state).tops.Keys == tops.Keys;
    }

    lemma ListedAfter(i: nat)
      requires Listed() && i < |toplevels|
      ensures toplevels[i] !in toplevels[i + 1..]
    {
      var rest := toplevels[i + 1..];
      forall j | 0 <= j < |rest|
        ensures rest[j] != toplevels[i]
      {
        CountsTwice(toplevels, i, i + 1 + j);
      }
    }

    lemma WithActiveAgain(x: XWindow, stateForNew: WindowState, stateForOld: WindowState)
      requires x in tops && active == Some(x)
      ensures WithActive(x, stateForNew, stateForOld) == this
    {
    }

    lemma SwitchedSame(m: Mode)
      requires Structure()
      ensures WithMode(m).tops.Keys == tops.Keys
    {
      WithModeKeeps(m);
    }

    lemma ListedOnce(i: nat)
      requires Listed() && i < |toplevels|
      ensures IndexOf(toplevels, toplevels[i]) == i
    {
      CountsTwice(toplevels, i, IndexOf(toplevels, toplevels[i]));
    }

    lemma NextListed(i: nat)
      requires Listed() && i < |toplevels|
      ensures toplevels[i] in tops && toplevels[i] !in toplevels[..i]
      ensures toplevels[..i + 1] == toplevels[..i] + [toplevels[i]]
    {
      ListedMeaning(toplevels[i]);
      ListedOnce(i);
      hide Listed;
    }

    lemma NoToplevels()
      requires Listed()
      ensures toplevels == [] <==> tops == map[]
    {
      if toplevels == [] {
        assert forall x :: x !in tops.Keys by {
          forall x
            ensures x !in tops.Keys
          {
            ListedMeaning(x);
          }
        }
        assert tops.Keys == {};
      } else {
        ListedMeaning(toplevels[0]);
      }
    }

    // ----- Laying out

    function WithState(x: XWindow, state: WindowState): State
      requires x in tops
    {
      this.(tops := tops[x := tops[x].(state := state)])
    }

    function ActiveTops(a: Option<XWindow>): map<XWindow, Toplevel> {
      map x | x in tops :: tops[x].ForActiveMode(a == Some(x))
    }

    function OverviewTops(): map<XWindow, Toplevel> {
      map x | x in tops :: tops[x].ForOverviewMode(magnified == Some(x))
    }

    lemma ActiveTopsKeys(a: Option<XWindow>)
      ensures ActiveTops(a).Keys == tops.Keys
    {
    }

    lemma ActiveTopsAt(a: Option<XWindow>, x: XWindow)
      requires x in tops
      ensures x in ActiveTops(a) && ActiveTops(a)[x] == tops[x].ForActiveMode(a == Some(x))
    {
    }

    function LaidOutForActiveMode(): State {
      if toplevels == [] then this
      else
        var a := if active.Some? then active else Some(toplevels[0]);
        this.(active := a, tops := ActiveTops(a))
    }

    function LaidOutForOverviewMode(): State {
      this.(tops := OverviewTops())
    }

    function LaidOut(): State {
      if mode == ActiveMode then LaidOutForActiveMode() else LaidOutForOverviewMode()
    }

    function WithMode(m: Mode): State {
      match m
      case ActiveMode =>
        this.(mode := ActiveMode, active := ToActivate(), magnified := None).LaidOutForActiveMode()
      case OverviewMode =>
        this.(mode := OverviewMode, magnified := None).LaidOutForOverviewMode()
    }

    function WithActive(x: XWindow, stateForNew: WindowState, stateForOld: WindowState): State
      requires x in tops && IsToplevel(active)
    {
      if mode != ActiveMode || active == Some(x) then this
      else
        var s := if active.Some? then WithState(active.value, stateForOld) else this;
        s.WithState(x, stateForNew).(active := Some(x)).LaidOutForActiveMode()
    }

    // ----- Events

    /** A window is mapped only when it is not known yet, with a new input window; the toplevel at
        the pointer is one of the toplevels. */
    predicate Possible(e: Event) {
      match e
      case MapWindow(win, transientFor, inputXid, _) => win !in tops && win !in owners && inputXid !in inputs
      case MoveFloatingTab(at, _, _) => IsToplevel(at)
      case _ => true
    }

    /** Where a new toplevel goes: right of the active one, or else on the far right. */
    function NewIndex(): nat
      requires active.Some? ==> active.value in toplevels
    {
      if mode == ActiveMode && active.Some? then IndexOf(toplevels, active.value) + 1 else |toplevels|
    }

    function WithToplevel(e: Event): State
      requires e.MapWindow? && (active.Some? ==> active.value in toplevels)
    {
      var i := NewIndex();
      this.(toplevels := toplevels[..i] + [e.win] + toplevels[i..],
            tops := tops[e.win := Toplevel(e.inputXid, e.chrome, New, Stayed)],
            inputs := inputs[e.inputXid := e.win])
    }

    function Mapped(e: Event): State
      requires e.MapWindow? && Possible(e) && Structure()
    {
      if e.transientFor in tops then this.(owners := owners[e.win := e.transientFor])
      else
        PointersListed();
        var s := WithToplevel(e);
        if mode == ActiveMode then s.WithActive(e.win, InFromRight, OutToLeft)
        else s.LaidOutForOverviewMode()
    }

    /** Without one of the toplevels, before anything is laid out or activated. */
    function WithoutToplevel(win: XWindow): State
      requires win in tops && win in toplevels
    {
      var i := IndexOf(toplevels, win);
      this.(magnified := if magnified == Some(win) then None else magnified,
            active := if active == Some(win) then None else active,
            underTab := if underTab == Some(win) then None else underTab,
            inputs := inputs - {tops[win].inputXid},
            toplevels := toplevels[..i] + toplevels[i + 1..],
            tops := tops - {win})
    }

    /** What is done once the toplevel at an index is gone: if the active window is gone, the one
        to the left of it is activated, or the last one. */
    function Settled(index: nat): State
      requires Structure()
    {
      if mode == OverviewMode then LaidOutForOverviewMode()
      else if active.None? && toplevels != [] then
        var i := Around(index + |toplevels| - 1, |toplevels|);
        ListedMeaning(toplevels[i]);
        WithActive(toplevels[i], InFromLeft, OutToRight)
      else this
    }

    function Unmapped(win: XWindow): State
      requires Structure()
    {
      var s := this.(owners := owners - {win});
      if win !in tops then s
      else
        ListedMeaning(win);
        s.WithoutKeepsStructure(win);
        s.WithoutToplevel(win).Settled(IndexOf(toplevels, win))
    }

    lemma WithoutKeepsStructure(win: XWindow)
      requires Structure() && win in tops && win in toplevels
      ensures WithoutToplevel(win).Structure()
    {
      WithoutListed(win);
      WithoutInputs(win);
      hide Listed, InputsMatch, IndexOf;
    }

    lemma WithoutListed(win: XWindow)
      requires Listed() && win in tops && win in toplevels
      ensures WithoutToplevel(win).Listed()
    {
      hide Listed;
      var i := IndexOf(toplevels, win);
      var t := WithoutToplevel(win);
      assert t.toplevels == toplevels[..i] + toplevels[i + 1..] && t.tops.Keys == tops.Keys - {win};
      hide *;
      WithoutCountsOne(i);
      CountsLess(tops.Keys, win);
      assert multiset(tops.Keys)[win] == 1;
      ListedIs();
      t.ListedIs();
    }

    lemma ListedIs()
      ensures Listed() <==> multiset(toplevels) == multiset(tops.Keys)
    {
    }

    lemma WithoutInputs(win: XWindow)
      requires InputsMatch() && win in tops && win in toplevels
      ensures WithoutToplevel(win).InputsMatch()
    {
      hide IndexOf;
      var t := WithoutToplevel(win);
      assert forall x :: x in t.tops <==> x in tops && x != win;
      assert forall k :: k in t.inputs <==> k in inputs && k != tops[win].inputXid;
    }

    lemma WithoutCountsOne(i: nat)
      requires i < |toplevels|
      ensures multiset(toplevels[..i] + toplevels[i + 1..]) == multiset(toplevels) - multiset{toplevels[i]}
    {
      assert toplevels == toplevels[..i] + [toplevels[i]] + toplevels[i + 1..];
    }

    function Pressed(xid: XWindow, button: int): State {
      if xid in inputs && button == 1 && mode == OverviewMode
      then this.(active := Some(inputs[xid])).WithMode(ActiveMode)
      else this
    }

    function Entered(xid: XWindow): State {
      if xid in inputs && mode == OverviewMode && magnified != Some(inputs[xid])
      then this.(magnified := Some(inputs[xid])).LaidOutForOverviewMode()
      else this
    }

    function SwitchedByMessage(win: XWindow): State {
      var s := WithMode(OverviewMode);
      if win in tops then s.(magnified := Some(win)) else s
    }

    function Requested(win: XWindow): State
      requires Structure() && OwnersExist()
    {
      var toplevel := if win in owners then Some(owners[win]) else if win in tops then Some(win) else None;
      if toplevel.None? then this
      else if mode == ActiveMode then WithActive(toplevel.value, InFade, OutFade)
      else this.(active := toplevel).WithMode(ActiveMode)
    }

    /** Which toplevel counts as the one under the dragged tab. */
    function Under(at: Option<XWindow>, towardSummary: bool): Option<XWindow> {
      var t := if at.None? && towardSummary then magnified else at;
      if t.Some? && t.value in tops && tops[t.value].chrome then t else None
    }

    function TabMoved(at: Option<XWindow>, towardSummary: bool, intoBottom: bool): State {
      if mode == OverviewMode then
        var t := Under(at, towardSummary);
        if t == underTab then this else this.(underTab := t, magnified := t).LaidOutForOverviewMode()
      else if intoBottom then WithMode(OverviewMode)
      else this
    }

    function ActiveCycled(forward: bool): State
      requires Structure()
    {
      if mode != ActiveMode || toplevels == [] then this
      else
        PointersListed();
        if active.Some? && |toplevels| == 1 then this
        else
          var i := if active.Some? then Neighbour(toplevels, active.value, forward) else if forward then 0 else |toplevels| - 1;
          ListedMeaning(toplevels[i]);
          WithActive(toplevels[i], if forward then InFromRight else InFromLeft, if forward then OutToLeft else OutToRight)
    }

    function MagnifiedCycled(forward: bool): State
      requires Structure()
    {
      if mode != OverviewMode || toplevels == [] || (magnified.Some? && |toplevels| == 1) then this
      else
        PointersListed();
        var from := if magnified.Some? then magnified else active;
        var i := if from.Some? then Neighbour(toplevels, from.value, forward) else 0;
        this.(magnified := Some(toplevels[i])).LaidOutForOverviewMode()
    }

    /** The window that an index means; negative indices count from the end. */
    function AtIndex(index: int): Option<XWindow> {
      var i := if index < 0 then |toplevels| + index else index;
      if 0 <= i < |toplevels| then Some(toplevels[i]) else None
    }

    function ActivatedByIndex(index: int): State
      requires Structure()
    {
      var x := AtIndex(index);
      if mode != ActiveMode || x.None? then this
      else
        ListedMeaning(x.value);
        WithActive(x.value, InFade, OutFade)
    }

    function MagnifiedByIndex(index: int): State {
      var x := AtIndex(index);
      if mode != OverviewMode || x.None? || magnified == x then this
      else this.(magnified := x).LaidOutForOverviewMode()
    }

    function SwitchedToActive(activateMagnified: bool): State {
      if mode == ActiveMode then this
      else this.(active := if activateMagnified && magnified.Some? then magnified else active).WithMode(ActiveMode)
    }

    function Step(e: Event): State
      requires Valid() && Possible(e)
    {
      match e
      case MapWindow(_, _, _, _) => Mapped(e)
      case UnmapWindow(win) => Unmapped(win)
      case PressInput(xid, button) => Pressed(xid, button)
      case EnterInput(xid) => Entered(xid)
      case SwitchToOverviewMessage(win) => SwitchedByMessage(win)
      case ActiveWindowRequest(win) => Requested(win)
      case MoveFloatingTab(at, towardSummary, intoBottom) => TabMoved(at, towardSummary, intoBottom)
      case CycleActive(forward) => ActiveCycled(forward)
      case CycleMagnified(forward) => MagnifiedCycled(forward)
      case ActivateByIndex(index) => ActivatedByIndex(index)
      case MagnifyByIndex(index) => MagnifiedByIndex(index)
      case SwitchToActiveMode(activateMagnified) => SwitchedToActive(activateMagnified)
      case SwitchToOverviewMode => WithMode(OverviewMode)
      case Resize => LaidOut()
    }

    // ----- Keeping it

    /** This state and t have the same windows; what is active, magnified or shown may differ. */
    ghost predicate SameWindows(t: State) {
      && t.toplevels == toplevels && t.inputs == inputs && t.owners == owners && t.tops.Keys == tops.Keys
      && forall x | x in tops :: t.tops[x].inputXid == tops[x].inputXid && t.tops[x].chrome == tops[x].chrome
    }

    lemma StructureOfSame(t: State)
      requires Structure() && SameWindows(t) && t.PointersExist()
      ensures t.Structure()
    {
      assert forall x :: x in t.tops <==> x in tops.Keys;
    }

    lemma OwnersOfSame(t: State)
      requires SameWindows(t)
      ensures t.OwnersExist() <==> OwnersExist()
    {
      assert forall x :: x in t.tops <==> x in tops.Keys;
    }

    lemma LaidOutForActiveModeKeeps()
      requires Structure() && mode == ActiveMode && magnified.None?
      ensures LaidOutForActiveMode().Sound() && SameWindows(LaidOutForActiveMode())
    {
      NoToplevels();
      if toplevels != [] {
        ListedMeaning(toplevels[0]);
        var t := LaidOutForActiveMode();
        assert t.tops.Keys == tops.Keys;
        StructureOfSame(t);
        hide Structure;
      }
    }

    lemma LaidOutForOverviewModeKeeps()
      requires Structure() && mode == OverviewMode
      ensures LaidOutForOverviewMode().Sound() && SameWindows(LaidOutForOverviewMode())
      ensures LaidOutForOverviewMode().MagnifiedShown()
    {
      var t := LaidOutForOverviewMode();
      assert t.tops.Keys == tops.Keys;
      StructureOfSame(t);
      hide Structure;
    }

    function ToActivate(): Option<XWindow> {
      if active.Some? then active else if magnified.Some? then magnified
      else if toplevels != [] then Some(toplevels[0]) else None
    }

    lemma ToActivateExists()
      requires Structure()
      ensures IsToplevel(ToActivate())
      ensures ToActivate().None? <==> tops == map[]
    {
      NoToplevels();
      if toplevels != [] {
        ListedMeaning(toplevels[0]);
      }
    }

    lemma WithModeKeeps(m: Mode)
      requires Structure()
      ensures WithMode(m).Sound() && SameWindows(WithMode(m)) && WithMode(m).MagnifiedShown()
    {
      match m
      case ActiveMode =>
        ToActivateExists();
        hide ToActivate, Listed, InputsMatch, LaidOutForActiveMode;
        var s := this.(mode := ActiveMode, active := ToActivate(), magnified := None);
        StructureOfSame(s);
        s.LaidOutForActiveModeKeeps();
        SameWindowsTwice(s, s.LaidOutForActiveMode());
        hide Sound, SameWindows;
      case OverviewMode =>
        hide Listed, InputsMatch, LaidOutForOverviewMode;
        var s := this.(mode := OverviewMode, magnified := None);
        StructureOfSame(s);
        s.LaidOutForOverviewModeKeeps();
        SameWindowsTwice(s, s.LaidOutForOverviewMode());
        hide Sound, SameWindows, MagnifiedShown;
    }

    lemma SameWindowsTwice(t: State, u: State)
      requires SameWindows(t) && t.SameWindows(u)
      ensures SameWindows(u)
    {
      assert forall x :: x in t.tops <==> x in tops.Keys;
    }

    lemma WithStateKeeps(x: XWindow, state: WindowState)
      requires Structure() && x in tops
      ensures WithState(x, state).Structure() && SameWindows(WithState(x, state))
    {
      StructureOfSame(WithState(x, state));
    }

    /** The window that is made active is on the screen, all others are not. */
    lemma WithActiveKeeps(x: XWindow, stateForNew: WindowState, stateForOld: WindowState)
      requires Structure() && x in tops && mode == ActiveMode && magnified.None?
      requires active == Some(x) ==> ModeShown()
      ensures var t := WithActive(x, stateForNew, stateForOld);
              t.Sound() && SameWindows(t) && t.active == Some(x) && t.mode == ActiveMode
    {
      if active != Some(x) {
        var s := if active.Some? then WithState(active.value, stateForOld) else this;
        if active.Some? {
          WithStateKeeps(active.value, stateForOld);
        }
        s.WithStateKeeps(x, stateForNew);
        var u := s.WithState(x, stateForNew).(active := Some(x));
        s.WithState(x, stateForNew).StructureOfSame(u);
        u.LaidOutForActiveModeKeeps();
        SameWindowsTwice(s, s.WithState(x, stateForNew));
        SameWindowsTwice(s.WithState(x, stateForNew), u.LaidOutForActiveMode());
        u.NoToplevels();
        hide *;
        WithActiveIs(x, stateForNew, stateForOld);
      }
    }

    lemma WithActiveIs(x: XWindow, stateForNew: WindowState, stateForOld: WindowState)
      requires x in tops && IsToplevel(active) && mode == ActiveMode && active != Some(x)
      ensures var s := if active.Some? then WithState(active.value, stateForOld) else this;
              WithActive(x, stateForNew, stateForOld) == s.WithState(x, stateForNew).(active := Some(x)).LaidOutForActiveMode()
    {
    }

    lemma MappedKeeps(e: Event)
      requires Valid() && e.MapWindow? && Possible(e)
      ensures Mapped(e).Valid()
      ensures MagnifiedShown() ==> Mapped(e).MagnifiedShown()
    {
      if e.transientFor in tops {
        hide Listed, InputsMatch;
        SameStructure(this.(owners := owners[e.win := e.transientFor]));
      } else {
        PointersListed();
        WithToplevelKeepsStructure(e);
        var s := WithToplevel(e);
        if mode == ActiveMode {
          s.WithActiveKeeps(e.win, InFromRight, OutToLeft);
        } else {
          s.LaidOutForOverviewModeKeeps();
        }
        s.OwnersOfSame(Mapped(e));
        hide Structure, OwnersExist, WithActive, LaidOutForOverviewMode, SameWindows;
      }
    }

    lemma WithToplevelKeepsStructure(e: Event)
      requires Structure() && OwnersExist() && e.MapWindow? && Possible(e) && (active.Some? ==> active.value in toplevels)
      ensures var s := WithToplevel(e); s.Structure() && s.OwnersExist() && s.mode == mode && s.magnified == magnified
                                        && s.active == active && e.win in s.tops && e.win !in tops
    {
      WithToplevelListed(e);
      WithToplevelInputs(e);
      hide Listed, InputsMatch, IndexOf, NewIndex;
    }

    lemma NewIndexIn()
      requires active.Some? ==> active.value in toplevels
      ensures NewIndex() <= |toplevels|
    {
    }

    lemma WithToplevelListed(e: Event)
      requires Listed() && e.MapWindow? && e.win !in tops && (active.Some? ==> active.value in toplevels)
      ensures WithToplevel(e).Listed()
    {
      hide Listed, NewIndex;
      NewIndexIn();
      var i := NewIndex();
      var s := WithToplevel(e);
      assert s.toplevels == toplevels[..i] + [e.win] + toplevels[i..] && s.tops.Keys == tops.Keys + {e.win};
      hide *;
      InsertCounts(toplevels, e.win, i);
      CountsWith(tops.Keys, e.win);
      ListedIs();
      s.ListedIs();
    }

    lemma WithToplevelInputs(e: Event)
      requires InputsMatch() && e.MapWindow? && Possible(e) && (active.Some? ==> active.value in toplevels)
      ensures WithToplevel(e).InputsMatch()
    {
      hide NewIndex, IndexOf;
    }

    /** Unmapping a window keeps everything, except that transients of a toplevel that goes before
        they do are left with an owner that is no more. */
    lemma UnmappedKeepsExactly(win: XWindow)
      requires Valid()
      ensures Unmapped(win).Valid() <==> forall t | t in owners :: owners[t] != win
      ensures MagnifiedShown() ==> Unmapped(win).MagnifiedShown()
    {
      if win !in tops {
        UnmappedTransient(win);
      } else {
        UnmappedToplevel(win);
        hide Structure, ModeShown, Unmapped, WithoutToplevel;
        WithoutToplevelOwners(win);
        WithoutToplevel(win).OwnersOfSame(Unmapped(win));
        hide OwnersExist, SameWindows;
      }
    }

    lemma UnmappedTransient(win: XWindow)
      requires Valid() && win !in tops
      ensures Unmapped(win).Valid() && (forall t | t in owners :: owners[t] != win)
      ensures MagnifiedShown() ==> Unmapped(win).MagnifiedShown()
    {
      hide Listed, InputsMatch, PointersExist;
      assert Unmapped(win) == this.(owners := owners - {win});
      SameStructure(Unmapped(win));
    }

    lemma SameStructure(t: State)
      requires Structure() && t == this.(owners := t.owners)
      ensures t.Structure() && (ModeShown() ==> t.ModeShown())
    {
    }

    lemma WithoutToplevelOwners(win: XWindow)
      requires OwnersExist() && win in tops && win in toplevels
      ensures WithoutToplevel(win).OwnersExist() <==> forall t | t in owners :: owners[t] != win
    {
      hide IndexOf;
    }

    lemma UnmappedToplevel(win: XWindow)
      requires Valid() && win in tops
      ensures win in toplevels && Unmapped(win).Sound() && WithoutToplevel(win).SameWindows(Unmapped(win))
      ensures MagnifiedShown() ==> Unmapped(win).MagnifiedShown()
    {
      ListedMeaning(win);
      assert this.(owners := owners - {win}) == this;
      var t := WithoutToplevel(win);
      WithoutKeepsStructure(win);
      WithoutShown(win);
      hide Structure, ModeShown, WithoutToplevel;
      t.SettledKeeps(IndexOf(toplevels, win));
    }

    lemma WithoutShown(win: XWindow)
      requires ModeShown() && win in tops && win in toplevels
      ensures var t := WithoutToplevel(win);
              t.mode == mode && (mode == ActiveMode ==> t.magnified.None? && (t.active.Some? ==> t.ModeShown()))
    {
      hide IndexOf;
    }

    lemma SettledKeeps(index: nat)
      requires Structure()
      requires mode == ActiveMode ==> magnified.None? && (active.Some? ==> ModeShown())
      ensures Settled(index).Sound() && SameWindows(Settled(index)) && Settled(index).MagnifiedShown()
    {
      hide Listed, InputsMatch;
      if mode == OverviewMode {
        LaidOutForOverviewModeKeeps();
        hide LaidOutForOverviewMode, Sound, SameWindows, MagnifiedShown;
      } else if active.None? && toplevels != [] {
        var i := Around(index + |toplevels| - 1, |toplevels|);
        ListedMeaning(toplevels[i]);
        WithActiveKeeps(toplevels[i], InFromLeft, OutToRight);
        hide WithActive, Sound, SameWindows;
      } else if toplevels == [] {
        NoToplevels();
      }
    }

    // ----- One step

    /** The one way in which an event can go wrong: a toplevel goes before its transients do. */
    ghost predicate OrphansTransients(e: Event) {
      e.UnmapWindow? && exists t | t in owners :: owners[t] == e.win
    }

    /** In overview mode, the window to magnify is noted but not shown. */
    predicate MagnifiesUnseen(e: Event) {
      e.SwitchToOverviewMessage? && e.win in tops
    }

    lemma PressedKeeps(xid: XWindow, button: int)
      requires Valid()
      ensures Pressed(xid, button).Valid() && (MagnifiedShown() ==> Pressed(xid, button).MagnifiedShown())
    {
      if xid in inputs && button == 1 && mode == OverviewMode {
        WithActiveChosenKeeps(Some(inputs[xid]));
      }
    }

    /** Going to active mode with another active window. */
    lemma WithActiveChosenKeeps(a: Option<XWindow>)
      requires Structure() && OwnersExist() && IsToplevel(a)
      ensures this.(active := a).WithMode(ActiveMode).Valid()
      ensures this.(active := a).WithMode(ActiveMode).MagnifiedShown()
    {
      var s := this.(active := a);
      StructureOfSame(s);
      s.WithModeKeeps(ActiveMode);
      s.OwnersOfSame(s.WithMode(ActiveMode));
      hide Structure, ModeShown, WithMode, SameWindows;
    }

    /** Laying out overview mode with another magnified window. */
    lemma WithMagnifiedKeeps(s: State)
      requires Structure() && OwnersExist() && mode == OverviewMode
      requires s == this.(magnified := s.magnified, underTab := s.underTab) && s.PointersExist()
      ensures s.LaidOutForOverviewMode().Valid() && s.LaidOutForOverviewMode().MagnifiedShown()
    {
      StructureOfSame(s);
      s.LaidOutForOverviewModeKeeps();
      s.OwnersOfSame(s.LaidOutForOverviewMode());
      hide Structure, ModeShown, LaidOutForOverviewMode, SameWindows;
    }

    lemma EnteredKeeps(xid: XWindow)
      requires Valid()
      ensures Entered(xid).Valid() && (MagnifiedShown() ==> Entered(xid).MagnifiedShown())
    {
      if xid in inputs && mode == OverviewMode && magnified != Some(inputs[xid]) {
        WithMagnifiedKeeps(this.(magnified := Some(inputs[xid])));
      }
    }

    lemma SwitchedKeeps(m: Mode)
      requires Structure() && OwnersExist()
      ensures WithMode(m).Valid() && WithMode(m).MagnifiedShown()
    {
      WithModeKeeps(m);
      OwnersOfSame(WithMode(m));
      hide Structure, ModeShown, WithMode, SameWindows;
    }

    /** Only in this case is a window magnified without being shown so. */
    lemma SwitchedByMessageKeeps(win: XWindow)
      requires Valid()
      ensures SwitchedByMessage(win).Valid()
      ensures SwitchedByMessage(win).MagnifiedShown() <==> win !in tops
    {
      var s := WithMode(OverviewMode);
      assert s.mode == OverviewMode && s.magnified.None?;
      hide Structure, WithMode, InputsMatch, Listed;
      WithModeKeeps(OverviewMode);
      SwitchedKeeps(OverviewMode);
      assert win in s.tops <==> win in tops.Keys;
      s.StructureOfSame(SwitchedByMessage(win));
    }

    lemma RequestedKeeps(win: XWindow)
      requires Valid()
      ensures Requested(win).Valid() && (MagnifiedShown() ==> Requested(win).MagnifiedShown())
    {
      var toplevel := if win in owners then Some(owners[win]) else if win in tops then Some(win) else None;
      if toplevel.Some? {
        if mode == ActiveMode {
          WithActiveKeeps(toplevel.value, InFade, OutFade);
          OwnersOfSame(WithActive(toplevel.value, InFade, OutFade));
          hide WithActive, SameWindows, Structure, ModeShown;
        } else {
          WithActiveChosenKeeps(toplevel);
          hide WithMode, Structure, ModeShown;
        }
      }
    }

    lemma TabMovedKeeps(at: Option<XWindow>, towardSummary: bool, intoBottom: bool)
      requires Valid() && IsToplevel(at)
      ensures var t := TabMoved(at, towardSummary, intoBottom); t.Valid() && (MagnifiedShown() ==> t.MagnifiedShown())
    {
      if mode == OverviewMode {
        var t := Under(at, towardSummary);
        WithMagnifiedKeeps(this.(underTab := t, magnified := t));
        hide Structure, ModeShown, LaidOutForOverviewMode;
      } else if intoBottom {
        SwitchedKeeps(OverviewMode);
      }
    }

    lemma ActiveCycledKeeps(forward: bool)
      requires Valid()
      ensures ActiveCycled(forward).Valid() && (MagnifiedShown() ==> ActiveCycled(forward).MagnifiedShown())
    {
      hide Listed, InputsMatch, IndexOf;
      if mode == ActiveMode && toplevels != [] {
        PointersListed();
        if active.None? || |toplevels| != 1 {
          var i := if active.Some? then Neighbour(toplevels, active.value, forward) else if forward then 0 else |toplevels| - 1;
          ListedMeaning(toplevels[i]);
          var toNew, toOld := if forward then InFromRight else InFromLeft, if forward then OutToLeft else OutToRight;
          WithActiveKeeps(toplevels[i], toNew, toOld);
          OwnersOfSame(WithActive(toplevels[i], toNew, toOld));
          hide WithActive, SameWindows, Neighbour, ModeShown;
        }
      }
    }

    lemma MagnifiedCycledKeeps(forward: bool)
      requires Valid()
      ensures MagnifiedCycled(forward).Valid() && (MagnifiedShown() ==> MagnifiedCycled(forward).MagnifiedShown())
    {
      hide Listed, InputsMatch, IndexOf;
      if mode == OverviewMode && toplevels != [] && !(magnified.Some? && |toplevels| == 1) {
        PointersListed();
        var from := if magnified.Some? then magnified else active;
        var i := if from.Some? then Neighbour(toplevels, from.value, forward) else 0;
        ListedMeaning(toplevels[i]);
        WithMagnifiedKeeps(this.(magnified := Some(toplevels[i])));
        hide LaidOutForOverviewMode, Neighbour, ModeShown;
      }
    }

    lemma ActivatedByIndexKeeps(index: int)
      requires Valid()
      ensures ActivatedByIndex(index).Valid() && (MagnifiedShown() ==> ActivatedByIndex(index).MagnifiedShown())
    {
      hide Listed, InputsMatch;
      var x := AtIndex(index);
      if mode == ActiveMode && x.Some? {
        ListedMeaning(x.value);
        WithActiveKeeps(x.value, InFade, OutFade);
        OwnersOfSame(WithActive(x.value, InFade, OutFade));
        hide WithActive, SameWindows, ModeShown;
      }
    }

    lemma MagnifiedByIndexKeeps(index: int)
      requires Valid()
      ensures MagnifiedByIndex(index).Valid() && (MagnifiedShown() ==> MagnifiedByIndex(index).MagnifiedShown())
    {
      hide Listed, InputsMatch;
      var x := AtIndex(index);
      if mode == OverviewMode && x.Some? {
        ListedMeaning(x.value);
        WithMagnifiedKeeps(this.(magnified := x));
        hide LaidOutForOverviewMode, ModeShown;
      }
    }

    lemma LaidOutKeeps()
      requires Valid()
      ensures LaidOut().Valid() && LaidOut().MagnifiedShown()
    {
      if mode == ActiveMode {
        LaidOutForActiveModeKeeps();
      } else {
        LaidOutForOverviewModeKeeps();
      }
      OwnersOfSame(LaidOut());
      hide Structure, ModeShown, SameWindows, LaidOutForActiveMode, LaidOutForOverviewMode;
    }

    lemma SwitchedToActiveKeeps(activateMagnified: bool)
      requires Valid()
      ensures SwitchedToActive(activateMagnified).Valid() && SwitchedToActive(activateMagnified).MagnifiedShown()
    {
      if mode != ActiveMode {
        WithActiveChosenKeeps(if activateMagnified && magnified.Some? then magnified else active);
        hide WithMode;
      }
    }

    /** Every event keeps everything, but for a toplevel that goes before its transients; and only
        the message to switch to overview mode magnifies a window that is not shown magnified. */
    lemma StepKeepsExactly(e: Event)
      requires Valid() && Possible(e)
      ensures Step(e).Valid() <==> !OrphansTransients(e)
      ensures MagnifiedShown() ==> (Step(e).MagnifiedShown() <==> !MagnifiesUnseen(e))
    {
      ValidMeans();
      OnlyUnmappingOrphans(e);
      hide OrphansTransients, Valid, Structure, OwnersExist, MagnifiedShown, Mapped, Unmapped, Pressed, Entered,
           SwitchedByMessage, Requested, TabMoved, ActiveCycled, MagnifiedCycled, ActivatedByIndex,
           MagnifiedByIndex, SwitchedToActive, WithMode, LaidOut;
      match e
      case MapWindow(_, _, _, _) => MappedKeeps(e);
      case UnmapWindow(win) => UnmapKeepsExactly(e);
      case PressInput(xid, button) => PressedKeeps(xid, button);
      case EnterInput(xid) => EnteredKeeps(xid);
      case SwitchToOverviewMessage(win) => SwitchedByMessageKeeps(win);
      case ActiveWindowRequest(win) => RequestedKeeps(win);
      case MoveFloatingTab(at, toward, bottom) => TabMovedKeeps(at, toward, bottom);
      case CycleActive(forward) => ActiveCycledKeeps(forward);
      case CycleMagnified(forward) => MagnifiedCycledKeeps(forward);
      case ActivateByIndex(index) => ActivatedByIndexKeeps(index);
      case MagnifyByIndex(index) => MagnifiedByIndexKeeps(index);
      case SwitchToActiveMode(activate) => SwitchedToActiveKeeps(activate);
      case SwitchToOverviewMode => SwitchedKeeps(OverviewMode);
      case Resize => LaidOutKeeps();
    }

    lemma OnlyUnmappingOrphans(e: Event)
      ensures OrphansTransients(e) ==> e.UnmapWindow?
    {
    }

    lemma UnmapKeepsExactly(e: Event)
      requires Valid() && e.UnmapWindow?
      ensures Unmapped(e.win).Valid() <==> !OrphansTransients(e)
      ensures MagnifiedShown() ==> Unmapped(e.win).MagnifiedShown()
    {
      hide Valid, MagnifiedShown, Unmapped;
      UnmappedKeepsExactly(e.win);
    }

    /** What WithActive does before it lays out the windows. */
    lemma WithActivePrepared(x: XWindow, stateForNew: WindowState, stateForOld: WindowState)
      requires Structure() && x in tops && mode == ActiveMode && active != Some(x)
      ensures active.Some? ==> active.value in tops
      ensures var s := if active.Some? then WithState(active.value, stateForOld) else this;
              && x in s.tops && s.WithState(x, stateForNew).(active := Some(x)).Listed()
              && WithActive(x, stateForNew, stateForOld) == s.WithState(x, stateForNew).(active := Some(x)).LaidOutForActiveMode()
    {
      WithActiveIs(x, stateForNew, stateForOld);
      var s := if active.Some? then WithState(active.value, stateForOld) else this;
      if active.Some? {
        WithStateIs(active.value, stateForOld);
      }
      s.WithStateIs(x, stateForNew);
      hide InputsMatch, LaidOutForActiveMode, WithActive;
    }

    // ----- Runs

    /** Every event is possible when it comes, and no toplevel goes before its transients. */
    ghost predicate Orderly(events: seq<Event>)
      requires Valid()
      decreases |events|
    {
      events == [] || (
        && Possible(events[0]) && !OrphansTransients(events[0])
        && (StepKeepsExactly(events[0]); Step(events[0]).Orderly(events[1..])))
    }

    ghost function Run(events: seq<Event>): State
      requires Valid() && Orderly(events)
      decreases |events|
    {
      if events == [] then this
      else
        StepKeepsExactly(events[0]);
        Step(events[0]).Run(events[1..])
    }

    lemma {:induction false} RunKeeps(events: seq<Event>)
      requires Valid() && Orderly(events)
      ensures Run(events).Valid()
      decreases |events|
    {
      hide Valid, Step;
      if events != [] {
        StepKeepsExactly(events[0]);
        Step(events[0]).RunKeeps(events[1..]);
      }
    }

    // ----- Cycling

    lemma ActiveCycledIs(i: nat, forward: bool)
      requires Valid() && mode == ActiveMode && i < |toplevels| && active == Some(toplevels[i])
      ensures var t := ActiveCycled(forward);
              && t.Valid() && t.mode == ActiveMode && SameWindows(t) && t.toplevels == toplevels
              && t.active == Some(toplevels[Around(|toplevels| + i + (if forward then 1 else -1), |toplevels|)])
              && t.magnified == magnified && t.underTab == underTab
    {
      hide Listed, InputsMatch, ModeShown, OwnersExist, IndexOf, Neighbour, Around, WithActive, SameWindows;
      ActiveCycledKeeps(forward);
      PointersListed();
      NeighbourIs(i, forward);
      if |toplevels| == 1 {
        SameAsThis();
        AroundOne();
      } else {
        var j := Neighbour(toplevels, toplevels[i], forward);
        ListedMeaning(toplevels[j]);
        WithActiveSame(toplevels[j], if forward then InFromRight else InFromLeft, if forward then OutToLeft else OutToRight);
        SameToplevels(ActiveCycled(forward));
      }
    }

    static lemma AroundOne()
      ensures Around(2, 1) == 0 && Around(0, 1) == 0
    {
    }

    lemma SameAsThis()
      ensures SameWindows(this)
    {
    }

    lemma SameToplevels(t: State)
      requires SameWindows(t)
      ensures t.toplevels == toplevels
    {
    }

    lemma NeighbourIs(i: nat, forward: bool)
      requires Listed() && i < |toplevels|
      ensures Neighbour(toplevels, toplevels[i], forward) == Around(|toplevels| + i + (if forward then 1 else -1), |toplevels|)
    {
      ListedOnce(i);
    }

    lemma WithActiveSame(x: XWindow, stateForNew: WindowState, stateForOld: WindowState)
      requires Valid() && x in tops && mode == ActiveMode
      ensures var t := WithActive(x, stateForNew, stateForOld);
              SameWindows(t) && t.active == Some(x) && t.mode == mode && t.magnified == magnified && t.underTab == underTab
    {
      WithActiveKeeps(x, stateForNew, stateForOld);
      hide Listed, InputsMatch, ModeShown;
    }

    ghost function CycledForward(k: nat): (t: State)
      requires Valid()
      ensures t.Valid()
    {
      if k == 0 then this
      else
        CycledForward(k - 1).ActiveCycledKeeps(true);
        CycledForward(k - 1).ActiveCycled(true)
    }

    /** k steps forward from window i lead to window i + k, around the end. */
    lemma {:induction false} CyclesLandOn(i: nat, k: nat)
      requires Valid() && mode == ActiveMode && i < |toplevels| && active == Some(toplevels[i])
      ensures var t := CycledForward(k);
              t.mode == ActiveMode && t.toplevels == toplevels && t.active == Some(toplevels[Around(i + k, |toplevels|)])
    {
      hide Valid, ActiveCycled, SameWindows, Around;
      var n := |toplevels|;
      if k == 0 {
        Remainder(i, 0, i, n);
      } else {
        CyclesLandOn(i, k - 1);
        ModNext(i + k - 1, n);
        var t, j := CycledForward(k - 1), Around(i + k - 1, n);
        t.ActiveCycledIs(j, true);
      }
    }

    static lemma ModNext(a: nat, n: nat)
      requires n > 0
      ensures Around(n + Around(a, n) + 1, n) == Around(a + 1, n)
    {
      var q, r := a / n, a % n;
      assert a == q * n + r;
      if r == n - 1 {
        assert a + 1 == (q + 1) * n + 0;
        Remainder(a + 1, q + 1, 0, n);
        Remainder(n + r + 1, 2, 0, n);
      } else {
        Remainder(a + 1, q, r + 1, n);
        Remainder(n + r + 1, 1, r + 1, n);
      }
    }

    static lemma Remainder(x: nat, q: nat, r: nat, n: nat)
      requires r < n && x == q * n + r
      ensures x % n == r && Around(x, n) == r
    {
      var p, m := x / n, x % n;
      assert x == p * n + m;
      SmallMultiple(p - q, n, p * n - q * n);
    }

    static lemma SmallMultiple(k: int, n: int, kn: int)
      requires n > 0 && kn == k * n
      ensures -n < kn < n ==> kn == 0
    {
      if k >= 1 {
        assert (k - 1) * n >= 0;
      } else if k <= -1 {
        assert (-k - 1) * n >= 0;
      }
    }

    static lemma ForthAndBack(i: nat, n: nat)
      requires i < n
      ensures Around(n + Around(n + i + 1, n) - 1, n) == i
    {
      if i + 1 < n {
        Remainder(n + i + 1, 1, i + 1, n);
        Remainder(n + i, 1, i, n);
      } else {
        Remainder(n + i + 1, 2, 0, n);
        Remainder(n - 1, 0, n - 1, n);
      }
    }

    /** t shows the same as this state: the same windows, of which the same ones are active,
        magnified, under the dragged tab, and in each state. */
    ghost predicate ShowsTheSame(t: State) {
      && SameWindows(t) && t.mode == mode
      && t.active == active && t.magnified == magnified && t.underTab == underTab
      && forall x | x in tops :: t.tops[x].state == tops[x].state
    }

    /** What is shown is determined by the windows and the pointers. */
    lemma ShownIsDetermined(t: State)
      requires Valid() && t.Valid() && MagnifiedShown() && t.MagnifiedShown() && SameWindows(t)
      requires t.mode == mode && t.active == active && t.magnified == magnified && t.underTab == underTab
      ensures ShowsTheSame(t)
    {
      forall x | x in tops
        ensures t.tops[x].state == tops[x].state
      {
        assert x in tops.Keys;
      }
    }

    lemma BackwardUndoesForward()
      requires Valid() && mode == ActiveMode
      ensures ActiveCycled(true).Valid() && ShowsTheSame(ActiveCycled(true).ActiveCycled(false))
    {
      NoToplevels();
      PointersListed();
      ActiveCycledKeeps(true);
      if active.Some? {
        BackwardUndoesForwardAt(IndexOf(toplevels, active.value));
        hide Valid, ShowsTheSame, ActiveCycled;
      }
    }

    lemma BackwardUndoesForwardAt(i: nat)
      requires Valid() && mode == ActiveMode && i < |toplevels| && active == Some(toplevels[i])
      ensures ActiveCycled(true).Valid() && ShowsTheSame(ActiveCycled(true).ActiveCycled(false))
    {
      hide Listed, InputsMatch, ModeShown, OwnersExist, ActiveCycled, ShowsTheSame, SameWindows;
      var n := |toplevels|;
      ActiveCycledIs(i, true);
      var t, j := ActiveCycled(true), Around(n + i + 1, n);
      t.ActiveCycledIs(j, false);
      ForthAndBack(i, n);
      SameWindowsTwice(t, t.ActiveCycled(false));
      ShownIsDetermined(t.ActiveCycled(false));
    }

    lemma WithActiveAnimates(x: XWindow, stateForNew: WindowState, stateForOld: WindowState)
      requires x in tops && IsToplevel(active) && mode == ActiveMode && active.Some? && active != Some(x) && toplevels != []
      ensures var t := WithActive(x, stateForNew, stateForOld);
              && x in t.tops && active.value in t.tops
              && t.tops[x] == tops[x].(state := stateForNew).ForActiveMode(true)
              && t.tops[active.value] == tops[active.value].(state := stateForOld).ForActiveMode(false)
              && forall y | y in t.tops && y != x && y != active.value :: y in tops && t.tops[y] == tops[y].ForActiveMode(false)
    {
    }

    /** With two windows or more, the new active window comes in from one side, the old one goes
        out to the other, and no other window moves. */
    lemma CyclingAnimates(i: nat, forward: bool)
      requires Valid() && mode == ActiveMode && |toplevels| >= 2 && i < |toplevels| && active == Some(toplevels[i])
      ensures var t := ActiveCycled(forward);
              && active.value in t.tops && t.active.Some? && t.active.value in t.tops && t.active != active
              && t.tops[t.active.value].animation == (if forward then FromRight else FromLeft)
              && t.tops[active.value].animation == (if forward then ToLeft else ToRight)
              && forall x | x in t.tops && Some(x) != t.active && Some(x) != active :: t.tops[x].animation == Stayed
    {
      hide Listed, InputsMatch, OwnersExist, IndexOf, ActiveCycled, WithActive;
      ActiveCycledTo(i, forward);
      var j := Around(|toplevels| + i + (if forward then 1 else -1), |toplevels|);
      WithActiveAnimates(toplevels[j], if forward then InFromRight else InFromLeft, if forward then OutToLeft else OutToRight);
    }

    lemma ActiveCycledTo(i: nat, forward: bool)
      requires Valid() && mode == ActiveMode && |toplevels| >= 2 && i < |toplevels| && active == Some(toplevels[i])
      ensures var j := Around(|toplevels| + i + (if forward then 1 else -1), |toplevels|);
              && toplevels[j] != toplevels[i] && toplevels[j] in tops
              && ActiveCycled(forward) == WithActive(toplevels[j], if forward then InFromRight else InFromLeft,
                                                     if forward then OutToLeft else OutToRight)
              && ActiveCycled(forward).active == Some(toplevels[j])
    {
      PointersListed();
      ListedOnce(i);
      var j := Neighbour(toplevels, active.value, forward);
      ListedMeaning(toplevels[j]);
      ListedOnce(j);
      OneAway(i, |toplevels|, forward);
      hide Listed, InputsMatch, IndexOf, ModeShown;
      ActiveCycledIs(i, forward);
      hide WithActive, SameWindows;
    }

    static lemma OneAway(i: nat, n: nat, forward: bool)
      requires i < n && n >= 2
      ensures Around(n + i + (if forward then 1 else -1), n) != i
    {
      if forward {
        ForthAndBack(i, n);
        if i + 1 < n {
          Remainder(n + i + 1, 1, i + 1, n);
        } else {
          Remainder(n + i + 1, 2, 0, n);
        }
      } else if i > 0 {
        Remainder(n + i - 1, 1, i - 1, n);
      } else {
        Remainder(n - 1, 0, n - 1, n);
      }
    }

    // ----- Opening and closing

    /** Closing a window that was just opened brings back what was shown before. */
    lemma UnmapUndoesMap(e: Event)
      requires Valid() && MagnifiedShown() && e.MapWindow? && Possible(e)
      ensures Mapped(e).Valid() && ShowsTheSame(Mapped(e).Unmapped(e.win))
    {
      MappedKeeps(e);
      if e.transientFor in tops {
        assert owners[e.win := e.transientFor] - {e.win} == owners;
        assert Mapped(e).Unmapped(e.win) == this;
        hide Valid, Mapped, Unmapped;
      } else {
        hide *;
        UnmapUndoesMapOfToplevel(e);
      }
    }

    lemma UnmapUndoesMapOfToplevel(e: Event)
      requires Valid() && MagnifiedShown() && e.MapWindow? && Possible(e) && e.transientFor !in tops
      ensures Mapped(e).Valid() && ShowsTheSame(Mapped(e).Unmapped(e.win))
    {
      MappedKeeps(e);
      var t := Mapped(e);
      MappedShape(e);
      hide Structure, ModeShown, Mapped, NewIndex, WithoutToplevel, WithToplevel;
      t.UnmappedKeepsExactly(e.win);
      UnmappedShape(e, t);
      hide Unmapped;
      ShownIsDetermined(t.Unmapped(e.win));
    }

    lemma MappedShape(e: Event)
      requires Valid() && e.MapWindow? && Possible(e) && e.transientFor !in tops
      ensures var t := Mapped(e);
              && (active.Some? ==> active.value in toplevels) && WithToplevel(e).SameWindows(t)
              && t.mode == mode && t.magnified == magnified && t.underTab == underTab
              && t.active == (if mode == ActiveMode then Some(e.win) else active)
              && e.win in t.tops
    {
      PointersListed();
      WithToplevelKeepsStructure(e);
      var s := WithToplevel(e);
      if mode == ActiveMode {
        s.WithActiveKeeps(e.win, InFromRight, OutToLeft);
        s.WithActivePointers(e.win, InFromRight, OutToLeft);
      } else {
        s.LaidOutForOverviewModeKeeps();
      }
      hide Structure, OwnersExist, WithActive, ModeShown;
    }

    lemma WithActivePointers(x: XWindow, stateForNew: WindowState, stateForOld: WindowState)
      requires x in tops && IsToplevel(active)
      ensures var t := WithActive(x, stateForNew, stateForOld);
              t.mode == mode && t.magnified == magnified && t.underTab == underTab
    {
      if mode == ActiveMode && active != Some(x) {
        WithActiveIs(x, stateForNew, stateForOld);
        hide WithActive, LaidOutForActiveMode, ActiveTops;
        var s := if active.Some? then WithState(active.value, stateForOld) else this;
        s.WithState(x, stateForNew).(active := Some(x)).LaidOutPointers();
      } else {
        hide LaidOutForActiveMode, WithState;
      }
    }

    lemma LaidOutPointers()
      ensures var t := LaidOutForActiveMode(); t.mode == mode && t.magnified == magnified && t.underTab == underTab
    {
      hide ActiveTops;
    }

    /** What is left when the window that was mapped is unmapped again. */
    lemma UnmappedShape(e: Event, t: State)
      requires Valid() && t.Valid() && e.MapWindow? && Possible(e)
      requires (active.Some? ==> active.value in toplevels) && WithToplevel(e).SameWindows(t) && e.win in t.tops
      requires t.mode == mode && t.magnified == magnified && t.underTab == underTab
      requires t.active == (if mode == ActiveMode then Some(e.win) else active)
      ensures var u := t.Unmapped(e.win);
              && SameWindows(u) && u.mode == mode
              && u.active == active && u.magnified == magnified && u.underTab == underTab
    {
      hide Valid;
      WithoutMapped(e, t);
      NotAnOwner(e, t);
      t.UnmappedIsSettled(e.win);
      var w := t.WithoutToplevel(e.win);
      SettledRestores(w);
      SameWindowsTwice(w, w.Settled(NewIndex()));
      hide SameWindows, WithToplevel, Unmapped, Settled, NewIndex;
    }

    lemma NotAnOwner(e: Event, t: State)
      requires t.Valid() && e.MapWindow? && e.win in t.tops
      ensures t.owners - {e.win} == t.owners && t.Structure()
    {
      hide Structure, ModeShown;
    }

    lemma UnmappedIsSettled(win: XWindow)
      requires Structure() && win in tops && owners - {win} == owners
      ensures win in toplevels && WithoutToplevel(win).Structure()
      ensures Unmapped(win) == WithoutToplevel(win).Settled(IndexOf(toplevels, win))
    {
      ListedMeaning(win);
      WithoutKeepsStructure(win);
      assert this.(owners := owners - {win}) == this;
      hide Structure, Settled, IndexOf, WithoutToplevel;
    }

    /** Taking the new window away again leaves the windows there were. */
    lemma WithoutMapped(e: Event, t: State)
      requires Valid() && t.Valid() && e.MapWindow? && Possible(e)
      requires (active.Some? ==> active.value in toplevels) && WithToplevel(e).SameWindows(t) && e.win in t.tops
      requires t.mode == mode && t.magnified == magnified && t.underTab == underTab
      requires t.active == (if mode == ActiveMode then Some(e.win) else active)
      ensures e.win in t.toplevels && IndexOf(t.toplevels, e.win) == NewIndex()
      ensures var w := t.WithoutToplevel(e.win);
              && SameWindows(w) && w.mode == mode && w.magnified == magnified && w.underTab == underTab
              && w.active == if mode == ActiveMode then None else active
    {
      hide Listed, InputsMatch, ModeShown, OwnersExist, IndexOf, NewIndex;
      var i := NewIndex();
      NewIndexIn();
      assert t.toplevels == toplevels[..i] + [e.win] + toplevels[i..];
      assert t.toplevels[i] == e.win;
      t.ListedMeaning(e.win);
      t.ListedOnce(i);
      var w := t.WithoutToplevel(e.win);
      assert w.toplevels == toplevels;
      WithoutMappedTops(e, t);
    }

    lemma WithoutMappedTops(e: Event, t: State)
      requires e.MapWindow? && Possible(e)
      requires (active.Some? ==> active.value in toplevels) && WithToplevel(e).SameWindows(t)
      requires e.win in t.tops && e.win in t.toplevels
      ensures var w := t.WithoutToplevel(e.win);
              && w.inputs == inputs && w.tops.Keys == tops.Keys && w.owners == owners
              && forall x | x in tops :: w.tops[x].inputXid == tops[x].inputXid && w.tops[x].chrome == tops[x].chrome
    {
      hide IndexOf, NewIndex;
      var s := WithToplevel(e);
      var w := t.WithoutToplevel(e.win);
      assert s.tops.Keys == tops.Keys + {e.win};
      assert e.win in s.tops && t.tops[e.win].inputXid == e.inputXid;
      assert w.tops.Keys == tops.Keys;
      assert inputs[e.inputXid := e.win] - {e.inputXid} == inputs;
      forall x | x in tops
        ensures w.tops[x].inputXid == tops[x].inputXid && w.tops[x].chrome == tops[x].chrome
      {
        assert x in s.tops;
        assert x in w.tops.Keys;
      }
    }

    /** Whichever window was active is made active again. */
    lemma SettledRestores(w: State)
      requires Valid() && SameWindows(w) && w.Structure()
      requires w.mode == mode && w.magnified == magnified && w.underTab == underTab
      requires w.active == if mode == ActiveMode then None else active
      requires active.Some? ==> active.value in toplevels
      ensures var u := w.Settled(NewIndex());
              && w.SameWindows(u) && u.mode == mode
              && u.active == active && u.magnified == magnified && u.underTab == underTab
    {
      NoToplevels();
      if mode == OverviewMode {
        w.LaidOutForOverviewModeKeeps();
        hide Structure, ModeShown, SameWindows;
      } else if toplevels == [] {
        hide Structure;
      } else {
        SettledActivates(w);
      }
    }

    lemma SettledActivates(w: State)
      requires Valid() && SameWindows(w) && w.Structure() && mode == ActiveMode && toplevels != []
      requires w.mode == mode && w.magnified == magnified && w.underTab == underTab && w.active.None?
      requires active.Some? && active.value in toplevels
      ensures var u := w.Settled(NewIndex());
              && w.SameWindows(u) && u.mode == mode
              && u.active == active && u.magnified == magnified && u.underTab == underTab
    {
      hide Listed, InputsMatch, OwnersExist, IndexOf, Settled, WithActive;
      var i, n := IndexOf(toplevels, active.value), |toplevels|;
      assert NewIndex() == i + 1 && w.toplevels == toplevels && magnified.None?;
      Remainder(i + 1 + n - 1, 1, i, n);
      w.ListedMeaning(toplevels[i]);
      hide *;
      w.SettledIs(i + 1);
      w.WithActiveKeeps(toplevels[i], InFromLeft, OutToRight);
      w.WithActivePointers(toplevels[i], InFromLeft, OutToRight);
    }

    lemma SettledIs(index: nat)
      requires Structure() && mode == ActiveMode && active.None? && toplevels != []
      ensures var x := toplevels[Around(index + |toplevels| - 1, |toplevels|)];
              x in tops && Settled(index) == WithActive(x, InFromLeft, OutToRight)
    {
      ListedMeaning(toplevels[Around(index + |toplevels| - 1, |toplevels|)]);
      hide Structure, WithActive;
    }

    /** When the active window is closed, its left neighbour becomes active; for the first window,
        the last one. */
    lemma ClosingActivatesLeft(i: nat)
      requires Valid() && mode == ActiveMode && i < |toplevels| && |toplevels| >= 2 && active == Some(toplevels[i])
      ensures var t, left := Unmapped(toplevels[i]), toplevels[if i == 0 then |toplevels| - 1 else i - 1];
              t.active == Some(left) && left in t.tops && t.tops[left].animation == FromLeft
    {
      hide Listed, InputsMatch, OwnersExist, IndexOf, Settled, WithActive, Unmapped;
      var win, n := toplevels[i], |toplevels| - 1;
      ListedMeaning(win);
      ListedOnce(i);
      NoOwnerOf(win);
      WithoutKeepsStructure(win);
      UnmappedIsSettled(win);
      var t := WithoutToplevel(win);
      assert t.toplevels == toplevels[..i] + toplevels[i + 1..] && t.active.None? && t.mode == ActiveMode && t.magnified.None?;
      hide *;
      t.SettledIs(i);
      var j := Around(i + n - 1, n);
      if i == 0 {
        Remainder(n - 1, 0, n - 1, n);
      } else {
        Remainder(n + i - 1, 1, i - 1, n);
      }
      t.WithActiveKeeps(t.toplevels[j], InFromLeft, OutToRight);
      t.FirstActiveAnimates(t.toplevels[j], InFromLeft, OutToRight);
    }

    /** A toplevel that goes leaves the others in their order, and no pointer to it; pointers to
        others stay, and so does the active one. */
    lemma ClosingKeepsOthers(win: XWindow)
      requires Valid() && win in tops
      ensures var t := Unmapped(win);
              && t.toplevels == Without(toplevels, win) && t.mode == mode
              && (active.Some? && active != Some(win) ==> t.active == active)
              && (mode == OverviewMode && active == Some(win) ==> t.active.None?)
              && t.magnified == (if magnified == Some(win) then None else magnified)
              && t.underTab == (if underTab == Some(win) then None else underTab)
    {
      hide ModeShown, InputsMatch, OwnersExist, IndexOf, Unmapped, Settled, WithActive, LaidOutForOverviewMode, Listed, Without;
      ValidMeans();
      NoOwnerOf(win);
      UnmappedIsSettled(win);
      ListedMeaning(win);
      LeftInOrder(win);
      WithoutToplevel(win).SettledPointers(IndexOf(toplevels, win));
    }

    lemma LeftInOrder(win: XWindow)
      requires Listed() && win in tops && win in toplevels
      ensures WithoutToplevel(win).toplevels == Without(toplevels, win)
    {
      hide Listed, Without, IndexOf;
      var i := IndexOf(toplevels, win);
      OnceInToplevels(i);
      WithoutOnce(toplevels, i);
    }

    lemma OnceInToplevels(i: nat)
      requires Listed() && i < |toplevels|
      ensures forall j | 0 <= j < |toplevels| && j != i :: toplevels[j] != toplevels[i]
    {
      hide Listed, IndexOf;
      forall j | 0 <= j < |toplevels| && j != i
        ensures toplevels[j] != toplevels[i]
      {
        ListedOnce(j);
        ListedOnce(i);
      }
    }

    lemma SettledPointers(index: nat)
      requires Structure()
      ensures var t := Settled(index);
              && t.toplevels == toplevels && t.mode == mode && t.magnified == magnified && t.underTab == underTab
              && (active.Some? || mode == OverviewMode ==> t.active == active)
    {
      hide Listed, InputsMatch, WithActive, OverviewTops;
      if mode == ActiveMode && active.None? && toplevels != [] {
        SettledIs(index);
        var x := toplevels[Around(index + |toplevels| - 1, |toplevels|)];
        hide Structure, Settled;
        WithActivePointers(x, InFromLeft, OutToRight);
        WithActiveOrder(x, InFromLeft, OutToRight);
      }
    }

    lemma WithActiveOrder(x: XWindow, stateForNew: WindowState, stateForOld: WindowState)
      requires x in tops && IsToplevel(active)
      ensures WithActive(x, stateForNew, stateForOld).toplevels == toplevels
    {
    }

    /** How a window comes in that replaces no other. */
    lemma FirstActiveAnimates(x: XWindow, stateForNew: WindowState, stateForOld: WindowState)
      requires x in tops && active.None? && mode == ActiveMode && toplevels != []
      ensures var t := WithActive(x, stateForNew, stateForOld);
              t.active == Some(x) && x in t.tops && (stateForNew == InFromLeft ==> t.tops[x].animation == FromLeft)
    {
    }

    lemma InputOf(win: XWindow)
      requires InputsMatch() && win in tops
      ensures tops[win].inputXid in inputs
    {
    }

    lemma NoOwnerOf(win: XWindow)
      requires OwnersExist() && win in tops
      ensures owners - {win} == owners
    {
    }

    // ----- Which windows there are

    lemma WithModeWindows(m: Mode)
      ensures WithMode(m).owners == owners && WithMode(m).tops.Keys == tops.Keys
    {
    }

    lemma WithActiveWindows(x: XWindow, stateForNew: WindowState, stateForOld: WindowState)
      requires x in tops && IsToplevel(active)
      ensures var t := WithActive(x, stateForNew, stateForOld); t.owners == owners && t.tops.Keys == tops.Keys
    {
      if mode == ActiveMode && active != Some(x) {
        WithActiveIs(x, stateForNew, stateForOld);
        hide WithActive, LaidOutForActiveMode, LaidOutForOverviewMode, WithState;
        var s := if active.Some? then WithState(active.value, stateForOld) else this;
        if active.Some? {
          WithStateWindows(active.value, stateForOld);
        }
        assert x in s.tops.Keys;
        s.WithStateWindows(x, stateForNew);
        s.WithState(x, stateForNew).(active := Some(x)).LaidOutWindows();
      }
    }

    lemma WithStateWindows(x: XWindow, state: WindowState)
      requires x in tops
      ensures WithState(x, state).owners == owners && WithState(x, state).tops.Keys == tops.Keys
    {
    }

    lemma LaidOutWindows()
      ensures LaidOutForOverviewMode().owners == owners && LaidOutForOverviewMode().tops.Keys == tops.Keys
      ensures LaidOutForActiveMode().owners == owners && LaidOutForActiveMode().tops.Keys == tops.Keys
    {
    }

    lemma MappedWindows(e: Event)
      requires Valid() && e.MapWindow? && Possible(e)
      ensures var t := Mapped(e);
              if e.transientFor in tops then t.owners == owners[e.win := e.transientFor] && t.tops.Keys == tops.Keys
              else t.owners == owners && t.tops.Keys == tops.Keys + {e.win}
    {
      hide Listed, InputsMatch, OwnersExist, ModeShown, WithActive, LaidOutForOverviewMode, NewIndex;
      if e.transientFor !in tops {
        PointersListed();
        WithToplevelKeepsStructure(e);
        var s := WithToplevel(e);
        assert s.tops.Keys == tops.Keys + {e.win} && s.owners == owners;
        hide WithToplevel;
        s.LaidOutWindows();
        if mode == ActiveMode {
          s.StructureMeans();
          s.WithActiveWindows(e.win, InFromRight, OutToLeft);
        }
      }
    }

    lemma SettledWindows(index: nat)
      requires Structure()
      ensures Settled(index).owners == owners && Settled(index).tops.Keys == tops.Keys
    {
      hide Listed, InputsMatch, WithActive, LaidOutForOverviewMode;
      LaidOutWindows();
      if mode == ActiveMode && active.None? && toplevels != [] {
        var i := Around(index + |toplevels| - 1, |toplevels|);
        ListedMeaning(toplevels[i]);
        WithActiveWindows(toplevels[i], InFromLeft, OutToRight);
      }
    }

    lemma UnmappedWindows(win: XWindow)
      requires Valid()
      ensures Unmapped(win).owners == owners - {win} && Unmapped(win).tops.Keys == tops.Keys - {win}
    {
      if win in tops {
        ValidMeans();
        NoOwnerOf(win);
        hide Valid, Structure, OwnersExist, InputsMatch, IndexOf, Settled, Unmapped;
        UnmappedIsSettled(win);
        WithoutToplevel(win).SettledWindows(IndexOf(toplevels, win));
        assert WithoutToplevel(win).tops.Keys == tops.Keys - {win};
      } else {
        hide Structure, OwnersExist, ModeShown;
      }
    }

    /** Only mapping and unmapping change which toplevels and transients there are. */
    lemma OtherWindows(e: Event)
      requires Valid() && Possible(e) && !e.MapWindow? && !e.UnmapWindow?
      ensures Step(e).owners == owners && Step(e).tops.Keys == tops.Keys
    {
      ValidMeans();
      hide Valid, Structure, OwnersExist, Pressed, Entered, WithMode, Requested, TabMoved, ActiveCycled, MagnifiedCycled,
           ActivatedByIndex, MagnifiedByIndex, SwitchedToActive, LaidOutForActiveMode, LaidOutForOverviewMode;
      match e
      case PressInput(xid, button) => PressedWindows(xid, button);
      case EnterInput(xid) => EnteredWindows(xid);
      case SwitchToOverviewMessage(win) => WithModeWindows(OverviewMode);
      case ActiveWindowRequest(win) => RequestedWindows(win);
      case MoveFloatingTab(at, toward, bottom) => TabMovedWindows(at, toward, bottom);
      case CycleActive(forward) => ActiveCycledWindows(forward);
      case CycleMagnified(forward) => MagnifiedCycledWindows(forward);
      case ActivateByIndex(index) => ActivatedByIndexWindows(index);
      case MagnifyByIndex(index) => MagnifiedByIndexWindows(index);
      case SwitchToActiveMode(activate) => SwitchedToActiveWindows(activate);
      case SwitchToOverviewMode => WithModeWindows(OverviewMode);
      case Resize => LaidOutWindows();
    }

    lemma PressedWindows(xid: XWindow, button: int)
      ensures Pressed(xid, button).owners == owners && Pressed(xid, button).tops.Keys == tops.Keys
    {
      hide WithMode;
      if xid in inputs {
        this.(active := Some(inputs[xid])).WithModeWindows(ActiveMode);
      }
    }

    lemma EnteredWindows(xid: XWindow)
      ensures Entered(xid).owners == owners && Entered(xid).tops.Keys == tops.Keys
    {
      hide LaidOutForOverviewMode, LaidOutForActiveMode;
      if xid in inputs {
        this.(magnified := Some(inputs[xid])).LaidOutWindows();
      }
    }

    lemma RequestedWindows(win: XWindow)
      requires Structure() && OwnersExist()
      ensures Requested(win).owners == owners && Requested(win).tops.Keys == tops.Keys
    {
      hide Listed, InputsMatch, WithActive, WithMode;
      var toplevel := if win in owners then Some(owners[win]) else if win in tops then Some(win) else None;
      this.(active := toplevel).WithModeWindows(ActiveMode);
      if toplevel.Some? {
        WithActiveWindows(toplevel.value, InFade, OutFade);
      }
    }

    lemma TabMovedWindows(at: Option<XWindow>, towardSummary: bool, intoBottom: bool)
      ensures var t := TabMoved(at, towardSummary, intoBottom); t.owners == owners && t.tops.Keys == tops.Keys
    {
      hide WithMode, LaidOutForOverviewMode, LaidOutForActiveMode, Under;
      WithModeWindows(OverviewMode);
      var t := Under(at, towardSummary);
      this.(underTab := t, magnified := t).LaidOutWindows();
    }

    lemma ActivatedByIndexWindows(index: int)
      requires Structure()
      ensures ActivatedByIndex(index).owners == owners && ActivatedByIndex(index).tops.Keys == tops.Keys
    {
      hide Listed, InputsMatch, WithActive;
      var x := AtIndex(index);
      if x.Some? {
        ListedMeaning(x.value);
        WithActiveWindows(x.value, InFade, OutFade);
      }
    }

    lemma MagnifiedByIndexWindows(index: int)
      ensures MagnifiedByIndex(index).owners == owners && MagnifiedByIndex(index).tops.Keys == tops.Keys
    {
      hide LaidOutForOverviewMode, LaidOutForActiveMode;
      this.(magnified := AtIndex(index)).LaidOutWindows();
    }

    lemma SwitchedToActiveWindows(activate: bool)
      ensures SwitchedToActive(activate).owners == owners && SwitchedToActive(activate).tops.Keys == tops.Keys
    {
      hide WithMode;
      this.(active := if activate && magnified.Some? then magnified else active).WithModeWindows(ActiveMode);
    }

    lemma ActiveCycledWindows(forward: bool)
      requires Structure()
      ensures ActiveCycled(forward).owners == owners && ActiveCycled(forward).tops.Keys == tops.Keys
    {
      hide Listed, InputsMatch, WithActive, Neighbour;
      if mode == ActiveMode && toplevels != [] {
        PointersListed();
        if active.None? || |toplevels| != 1 {
          var i := if active.Some? then Neighbour(toplevels, active.value, forward) else if forward then 0 else |toplevels| - 1;
          ListedMeaning(toplevels[i]);
          WithActiveWindows(toplevels[i], if forward then InFromRight else InFromLeft, if forward then OutToLeft else OutToRight);
        }
      }
    }

    lemma MagnifiedCycledWindows(forward: bool)
      requires Structure()
      ensures MagnifiedCycled(forward).owners == owners && MagnifiedCycled(forward).tops.Keys == tops.Keys
    {
      hide Listed, InputsMatch, Neighbour, LaidOutForOverviewMode, LaidOutForActiveMode;
      PointersListed();
      var from := if magnified.Some? then magnified else active;
      var i := if from.Some? then Neighbour(toplevels, from.value, forward) else 0;
      if toplevels != [] {
        this.(magnified := Some(toplevels[i])).LaidOutWindows();
      }
    }

    // ----- Which window an event picks

    /** The request to go to active mode, with or without the magnified window: with it, that window
        becomes active if there is one; otherwise the active window stays so.  Without any of the
        two, the magnified or the first window is taken. */
    lemma SwitchActivates(activateMagnified: bool)
      requires Valid() && mode == OverviewMode
      ensures var t := SwitchedToActive(activateMagnified);
              && t.mode == ActiveMode && t.magnified.None?
              && (activateMagnified && magnified.Some? ==> t.active == magnified)
              && (!activateMagnified && active.Some? ==> t.active == active)
              && (magnified.None? && active.Some? ==> t.active == active)
              && (active.None? && magnified.Some? ==> t.active == magnified)
              && (active.None? && magnified.None? && toplevels != [] ==> t.active == Some(toplevels[0]))
              && (toplevels == [] ==> t.active.None?)
    {
      NoToplevels();
      hide Listed, InputsMatch, OwnersExist, ModeShown, ActiveTops;
    }

    /** In active mode the request does nothing. */
    lemma SwitchStays(activateMagnified: bool)
      requires mode == ActiveMode
      ensures SwitchedToActive(activateMagnified) == this
    {
    }

    /** The pointer magnifies the toplevel whose input window it enters, in overview mode, and
        nothing else. */
    lemma PointerMagnifies(xid: XWindow)
      requires Valid()
      ensures var t := Entered(xid);
              && t.mode == mode && t.active == active && t.underTab == underTab
              && t.magnified == (if mode == OverviewMode && xid in inputs then Some(inputs[xid]) else magnified)
              && (mode == ActiveMode || xid !in inputs ==> t == this)
    {
      hide Listed, InputsMatch, OwnersExist, ModeShown, OverviewTops;
    }

    /** A tab that is dragged in overview mode is over the toplevel at the pointer, or over the
        magnified one if it is on the way to the summary; but only over one of Chrome's.  When that
        changes, it is magnified, or nothing is.  In active mode, dragging the tab down to the bottom
        switches to overview mode. */
    lemma TabMagnifies(at: Option<XWindow>, towardSummary: bool, intoBottom: bool)
      requires Valid() && IsToplevel(at)
      ensures var t := TabMoved(at, towardSummary, intoBottom);
              && (mode == OverviewMode ==>
                    && t.mode == mode && t.active == active
                    && (at.Some? && tops[at.value].chrome ==> t.underTab == at)
                    && (at.Some? && !tops[at.value].chrome ==> t.underTab.None?)
                    && (at.None? && !towardSummary ==> t.underTab.None?)
                    && (at.None? && towardSummary && magnified.Some? && tops[magnified.value].chrome ==> t.underTab == magnified)
                    && (at.None? && towardSummary && magnified.Some? && !tops[magnified.value].chrome ==> t.underTab.None?)
                    && (at.None? && towardSummary && magnified.None? ==> t.underTab.None?)
                    && t.magnified == (if t.underTab == underTab then magnified else t.underTab))
              && (mode == ActiveMode && intoBottom ==> t.mode == OverviewMode && t.active == active && t.magnified.None?)
              && (mode == ActiveMode && !intoBottom ==> t == this)
    {
      hide Listed, InputsMatch, OwnersExist, ModeShown, OverviewTops;
    }

    /** The message to switch to overview mode magnifies the toplevel that it names, if any. */
    lemma MessageMagnifies(win: XWindow)
      ensures var t := SwitchedByMessage(win);
              && t.mode == OverviewMode && t.active == active && t.underTab == underTab
              && t.magnified == (if win in tops then Some(win) else None)
    {
      hide OverviewTops;
    }

    /** A new toplevel is just right of the active one in active mode, or else on the far right. */
    lemma MappedIsPlaced(e: Event)
      requires Valid() && e.MapWindow? && Possible(e) && e.transientFor !in tops
      ensures var t := Mapped(e);
              && |t.toplevels| == |toplevels| + 1 && Without(t.toplevels, e.win) == toplevels
              && e.win in t.tops && t.tops[e.win].inputXid == e.inputXid && t.tops[e.win].chrome == e.chrome
              && (mode == ActiveMode && active.Some? ==>
                    exists i | 0 <= i < |toplevels| :: toplevels[i] == active.value && t.toplevels[i + 1] == e.win)
              && (mode == OverviewMode || active.None? ==> t.toplevels[|toplevels|] == e.win)
    {
      ListedMeaning(e.win);
      hide Listed, InputsMatch, OwnersExist, ModeShown, NewIndex, WithActive, LaidOutForOverviewMode, Without;
      PointersListed();
      MappedKeepsTops(e);
      NewIndexPlace();
      InsertKeepsOthers(toplevels, e.win, NewIndex());
    }

    lemma NewIndexPlace()
      requires active.Some? ==> active.value in toplevels
      ensures mode == ActiveMode && active.Some? ==> 0 < NewIndex() <= |toplevels| && toplevels[NewIndex() - 1] == active.value
      ensures mode == OverviewMode || active.None? ==> NewIndex() == |toplevels|
    {
    }

    lemma MappedKeepsTops(e: Event)
      requires Valid() && e.MapWindow? && Possible(e) && e.transientFor !in tops
      ensures active.Some? ==> active.value in toplevels
      ensures NewIndex() <= |toplevels|
      ensures var t := Mapped(e);
              && t.toplevels == toplevels[..NewIndex()] + [e.win] + toplevels[NewIndex()..]
              && e.win in t.tops && t.tops[e.win].inputXid == e.inputXid && t.tops[e.win].chrome == e.chrome
    {
      hide Valid, Mapped, NewIndex;
      MappedShape(e);
      NewIndexIn();
    }

    /** A window that is requested fades in and the one it replaces fades out. */
    lemma RequestFades(win: XWindow)
      requires Valid() && mode == ActiveMode && active.Some? && win in tops && active != Some(win)
      ensures var t := Requested(win);
              && win in t.tops && active.value in t.tops
              && t.tops[win].animation == FadedIn && t.tops[active.value].animation == FadedOut
              && forall y | y in t.tops && y != win && y != active.value :: t.tops[y].animation == Stayed
    {
      hide Valid, Structure, Listed, InputsMatch, OwnersExist, ModeShown, IndexOf, WithActive, Requested;
      ValidMeans();
      SomeToplevel(win);
      RequestIsActivation(win);
      WithActiveAnimates(win, InFade, OutFade);
      var t := Requested(win);
      forall y | y in t.tops && y != win && y != active.value
        ensures t.tops[y].animation == Stayed
      {
        OthersAreOff(y);
      }
    }

    lemma SomeToplevel(x: XWindow)
      requires Valid() && x in tops
      ensures toplevels != [] && IsToplevel(active)
    {
      NoToplevels();
      hide Listed, InputsMatch, OwnersExist, ModeShown;
    }

    lemma OthersAreOff(y: XWindow)
      requires Valid() && mode == ActiveMode && y in tops && active != Some(y)
      ensures tops[y].state == OffScreen
    {
      hide Structure, OwnersExist;
    }

    lemma InOverview(y: XWindow)
      requires Valid() && mode == OverviewMode && y in tops
      ensures tops[y].state == OverviewNormal || tops[y].state == OverviewMagnified
    {
      hide Structure, OwnersExist;
    }

    /** So it is for a window that is picked by its index. */
    lemma IndexFades(index: int)
      requires Valid() && mode == ActiveMode && active.Some? && AtIndex(index).Some? && AtIndex(index) != active
      ensures var t, win := ActivatedByIndex(index), AtIndex(index).value;
              && win in t.tops && active.value in t.tops
              && t.tops[win].animation == FadedIn && t.tops[active.value].animation == FadedOut
              && forall y | y in t.tops && y != win && y != active.value :: t.tops[y].animation == Stayed
    {
      hide Valid, Structure, Listed, InputsMatch, OwnersExist, ModeShown, IndexOf, WithActive, Requested;
      ValidMeans();
      var win := AtIndex(index).value;
      ListedMeaning(win);
      SameFading(index);
      RequestFades(win);
    }

    lemma SameFading(index: int)
      requires Valid() && mode == ActiveMode && AtIndex(index).Some? && AtIndex(index).value in tops
      ensures ActivatedByIndex(index) == Requested(AtIndex(index).value)
    {
      RequestIsActivation(AtIndex(index).value);
      hide Structure, ModeShown, WithActive, Requested;
    }

    lemma RequestIsActivation(win: XWindow)
      requires Valid() && mode == ActiveMode && win in tops
      ensures Requested(win) == WithActive(win, InFade, OutFade)
    {
      hide Structure, ModeShown, WithActive;
    }

    /** On the way to active mode the active window goes to its place and all others go down. */
    lemma ModeAnimates(activateMagnified: bool)
      requires Valid() && mode == OverviewMode
      ensures var t := SwitchedToActive(activateMagnified);
              forall y | y in t.tops :: t.tops[y].animation == if t.active == Some(y) then Stayed else ToBelow
    {
      hide Valid, WithMode, ActiveTops;
      var t := SwitchedToActive(activateMagnified);
      var s := this.(active := if activateMagnified && magnified.Some? then magnified else active);
      assert t == s.WithMode(ActiveMode);
      s.ModeTops();
      s.WithModeWindows(ActiveMode);
      hide SwitchedToActive;
      forall y | y in t.tops
        ensures t.tops[y].animation == if t.active == Some(y) then Stayed else ToBelow
      {
        assert y in t.tops.Keys;
        SomeToplevel(y);
        InOverview(y);
        s.ActiveTopsAt(t.active, y);
      }
    }

    lemma ModeTops()
      ensures toplevels != [] ==> WithMode(ActiveMode).tops == ActiveTops(WithMode(ActiveMode).active)
      ensures toplevels == [] ==> WithMode(ActiveMode).tops == tops
    {
      hide ActiveTops;
      SameActiveTops(this.(mode := ActiveMode, active := ToActivate(), magnified := None), ToActivate());
    }

    lemma SameActiveTops(t: State, a: Option<XWindow>)
      requires t.tops == tops
      ensures t.ActiveTops(a) == ActiveTops(a)
    {
    }

    /** A new layout in active mode moves no window. */
    lemma LayoutStays()
      requires Valid() && mode == ActiveMode
      ensures LaidOut().active == active && LaidOut().mode == mode && LaidOut().magnified == magnified
      ensures forall y | y in LaidOut().tops :: LaidOut().tops[y].animation == Stayed
    {
      NoToplevels();
      hide Listed, InputsMatch, OwnersExist;
    }

    /** A new layout in overview mode leaves everything as it is. */
    lemma OverviewLayoutStays()
      requires Valid() && mode == OverviewMode && MagnifiedShown()
      ensures LaidOut() == this
    {
      assert OverviewTops() == tops;
    }

    /** Without an active window, cycling activates the first one, or backward the last one. */
    lemma CyclingStarts(forward: bool)
      requires Structure() && mode == ActiveMode && active.None? && toplevels != []
      ensures ActiveCycled(forward).active == Some(toplevels[if forward then 0 else |toplevels| - 1])
    {
      var x := toplevels[if forward then 0 else |toplevels| - 1];
      ListedMeaning(x);
      hide Listed, InputsMatch, WithActive, Neighbour;
      FirstActiveAnimates(x, if forward then InFromRight else InFromLeft, if forward then OutToLeft else OutToRight);
    }

    /** Without a magnified or an active window, cycling magnifies the first one; a single magnified
        window stays so. */
    lemma MagnifiedCycledStarts(forward: bool)
      requires Valid() && mode == OverviewMode && toplevels != []
      ensures magnified.None? && active.None? ==> MagnifiedCycled(forward).magnified == Some(toplevels[0])
      ensures magnified.Some? && |toplevels| == 1 ==> MagnifiedCycled(forward) == this
    {
      hide Listed, InputsMatch, OwnersExist, ModeShown, Neighbour;
      PointersListed();
    }

    /** A new window comes in from the right and takes the place of the active one, which goes out
        to the left. */
    lemma MappingAnimates(e: Event)
      requires Valid() && e.MapWindow? && Possible(e) && e.transientFor !in tops && mode == ActiveMode && active.Some?
      ensures var t := Mapped(e);
              && t.active == Some(e.win) && e.win in t.tops && active.value in t.tops
              && t.tops[e.win].animation == FromRight && t.tops[active.value].animation == ToLeft
    {
      hide Listed, InputsMatch, OwnersExist, ModeShown, NewIndex, WithActive, SameWindows;
      PointersListed();
      MappedShape(e);
      WithToplevelKeepsStructure(e);
      NewIndexIn();
      WithToplevel(e).WithActiveAnimates(e.win, InFromRight, OutToLeft);
    }

    /** The arrow keys move the magnification by one, around the ends, from the active window if
        none is magnified. */
    lemma MagnifiedCycledIs(i: nat, forward: bool)
      requires Valid() && mode == OverviewMode && i < |toplevels|
      requires Some(toplevels[i]) == (if magnified.Some? then magnified else active)
      requires |toplevels| > 1 || magnified.None?
      ensures MagnifiedCycled(forward).magnified
           == Some(toplevels[Around(|toplevels| + i + (if forward then 1 else -1), |toplevels|)])
    {
      hide Listed, InputsMatch, OwnersExist, ModeShown, Around;
      NeighbourIs(i, forward);
    }

    /** Index n means the n-th window from the left, and -n the n-th from the right. */
    lemma IndexPicks(index: int)
      requires Valid()
      ensures mode == ActiveMode && 0 <= index < |toplevels| ==> ActivatedByIndex(index).active == Some(toplevels[index])
      ensures mode == ActiveMode && 0 < -index <= |toplevels| ==>
                ActivatedByIndex(index).active == Some(toplevels[|toplevels| + index])
      ensures mode == ActiveMode && !(-|toplevels| <= index < |toplevels|) ==> ActivatedByIndex(index) == this
      ensures mode == OverviewMode && !(-|toplevels| <= index < |toplevels|) ==> MagnifiedByIndex(index) == this
      ensures mode == OverviewMode && 0 <= index < |toplevels| ==> MagnifiedByIndex(index).magnified == Some(toplevels[index])
      ensures mode == OverviewMode && 0 < -index <= |toplevels| ==>
                MagnifiedByIndex(index).magnified == Some(toplevels[|toplevels| + index])
    {
      hide Listed, InputsMatch, OwnersExist, ModeShown, WithActive;
      var x := AtIndex(index);
      if x.Some? {
        ListedMeaning(x.value);
        if mode == ActiveMode {
          WithActiveSame(x.value, InFade, OutFade);
          hide SameWindows;
        }
      }
    }

    /** A click on a window in overview mode, and a request for a window or one of its transients in
        either mode, end in active mode with that window active. */
    lemma ChosenWindowIsActive(xid: XWindow, win: XWindow)
      requires Valid()
      ensures mode == OverviewMode && xid in inputs ==>
                Pressed(xid, 1).mode == ActiveMode && Pressed(xid, 1).active == Some(inputs[xid])
      ensures win in owners ==> Requested(win).mode == ActiveMode && Requested(win).active == Some(owners[win])
      ensures win in tops ==> Requested(win).mode == ActiveMode && Requested(win).active == Some(win)
    {
      NoToplevels();
      hide Listed, InputsMatch, ModeShown, WithActive;
      if win in owners && mode == ActiveMode {
        WithActiveSame(owners[win], InFade, OutFade);
      }
      if win in tops && mode == ActiveMode {
        WithActiveSame(win, InFade, OutFade);
      }
      hide SameWindows;
    }

    /** What is not meant for the mode, or for a window that is there, does nothing. */
    lemma NothingElseActs(xid: XWindow, button: int, win: XWindow, forward: bool, index: int)
      requires Valid()
      ensures mode == ActiveMode || button != 1 || xid !in inputs ==> Pressed(xid, button) == this
      ensures win !in owners && win !in tops ==> Requested(win) == this
      ensures mode == OverviewMode ==> ActiveCycled(forward) == this && ActivatedByIndex(index) == this
      ensures mode == ActiveMode ==> MagnifiedCycled(forward) == this && MagnifiedByIndex(index) == this
    {
    }

    /** Going to overview mode and back without a choice shows what was shown before. */
    lemma OverviewAndBack()
      requires Valid() && mode == ActiveMode
      ensures ShowsTheSame(WithMode(OverviewMode).SwitchedToActive(false))
    {
      var t := WithMode(OverviewMode);
      SwitchedKeeps(OverviewMode);
      WithModeKeeps(OverviewMode);
      t.SwitchedToActiveKeeps(false);
      t.WithModeKeeps(ActiveMode);
      NoToplevels();
      assert t.toplevels == toplevels && t.active == active && t.magnified.None? && t.underTab == underTab;
      hide Structure, OwnersExist, ModeShown, SameWindows, MagnifiedShown;
      SameWindowsTwice(t, t.WithMode(ActiveMode));
      assert t.(active := t.active) == t;
      BackInActiveMode(t);
      ShownIsDetermined(t.SwitchedToActive(false));
    }

    lemma BackInActiveMode(t: State)
      requires t.mode == OverviewMode && t.magnified.None?
      requires t.active.None? ==> t.toplevels == []
      ensures var u := t.WithMode(ActiveMode);
              u.active == t.active && u.magnified.None? && u.underTab == t.underTab && u.mode == ActiveMode && u.MagnifiedShown()
    {
    }
  }

  // ----- The class

  /** The object's position in the vector, or -1. */
  method GetIndexForToplevelWindow(toplevels: seq<XWindow>, toplevel: XWindow) returns (index: int)
    ensures index == if toplevel in toplevels then IndexOf(toplevels, toplevel) else -1
  {
    for i := 0 to |toplevels|
      invariant toplevel !in toplevels[..i]
    {
      if toplevels[i] == toplevel {
        assert toplevel in toplevels;
        FirstIndex(toplevels, i);
        return i;
      }
    }
    assert toplevels[..|toplevels|] == toplevels;
    index := -1;
  }

  lemma FirstIndex(s: seq<XWindow>, i: nat)
    requires i < |s| && s[i] !in s[..i]
    ensures IndexOf(s, s[i]) == i
  {
    assert s == s[..i] + [s[i]] + s[i + 1..];
    IndexOfSplit(s[..i], s[i], s[i + 1..]);
  }

  /** A loop over the toplevels is to turn tops into goal; it has come past the ones in done. */
  ghost predicate PartlyDone(before: map<XWindow, Toplevel>, goal: map<XWindow, Toplevel>, done: seq<XWindow>,
                             tops: map<XWindow, Toplevel>)
  {
    && before.Keys == goal.Keys == tops.Keys
    && forall x | x in before.Keys :: tops[x] == if x in done then goal[x] else before[x]
  }

  lemma NothingDone(before: map<XWindow, Toplevel>, goal: map<XWindow, Toplevel>)
    requires before.Keys == goal.Keys
    ensures PartlyDone(before, goal, [], before)
  {
  }

  lemma OneMoreDone(before: map<XWindow, Toplevel>, goal: map<XWindow, Toplevel>, done: seq<XWindow>, x: XWindow,
                    more: seq<XWindow>, tops: map<XWindow, Toplevel>)
    requires PartlyDone(before, goal, done, tops) && x in before && x !in done
    requires more == done + [x] || more == [x] + done
    ensures x in tops && x in goal && tops[x] == before[x]
    ensures PartlyDone(before, goal, more, tops[x := goal[x]])
  {
    assert x in before.Keys && x in tops.Keys && x in goal.Keys;
    assert forall y :: y in more <==> y in done || y == x;
  }

  lemma AllDone(s: State, goal: map<XWindow, Toplevel>, tops: map<XWindow, Toplevel>)
    requires s.Listed() && PartlyDone(s.tops, goal, s.toplevels, tops)
    ensures tops == goal
  {
    forall x | x in tops.Keys
      ensures x in goal.Keys && tops[x] == goal[x]
    {
      s.ListedMeaning(x);
    }
  }

  class LayoutManager {
    var mode: Mode
    var toplevels: seq<XWindow>
    var tops: map<XWindow, Toplevel>
    var activeToplevel: Option<XWindow>
    var magnifiedToplevel: Option<XWindow>
    var toplevelUnderFloatingTab: Option<XWindow>
    var inputToToplevel: map<XWindow, XWindow>
    var transientToToplevel: map<XWindow, XWindow>

    ghost function Abs(): State
      reads this
    {
      State(mode, toplevels, tops, activeToplevel, magnifiedToplevel, toplevelUnderFloatingTab,
            inputToToplevel, transientToToplevel)
    }

    constructor ()
      ensures Abs() == State(ActiveMode, [], map[], None, None, None, map[], map[]) && Abs().Valid()
    {
      mode, toplevels, tops := ActiveMode, [], map[];
      activeToplevel, magnifiedToplevel, toplevelUnderFloatingTab := None, None, None;
      inputToToplevel, transientToToplevel := map[], map[];
    }

    method SetMagnifiedToplevelWindow(toplevel: Option<XWindow>)
      modifies this`magnifiedToplevel
      ensures magnifiedToplevel == toplevel
    {
      magnifiedToplevel := toplevel;
    }

    method SetState(toplevel: XWindow, state: WindowState)
      requires toplevel in tops
      modifies this`tops
      ensures Abs() == old(Abs()).WithState(toplevel, state)
    {
      tops := tops[toplevel := tops[toplevel].(state := state)];
    }

    method LayoutToplevelWindowsForActiveMode()
      requires Abs().Listed()
      modifies this`tops, this`activeToplevel
      ensures Abs() == old(Abs()).LaidOutForActiveMode()
    {
      if toplevels == [] {
        return;
      }
      ghost var before := Abs();
      if activeToplevel.None? {
        activeToplevel := Some(toplevels[0]);
      }
      ghost var a, goal := activeToplevel, before.ActiveTops(activeToplevel);
      hide State.Listed, State.ActiveTops, IndexOf, Toplevel.ForActiveMode, PartlyDone;
      before.ActiveTopsKeys(a);
      NothingDone(before.tops, goal);
      for i := 0 to |toplevels|
        invariant Abs() == before.(active := a, tops := tops)
        invariant PartlyDone(before.tops, goal, toplevels[..i], tops)
      {
        var toplevel := toplevels[i];
        before.NextListed(i);
        OneMoreDone(before.tops, goal, toplevels[..i], toplevel, toplevels[..i + 1], tops);
        before.ActiveTopsAt(a, toplevel);
        tops := tops[toplevel := tops[toplevel].ForActiveMode(activeToplevel == Some(toplevel))];
      }
      assert toplevels[..|toplevels|] == toplevels;
      AllDone(before, goal, tops);
    }

    /** The positions that are calculated first are in OverviewLayout. */
    method LayoutToplevelWindowsForOverviewMode()
      requires Abs().Listed()
      modifies this`tops
      ensures Abs() == old(Abs()).LaidOutForOverviewMode()
    {
      ghost var before := Abs();
      ghost var goal := before.OverviewTops();
      hide State.Listed, IndexOf, Toplevel.ForOverviewMode, PartlyDone;
      NothingDone(before.tops, goal);
      assert toplevels[|toplevels|..] == [];
      for i := |toplevels| downto 0
        invariant PartlyDone(before.tops, goal, toplevels[i..], tops)
      {
        var toplevel := toplevels[i];
        before.ListedMeaning(toplevel);
        before.ListedAfter(i);
        assert toplevels[i..] == [toplevel] + toplevels[i + 1..];
        OneMoreDone(before.tops, goal, toplevels[i + 1..], toplevel, toplevels[i..], tops);
        tops := tops[toplevel := tops[toplevel].ForOverviewMode(magnifiedToplevel == Some(toplevel))];
      }
      assert toplevels[0..] == toplevels;
      AllDone(before, goal, tops);
    }

    method SetActiveToplevelWindow(toplevel: XWindow, stateForNewWin: WindowState, stateForOldWin: WindowState)
      requires Abs().Structure() && toplevel in tops
      modifies this`tops, this`activeToplevel
      ensures Abs() == old(Abs()).WithActive(toplevel, stateForNewWin, stateForOldWin)
    {
      if mode != ActiveMode || activeToplevel == Some(toplevel) {
        return;
      }
      hide State.Structure, State.Listed, State.WithState, State.LaidOutForActiveMode, State.WithActive;
      ghost var before := Abs();
      before.StructureMeans();
      before.WithActivePrepared(toplevel, stateForNewWin, stateForOldWin);
      if activeToplevel.Some? {
        SetState(activeToplevel.value, stateForOldWin);
      }
      SetState(toplevel, stateForNewWin);
      activeToplevel := Some(toplevel);
      LayoutToplevelWindowsForActiveMode();
    }

    method SetMode(newMode: Mode)
      requires Abs().Listed()
      modifies this
      ensures Abs() == old(Abs()).WithMode(newMode)
    {
      hide State.LaidOutForActiveMode, State.LaidOutForOverviewMode;
      mode := newMode;
      match newMode {
        case ActiveMode =>
          if activeToplevel.None? && magnifiedToplevel.Some? {
            activeToplevel := magnifiedToplevel;
          }
          if activeToplevel.None? && toplevels != [] {
            activeToplevel := Some(toplevels[0]);
          }
          SetMagnifiedToplevelWindow(None);
          LayoutToplevelWindowsForActiveMode();
        case OverviewMode =>
          SetMagnifiedToplevelWindow(None);
          LayoutToplevelWindowsForOverviewMode();
      }
    }

    method SwitchToActiveMode(activateMagnifiedWin: bool)
      requires Abs().Valid()
      modifies this
      ensures Abs() == old(Abs()).SwitchedToActive(activateMagnifiedWin) && Abs().Valid()
    {
      hide State.Valid, State.Structure, State.InputsMatch, State.ModeShown, State.OwnersExist,
           State.WithActive, State.LaidOutForActiveMode, State.LaidOutForOverviewMode, State.WithMode, IndexOf;
      Abs().ValidMeans();
      Abs().SwitchedToActiveKeeps(activateMagnifiedWin);
      if mode == ActiveMode {
        return;
      }
      if activateMagnifiedWin && magnifiedToplevel.Some? {
        activeToplevel := magnifiedToplevel;
      }
      SetMode(ActiveMode);
    }

    method ActivateToplevelWindowByIndex(index: int)
      requires Abs().Valid()
      modifies this
      ensures Abs() == old(Abs()).ActivatedByIndex(index) && Abs().Valid()
    {
      hide State.Valid, State.Structure, State.InputsMatch, State.ModeShown, State.OwnersExist,
           State.WithActive, State.LaidOutForActiveMode, State.LaidOutForOverviewMode, State.WithMode, IndexOf;
      Abs().ValidMeans();
      Abs().ActivatedByIndexKeeps(index);
      if toplevels == [] || mode != ActiveMode {
        return;
      }
      var i := if index < 0 then |toplevels| + index else index;
      if i < 0 || i >= |toplevels| {
        return;
      }
      Abs().ListedMeaning(toplevels[i]);
      if Some(toplevels[i]) == activeToplevel {
        Abs().WithActiveAgain(toplevels[i], InFade, OutFade);
        return;
      }
      SetActiveToplevelWindow(toplevels[i], InFade, OutFade);
    }

    method MagnifyToplevelWindowByIndex(index: int)
      requires Abs().Valid()
      modifies this
      ensures Abs() == old(Abs()).MagnifiedByIndex(index) && Abs().Valid()
    {
      hide State.Valid, State.Structure, State.InputsMatch, State.ModeShown, State.OwnersExist,
           State.WithActive, State.LaidOutForActiveMode, State.LaidOutForOverviewMode, State.WithMode, IndexOf;
      Abs().ValidMeans();
      Abs().MagnifiedByIndexKeeps(index);
      if toplevels == [] || mode != OverviewMode {
        return;
      }
      var i := if index < 0 then |toplevels| + index else index;
      if i < 0 || i >= |toplevels| || Some(toplevels[i]) == magnifiedToplevel {
        return;
      }
      SetMagnifiedToplevelWindow(Some(toplevels[i]));
      LayoutToplevelWindowsForOverviewMode();
    }

    method GetNeighbourIndex(toplevel: XWindow, forward: bool) returns (newIndex: nat)
      requires toplevel in toplevels
      ensures newIndex == Neighbour(toplevels, toplevel, forward)
    {
      var oldIndex := GetIndexForToplevelWindow(toplevels, toplevel);
      newIndex := Around(|toplevels| + oldIndex + (if forward then 1 else -1), |toplevels|);
    }

    method CycleActiveToplevelWindow(forward: bool)
      requires Abs().Valid()
      modifies this
      ensures Abs() == old(Abs()).ActiveCycled(forward) && Abs().Valid()
    {
      hide State.Valid, State.Structure, State.InputsMatch, State.ModeShown, State.OwnersExist,
           State.WithActive, State.LaidOutForActiveMode, State.LaidOutForOverviewMode, State.WithMode, Neighbour, IndexOf;
      Abs().ValidMeans();
      Abs().ActiveCycledKeeps(forward);
      if mode != ActiveMode || toplevels == [] {
        return;
      }
      Abs().PointersListed();
      var index: int;
      if activeToplevel.None? {
        index := if forward then 0 else |toplevels| - 1;
      } else {
        if |toplevels| == 1 {
          return;
        }
        index := GetNeighbourIndex(activeToplevel.value, forward);
      }
      Abs().ListedMeaning(toplevels[index]);
      SetActiveToplevelWindow(toplevels[index], if forward then InFromRight else InFromLeft,
                              if forward then OutToLeft else OutToRight);
    }

    method CycleMagnifiedToplevelWindow(forward: bool)
      requires Abs().Valid()
      modifies this
      ensures Abs() == old(Abs()).MagnifiedCycled(forward) && Abs().Valid()
    {
      hide State.Valid, State.Structure, State.InputsMatch, State.ModeShown, State.OwnersExist,
           State.WithActive, State.LaidOutForActiveMode, State.LaidOutForOverviewMode, State.WithMode, Neighbour, IndexOf;
      Abs().ValidMeans();
      Abs().MagnifiedCycledKeeps(forward);
      if mode != OverviewMode || toplevels == [] {
        return;
      }
      if magnifiedToplevel.Some? && |toplevels| == 1 {
        return;
      }
      Abs().PointersListed();
      if magnifiedToplevel.None? && activeToplevel.None? {
        SetMagnifiedToplevelWindow(Some(toplevels[0]));
      } else {
        if magnifiedToplevel.None? {
          magnifiedToplevel := activeToplevel;
        }
        var newIndex := GetNeighbourIndex(magnifiedToplevel.value, forward);
        SetMagnifiedToplevelWindow(Some(toplevels[newIndex]));
      }
      LayoutToplevelWindowsForOverviewMode();
    }

    method HandleWindowMap(win: XWindow, transientFor: XWindow, inputXid: XWindow, chrome: bool)
      requires Abs().Valid() && Abs().Possible(Event.MapWindow(win, transientFor, inputXid, chrome))
      modifies this
      ensures Abs() == old(Abs()).Mapped(Event.MapWindow(win, transientFor, inputXid, chrome)) && Abs().Valid()
    {
      hide State.Valid, State.Structure, State.InputsMatch, State.ModeShown, State.OwnersExist,
           State.WithActive, State.LaidOutForActiveMode, State.LaidOutForOverviewMode, State.WithMode, IndexOf;
      Abs().ValidMeans();
      ghost var before, e := Abs(), Event.MapWindow(win, transientFor, inputXid, chrome);
      before.MappedKeeps(e);
      if transientFor in tops {
        transientToToplevel := transientToToplevel[win := transientFor];
        return;
      }
      before.PointersListed();
      before.WithToplevelKeepsStructure(e);
      var at := |toplevels|;
      if mode == ActiveMode && activeToplevel.Some? {
        var oldIndex := GetIndexForToplevelWindow(toplevels, activeToplevel.value);
        assert oldIndex >= 0;
        at := oldIndex + 1;
      }
      assert at == before.NewIndex();
      tops := tops[win := Toplevel(inputXid, chrome, New, Stayed)];
      inputToToplevel := inputToToplevel[inputXid := win];
      toplevels := toplevels[..at] + [win] + toplevels[at..];
      assert Abs() == before.WithToplevel(e);
      Abs().StructureMeans();
      match mode {
        case ActiveMode => SetActiveToplevelWindow(win, InFromRight, OutToLeft);
        case OverviewMode => LayoutToplevelWindowsForOverviewMode();
      }
    }

    /** No pointer to the toplevel is left, and it is out of the vector; index is where it was. */
    method ForgetToplevel(win: XWindow) returns (index: int)
      requires win in tops && win in toplevels && tops[win].inputXid in inputToToplevel
      modifies this
      ensures Abs() == old(Abs()).WithoutToplevel(win)
      ensures index == old(IndexOf(toplevels, win))
    {
      hide IndexOf;
      if magnifiedToplevel == Some(win) {
        SetMagnifiedToplevelWindow(None);
      }
      if activeToplevel == Some(win) {
        activeToplevel := None;
      }
      if toplevelUnderFloatingTab == Some(win) {
        toplevelUnderFloatingTab := None;
      }
      index := GetIndexForToplevelWindow(toplevels, win);
      assert index == IndexOf(toplevels, win);
      assert tops[win].inputXid in inputToToplevel;
      inputToToplevel := inputToToplevel - {tops[win].inputXid};
      toplevels := toplevels[..index] + toplevels[index + 1..];
      tops := tops - {win};
    }

    /** The state stays valid unless the window still owns transients. */
    method HandleWindowUnmap(win: XWindow)
      requires Abs().Valid()
      modifies this
      ensures Abs() == old(Abs()).Unmapped(win)
      ensures Abs().Valid() <==> !old(Abs()).OrphansTransients(Event.UnmapWindow(win))
    {
      hide State.Valid, State.Structure, State.InputsMatch, State.ModeShown, State.OwnersExist, IndexOf,
           State.WithActive, State.LaidOutForActiveMode, State.LaidOutForOverviewMode, State.WithoutToplevel;
      ghost var before := Abs();
      before.ValidMeans();
      before.UnmappedKeepsExactly(win);
      transientToToplevel := transientToToplevel - {win};
      if win !in tops {
        return;
      }
      before.ListedMeaning(win);
      before.NoOwnerOf(win);
      before.InputOf(win);
      before.UnmappedIsSettled(win);
      hide State.Unmapped;
      var index := ForgetToplevel(win);
      Abs().StructureMeans();
      if mode == OverviewMode {
        LayoutToplevelWindowsForOverviewMode();
      } else if activeToplevel.None? && toplevels != [] {
        var newIndex := Around(index + |toplevels| - 1, |toplevels|);
        Abs().ListedMeaning(toplevels[newIndex]);
        SetActiveToplevelWindow(toplevels[newIndex], InFromLeft, OutToRight);
      }
    }

    method HandleButtonPress(xid: XWindow, button: int)
      requires Abs().Valid()
      modifies this
      ensures Abs() == old(Abs()).Pressed(xid, button) && Abs().Valid()
    {
      hide State.Valid, State.Structure, State.InputsMatch, State.ModeShown, State.OwnersExist,
           State.WithActive, State.LaidOutForActiveMode, State.LaidOutForOverviewMode, State.WithMode, IndexOf;
      Abs().ValidMeans();
      Abs().PressedKeeps(xid, button);
      if xid in inputToToplevel && button == 1 {
        if mode != OverviewMode {
          return;
        }
        activeToplevel := Some(inputToToplevel[xid]);
        SetMode(ActiveMode);
      }
    }

    method HandlePointerEnter(xid: XWindow)
      requires Abs().Valid()
      modifies this
      ensures Abs() == old(Abs()).Entered(xid) && Abs().Valid()
    {
      hide State.Valid, State.Structure, State.InputsMatch, State.ModeShown, State.OwnersExist,
           State.WithActive, State.LaidOutForActiveMode, State.LaidOutForOverviewMode, State.WithMode, IndexOf;
      Abs().ValidMeans();
      Abs().EnteredKeeps(xid);
      if xid !in inputToToplevel || mode != OverviewMode {
        return;
      }
      var toplevel := inputToToplevel[xid];
      if magnifiedToplevel != Some(toplevel) {
        SetMagnifiedToplevelWindow(Some(toplevel));
        LayoutToplevelWindowsForOverviewMode();
      }
    }

    /** The message to switch to overview mode. */
    method HandleChromeMessage(win: XWindow)
      requires Abs().Valid()
      modifies this
      ensures Abs() == old(Abs()).SwitchedByMessage(win) && Abs().Valid()
    {
      hide State.Valid, State.Structure, State.InputsMatch, State.ModeShown, State.OwnersExist,
           State.WithActive, State.LaidOutForActiveMode, State.LaidOutForOverviewMode, State.WithMode, IndexOf;
      Abs().ValidMeans();
      Abs().SwitchedByMessageKeeps(win);
      Abs().SwitchedSame(OverviewMode);
      SetMode(OverviewMode);
      if win !in tops {
        return;
      }
      SetMagnifiedToplevelWindow(Some(win));
    }

    /** A request to activate a window, or the owner of a transient. */
    method HandleClientMessage(win: XWindow)
      requires Abs().Valid()
      modifies this
      ensures Abs() == old(Abs()).Requested(win) && Abs().Valid()
    {
      hide State.Valid, State.Structure, State.InputsMatch, State.ModeShown, State.OwnersExist,
           State.WithActive, State.LaidOutForActiveMode, State.LaidOutForOverviewMode, State.WithMode, IndexOf;
      Abs().ValidMeans();
      Abs().RequestedKeeps(win);
      var toplevel: Option<XWindow> := None;
      if win in transientToToplevel {
        toplevel := Some(transientToToplevel[win]);
      } else if win in tops {
        toplevel := Some(win);
      }
      if toplevel.None? {
        return;
      }
      assert toplevel.value in tops;
      if mode == ActiveMode {
        if toplevel != activeToplevel {
          SetActiveToplevelWindow(toplevel.value, InFade, OutFade);
        } else {
          Abs().WithActiveAgain(toplevel.value, InFade, OutFade);
        }
      } else {
        activeToplevel := toplevel;
        SetMode(ActiveMode);
      }
    }

    /** at is the toplevel at the pointer; towardSummary says that the pointer is in the tab summary
        or on the way to it, intoBottom that it is in the bottom area of the screen. */
    method MoveFloatingTab(at: Option<XWindow>, towardSummary: bool, intoBottom: bool)
      requires Abs().Valid() && Abs().IsToplevel(at)
      modifies this
      ensures Abs() == old(Abs()).TabMoved(at, towardSummary, intoBottom) && Abs().Valid()
    {
      hide State.Valid, State.Structure, State.InputsMatch, State.ModeShown, State.OwnersExist,
           State.WithActive, State.LaidOutForActiveMode, State.LaidOutForOverviewMode, State.WithMode, IndexOf;
      Abs().ValidMeans();
      Abs().TabMovedKeeps(at, towardSummary, intoBottom);
      if mode == OverviewMode {
        var toplevel := at;
        if toplevel.None? && magnifiedToplevel.Some? && towardSummary {
          toplevel := magnifiedToplevel;
        }
        if toplevel.Some? && !tops[toplevel.value].chrome {
          toplevel := None;
        }
        if toplevel != toplevelUnderFloatingTab {
          toplevelUnderFloatingTab := toplevel;
          SetMagnifiedToplevelWindow(toplevel);
          LayoutToplevelWindowsForOverviewMode();
        }
      } else if intoBottom {
        SetMode(OverviewMode);
      }
    }
  }
}

/** The transient windows of a toplevel window: the order in which they are stacked, the one that
    gets the focus, and how the X server's stacking order follows. */
module Transients {
  import opened Options
  import opened Sequences
  import opened Stackers

  /** What the source asks of a transient window.  Its modality does not change. */
  datatype Window = Window(xid: XWindow, modal: bool, infoBubble: bool)

  datatype Transient = Transient(win: Window, centered: bool)

  // ----- Which transients there are, their order, and which one to focus

  /** transients holds every transient window, stack their order, top first. */
  datatype Toplevel = Toplevel(transients: map<XWindow, Transient>, stack: seq<XWindow>, focus: Option<XWindow>) {

    predicate Modal(x: XWindow) {
      x in transients && transients[x].win.modal
    }

    ghost function ModalOnes(): set<XWindow> {
      set x | x in transients && transients[x].win.modal
    }

    /** The stack holds every transient once, and nothing else. */
    ghost predicate Lists() {
      && multiset(stack) == multiset(transients.Keys)
      && forall x | x in transients :: transients[x].win.xid == x
    }

    /** All modal transients are above all that are not. */
    ghost predicate ModalOnTop() {
      OnTop(stack, ModalOnes())
    }

    ghost predicate FocusIsRight() {
      && (focus.Some? ==> focus.value in transients)
      && forall x | x in transients :: Modal(x) ==> focus.Some? && Modal(focus.value)
    }

    ghost predicate Valid() {
      Lists() && ModalOnTop() && FocusIsRight()
    }

    // ----- Operations

    /** A new transient goes above the first transient of the stack of which this holds. */
    predicate GoesAbove(w: Window, x: XWindow) {
      w.modal || !Modal(x)
    }

    function AddTarget(w: Window, from: nat): (r: Option<nat>)
      requires from <= |stack|
      ensures r.Some? ==> from <= r.value < |stack| && GoesAbove(w, stack[r.value])
                          && forall k | from <= k < r.value :: !GoesAbove(w, stack[k])
      ensures r.None? ==> forall k | from <= k < |stack| :: !GoesAbove(w, stack[k])
      decreases |stack| - from
    {
      if from == |stack| then None
      else if GoesAbove(w, stack[from]) then Some(from)
      else AddTarget(w, from + 1)
    }

    function StackWith(w: Window): seq<XWindow> {
      var i := AddTarget(w, 0);
      if i.Some? then stack[..i.value] + [w.xid] + stack[i.value..] else stack + [w.xid]
    }

    function Preferred(x: Option<XWindow>): Toplevel {
      match x
      case None => if focus.Some? && !Modal(focus.value) then this.(focus := None) else this
      case Some(t) =>
        if t !in transients || focus == Some(t) then this
        else if focus.None? || !Modal(focus.value) || Modal(t) then this.(focus := Some(t))
        else this
    }

    function Added(w: Window): Toplevel {
      if w.xid in transients then this
      else With(w).Preferred(Some(w.xid))
    }

    /** The first modal transient of the stack, or else the first one. */
    function TransientToFocus(n: nat): (r: Option<XWindow>)
      requires n <= |stack|
      ensures r.Some? ==> r.value in stack
      ensures r.Some? && (exists k | n <= k < |stack| :: Modal(stack[k])) ==> Modal(r.value)
      ensures r.None? ==> stack == []
      decreases |stack| - n
    {
      if stack == [] then None
      else if n == |stack| then Some(stack[0])
      else if Modal(stack[n]) then Some(stack[n])
      else TransientToFocus(n + 1)
    }

    function Removed(x: XWindow): Toplevel {
      if x !in transients then this
      else
        var t := Less(x);
        if focus != Some(x) then t else t.(focus := None).Preferred(t.(focus := None).TransientToFocus(0))
    }

    function Raised(x: XWindow): Toplevel
      requires stack != []
    {
      if x == stack[0] then this else this.(stack := [x] + Without(stack, x))
    }

    /** Taking the focus raises the transient that gets it. */
    function Focused(): Toplevel
      requires Valid()
    {
      if focus.Some? then ListsMeaning(focus.value); Raised(focus.value) else this
    }

    // ----- The invariant

    lemma ListsMeaning(x: XWindow)
      requires Lists()
      ensures x in stack <==> x in transients
    {
      assert x in stack <==> multiset(stack)[x] > 0;
    }

    lemma PreferredKeeps(x: Option<XWindow>)
      requires Valid()
      ensures Preferred(x).Valid()
    {
      PreferredLists(x);
      hide Lists, ModalOnTop;
    }

    /** The record of a new transient, before it is considered for the focus. */
    function With(w: Window): Toplevel {
      this.(transients := transients[w.xid := Transient(w, !w.infoBubble)], stack := StackWith(w))
    }

    lemma WithLists(w: Window)
      requires Lists() && w.xid !in transients
      ensures With(w).Lists()
    {
      StackWithCounts(w);
      hide StackWith;
      CountsWith(transients.Keys, w.xid);
      assert With(w).transients.Keys == transients.Keys + {w.xid};
    }

    lemma StackWithCounts(w: Window)
      ensures multiset(StackWith(w)) == multiset(stack) + multiset{w.xid}
    {
      var i := AddTarget(w, 0);
      var n := if i.Some? then i.value else |stack|;
      InsertCounts(stack, w.xid, n);
      assert StackWith(w) == stack[..n] + [w.xid] + stack[n..];
    }

    lemma WithModalOnTop(w: Window)
      requires Lists() && ModalOnTop() && w.xid !in transients
      ensures With(w).ModalOnTop()
    {
      ListsMeaning(w.xid);
      var m := With(w).ModalOnes();
      assert m == if w.modal then ModalOnes() + {w.xid} else ModalOnes();
      OnTopSame(stack, ModalOnes(), m);
      var i := AddTarget(w, 0);
      var n := if i.Some? then i.value else |stack|;
      assert StackWith(w) == stack[..n] + [w.xid] + stack[n..];
      forall k | 0 <= k < |stack|
        ensures stack[k] in m <==> Modal(stack[k])
      {
        assert stack[k] in stack;
      }
      if stack == [] {
        assert With(w).stack == [w.xid];
      } else {
        InsertOnTop(stack, m, w.xid, n);
      }
    }

    lemma WithFocusIsRight(w: Window)
      requires FocusIsRight() && w.xid !in transients
      ensures With(w).Preferred(Some(w.xid)).FocusIsRight()
    {
      hide StackWith;
    }

    /** Preferring a transient touches only the focus. */
    lemma PreferredLists(x: Option<XWindow>)
      requires Lists() && ModalOnTop()
      ensures Preferred(x).Lists() && Preferred(x).ModalOnTop()
    {
      assert Preferred(x).ModalOnes() == ModalOnes();
      hide OnTop;
    }

    lemma AddedKeeps(w: Window)
      requires Valid()
      ensures Added(w).Valid()
    {
      if w.xid !in transients {
        WithLists(w);
        WithModalOnTop(w);
        WithFocusIsRight(w);
        With(w).PreferredLists(Some(w.xid));
        hide Lists, ModalOnTop, FocusIsRight, With, Preferred;
      }
    }

    /** A new transient goes above all others of its kind, a modal one above all others at all;
        and it is the one to focus unless that would take the focus from a modal one. */
    lemma AddedIsOnTopOfItsKind(w: Window)
      requires Valid() && w.xid !in transients
      ensures var i, after := TopOfKind(w), Added(w);
              && i <= |stack| && after.stack == stack[..i] + [w.xid] + stack[i..]
              && (forall k | 0 <= k < i :: Modal(stack[k]) && !w.modal)
              && (forall k | i <= k < |stack| :: w.modal || !Modal(stack[k]))
              && after.focus == (if focus.Some? && Modal(focus.value) && !w.modal then focus else Some(w.xid))
              && after.transients == transients[w.xid := Transient(w, !w.infoBubble)]
    {
      var i := TopOfKind(w);
      forall k | i <= k < |stack|
        ensures w.modal || !Modal(stack[k])
      {
        if i < k {
          OnTopMeaning(stack, ModalOnes(), i, k);
        }
      }
      hide OnTop;
      assert StackWith(w) == stack[..i] + [w.xid] + stack[i..];
      AddedFocus(w);
    }

    function TopOfKind(w: Window): nat {
      if AddTarget(w, 0).Some? then AddTarget(w, 0).value else |stack|
    }

    lemma AddedFocus(w: Window)
      requires FocusIsRight() && w.xid !in transients
      ensures Added(w).focus == (if focus.Some? && Modal(focus.value) && !w.modal then focus else Some(w.xid))
      ensures Added(w).stack == StackWith(w)
    {
      hide StackWith;
    }

    /** The record after a transient is gone, before another is chosen for the focus. */
    function Less(x: XWindow): Toplevel {
      this.(transients := transients - {x}, stack := Without(stack, x))
    }

    lemma LessLists(x: XWindow)
      requires Lists() && ModalOnTop()
      ensures Less(x).Lists() && Less(x).ModalOnTop()
    {
      WithoutCounts(stack, x);
      CountsLess(transients.Keys, x);
      assert Less(x).transients.Keys == transients.Keys - {x};
      var m := Less(x).ModalOnes();
      assert m == ModalOnes() - {x};
      WithoutOnTop(stack, ModalOnes(), x);
      OnTopSame(Without(stack, x), ModalOnes(), m);
      hide OnTop, ModalOnes, Without;
    }

    /** The choice of a transient to focus: the topmost modal one, or else the topmost one. */
    ghost predicate IsTopChoice(r: Option<XWindow>) {
      match r
      case None => stack == []
      case Some(x) =>
        || (exists i | 0 <= i < |stack| :: stack[i] == x && Modal(x) && forall k | 0 <= k < i :: !Modal(stack[k]))
        || (stack != [] && stack[0] == x && forall k | 0 <= k < |stack| :: !Modal(stack[k]))
    }

    lemma {:induction false} TopIsChosen(n: nat)
      requires n <= |stack| && forall k | 0 <= k < n :: !Modal(stack[k])
      ensures IsTopChoice(TransientToFocus(n))
      decreases |stack| - n
    {
      if n < |stack| && !Modal(stack[n]) {
        TopIsChosen(n + 1);
      }
    }

    /** A transient that goes takes nothing else along.  If it had the focus, or was to get it, the
        topmost of those left is chosen, a modal one first; otherwise the choice stays. */
    lemma RemovedChooses(x: XWindow)
      requires Valid() && x in transients
      ensures var t := Removed(x);
              && t.stack == Without(stack, x) && t.transients == transients - {x}
              && (if focus == Some(x) then t.IsTopChoice(t.focus) else t.focus == focus)
    {
      hide IsTopChoice, TransientToFocus, Lists, ModalOnTop, FocusIsRight, Without;
      RemovedShape(x);
      if focus == Some(x) {
        hide Less, Removed;
        LessLists(x);
        Less(x).UnfocusedToo();
        var u := Less(x).(focus := None);
        RemovedIs(x);
        u.TopIsChosen(0);
        u.TransientToFocusMeaning();
        u.ChoiceIsPreferred(u.TransientToFocus(0));
      }
    }

    lemma ChoiceIsPreferred(r: Option<XWindow>)
      requires focus.None? && (r.Some? ==> r.value in transients) && IsTopChoice(r)
      ensures Preferred(r).focus == r && Preferred(r).IsTopChoice(r)
    {
    }

    /** The transient that is chosen is modal if there is a modal one. */
    lemma TransientToFocusMeaning()
      requires Lists()
      ensures var r := TransientToFocus(0);
              && (r.None? <==> transients == map[])
              && (r.Some? ==> r.value in transients)
              && forall x | x in transients :: Modal(x) ==> r.Some? && Modal(r.value)
    {
      var r := TransientToFocus(0);
      if r.Some? {
        ListsMeaning(r.value);
      }
      forall x | x in transients
        ensures r.Some? && (Modal(x) ==> Modal(r.value))
      {
        ListsMeaning(x);
        var k :| 0 <= k < |stack| && stack[k] == x;
      }
    }

    lemma RemovedKeeps(x: XWindow)
      requires Valid()
      ensures Removed(x).Valid()
    {
      if x in transients {
        LessLists(x);
        if focus == Some(x) {
          Less(x).UnfocusedToo();
          hide *;
          Less(x).(focus := None).RefocusedIsValid();
          RemovedIs(x);
        } else {
          LessFocusIsRight(x);
          hide Lists, ModalOnTop, FocusIsRight, Less;
        }
      }
    }

    lemma RemovedIs(x: XWindow)
      requires x in transients && focus == Some(x)
      ensures var t := Less(x).(focus := None); Removed(x) == t.Preferred(t.TransientToFocus(0))
    {
    }

    lemma UnfocusedToo()
      requires Lists() && ModalOnTop()
      ensures this.(focus := None).Lists() && this.(focus := None).ModalOnTop()
    {
      assert this.(focus := None).ModalOnes() == ModalOnes();
    }

    lemma LessFocusIsRight(x: XWindow)
      requires FocusIsRight() && focus != Some(x)
      ensures Less(x).FocusIsRight()
    {
      hide Without;
    }

    /** With nothing to focus, choosing a transient to focus makes the record valid. */
    lemma RefocusedIsValid()
      requires Lists() && ModalOnTop() && focus.None?
      ensures Preferred(TransientToFocus(0)).Valid()
    {
      TransientToFocusMeaning();
      var u := Preferred(TransientToFocus(0));
      assert u.stack == stack && u.transients == transients;
      assert u.ModalOnes() == ModalOnes();
      hide TransientToFocus, OnTop;
    }

    lemma FocusedKeeps()
      requires Valid()
      ensures Focused().Valid()
      ensures focus.Some? ==> Focused().stack != [] && Focused().stack[0] == focus.value
    {
      if focus.Some? {
        var x := focus.value;
        ListsMeaning(x);
        if x != stack[0] {
          var t := Raised(x);
          WithoutCounts(stack, x);
          assert multiset(transients.Keys)[x] == 1;
          assert multiset(t.stack) == multiset(stack);
          assert t.ModalOnes() == ModalOnes();
          WithoutOnTop(stack, ModalOnes(), x);
          assert t.stack[1..] == Without(stack, x);
          if !Modal(x) {
            assert ModalOnes() == {};
          }
        }
      }
    }

    /** Without x, the top of the stack is the same, and it is there only once. */
    lemma WithoutTop(x: XWindow)
      requires Lists() && stack != [] && x != stack[0]
      ensures var rest := Without(stack, x);
              rest != [] && rest[0] == stack[0] && OnlyAt(rest, 0)
    {
      var rest := Without(stack, x);
      assert rest[0] == stack[0];
      WithoutCounts(stack, x);
      hide Without;
      forall j | 0 <= j < |rest| && rest[j] == rest[0]
        ensures j == 0
      {
        CountsTwice(rest, 0, j);
      }
    }

    lemma RemovedShape(x: XWindow)
      ensures Removed(x).stack == if x in transients then Without(stack, x) else stack
      ensures Removed(x).transients == if x in transients then transients - {x} else transients
    {
    }

    lemma ListsDistinct(i: nat, j: nat)
      requires Lists() && i < |stack| && j < |stack| && stack[i] == stack[j]
      ensures i == j
    {
      CountsTwice(stack, i, j);
    }

    // ----- Who gets the focus

    /** Pressing a button in the toplevel or one of its transients. */
    function Clicked(x: XWindow): Toplevel {
      Preferred(if x in transients then Some(x) else None)
    }

    /** A click focuses the window it is on; but if there is a modal transient, then a modal one:
        the one it is on, or else the one that had the focus. */
    lemma ClickFocuses(x: XWindow)
      requires Valid()
      ensures Clicked(x).Valid()
      ensures var after := Clicked(x).Focused();
              && after.Valid()
              && after.focus == (if (exists y | y in transients :: Modal(y)) && !Modal(x) then focus
                                 else if x in transients then Some(x) else None)
              && (after.focus.Some? ==> after.stack != [] && after.stack[0] == after.focus.value)
              && ((exists y | y in transients :: Modal(y)) ==> after.focus.Some? && Modal(after.focus.value))
    {
      PreferredKeeps(if x in transients then Some(x) else None);
      Clicked(x).FocusedKeeps();
      hide Lists, ModalOnTop, Without;
    }
  }

  // ----- The stacking order of the X server

  /** The toplevel, its own X window, the sentinel window just above the layer in which transients
      are stacked in active mode, and the server's order of all windows, top first. */
  datatype Stage = Stage(top: Toplevel, win: XWindow, layer: XWindow, z: seq<XWindow>) {

    ghost predicate Valid() {
      && top.Valid()
      && win in z && layer in z && win != layer
      && win !in top.transients && layer !in top.transients
      && forall x | x in top.transients :: x in z
    }

    /** The server stacks the transients in the order that is asked for. */
    ghost predicate Agrees() {
      Restrict(z, top.stack) == top.stack
    }

    /** A window that may become a transient. */
    predicate Mapped(x: XWindow) {
      x in z && x != win && x != layer
    }

    /** Stacking x above another window, or on top of the layer. */
    function Placed(x: XWindow, other: Option<XWindow>): seq<XWindow>
      requires x != layer && layer in z
      requires other.Some? ==> other.value in z && other.value != x
    {
      if other.Some? then MovedAbove(z, x, other.value) else MovedBelow(z, x, layer)
    }

    function OtherForAdded(w: Window, direct: bool): Option<XWindow> {
      var i := top.AddTarget(w, 0);
      if i.Some? then Some(top.stack[i.value]) else if direct then Some(win) else None
    }

    function Added(w: Window, direct: bool): Stage
      requires Valid() && Mapped(w.xid)
    {
      if w.xid in top.transients then this
      else
        OtherForAddedIsMapped(w, direct);
        this.(top := top.Added(w), z := Placed(w.xid, OtherForAdded(w, direct)))
    }

    function Removed(x: XWindow): Stage {
      this.(top := top.Removed(x))
    }

    function Preferred(x: Option<XWindow>): Stage {
      this.(top := top.Preferred(x))
    }

    function Focused(): Stage
      requires Valid()
    {
      if top.focus.None? then this
      else
        top.ListsMeaning(top.focus.value);
        if top.focus.value == top.stack[0] then this
        else
          top.ListsMeaning(top.stack[0]);
          this.(top := top.Focused(), z := Placed(top.focus.value, Some(top.stack[0])))
    }

    lemma PlacedKeeps(x: XWindow, other: Option<XWindow>)
      requires Valid() && x in z && x != layer
      requires other.Some? ==> other.value in z && other.value != x
      ensures this.(z := Placed(x, other)).Valid()
      ensures forall y :: y in Placed(x, other) <==> y in z
    {
      forall y
        ensures y in Placed(x, other) <==> y in z
      {
        MovedHas(z, x, if other.Some? then other.value else layer, y);
      }
      hide MovedAbove, MovedBelow, Toplevel.Valid;
    }

    /** What the n-th transient from the bottom is restacked above. */
    function OtherForBottom(direct: bool, n: nat): Option<XWindow>
      requires 0 < n <= |top.stack|
    {
      if n > 1 then Some(top.stack[|top.stack| - n + 1]) else if direct then Some(win) else None
    }

    lemma OtherForBottomIsMapped(direct: bool, n: nat)
      requires Valid() && 0 < n <= |top.stack|
      ensures var x, other := top.stack[|top.stack| - n], OtherForBottom(direct, n);
              && x in top.transients && x in z && x != layer && x != win
              && (other.Some? ==> other.value in z && other.value != x)
    {
      var i := |top.stack| - n;
      top.ListsMeaning(top.stack[i]);
      if n > 1 {
        top.ListsMeaning(top.stack[i + 1]);
        if top.stack[i] == top.stack[i + 1] {
          top.ListsDistinct(i, i + 1);
        }
      }
    }

    /** Restacking the n-th transient from the bottom. */
    function RestackedOne(direct: bool, n: nat): (r: Stage)
      requires Valid() && 0 < n <= |top.stack|
      ensures r == this.(z := r.z) && r.Valid()
    {
      OtherForBottomIsMapped(direct, n);
      PlacedKeeps(top.stack[|top.stack| - n], OtherForBottom(direct, n));
      this.(z := Placed(top.stack[|top.stack| - n], OtherForBottom(direct, n)))
    }

    /** After the n bottom transients have been restacked, each above the one before it. */
    function RestackedBottom(direct: bool, n: nat): (r: Stage)
      requires Valid() && n <= |top.stack|
      ensures r == this.(z := r.z) && r.Valid()
    {
      hide Valid;
      if n == 0 then this else RestackedBottom(direct, n - 1).RestackedOne(direct, n)
    }

    function Restacked(direct: bool): Stage
      requires Valid()
    {
      RestackedBottom(direct, |top.stack|)
    }

    lemma OtherForAddedIsMapped(w: Window, direct: bool)
      requires Valid() && Mapped(w.xid) && w.xid !in top.transients
      ensures var other := OtherForAdded(w, direct); other.Some? ==> other.value in z && other.value != w.xid
    {
      var i := top.AddTarget(w, 0);
      if i.Some? {
        top.ListsMeaning(top.stack[i.value]);
      }
    }

    // ----- What restacking all transients does

    function Anchor(direct: bool): XWindow {
      if direct then win else layer
    }

    function AboveAnchor(direct: bool): seq<XWindow>
      requires Anchor(direct) in z
    {
      z[..IndexOf(z, Anchor(direct))]
    }

    function BelowAnchor(direct: bool): seq<XWindow>
      requires Anchor(direct) in z
    {
      z[IndexOf(z, Anchor(direct)) + 1..]
    }

    /** What is above and below a block of windows that is directly above the toplevel's window,
        or else directly below the sentinel of the layer. */
    function AboveBlock(direct: bool, block: seq<XWindow>): seq<XWindow>
      requires Anchor(direct) in z
    {
      Minus(AboveAnchor(direct), block) + if direct then [] else [layer]
    }

    function BelowBlock(direct: bool, block: seq<XWindow>): seq<XWindow>
      requires Anchor(direct) in z
    {
      (if direct then [win] else []) + Minus(BelowAnchor(direct), block)
    }

    function WithBlock(direct: bool, block: seq<XWindow>): seq<XWindow>
      requires Anchor(direct) in z
    {
      AboveBlock(direct, block) + block + BelowBlock(direct, block)
    }

    lemma NoBlock(direct: bool)
      requires Anchor(direct) in z
      ensures WithBlock(direct, []) == z
    {
      hide AboveAnchor, BelowAnchor, WithBlock, Minus;
      AnchorSplit(direct);
      NoBlockIs(direct);
      hide Anchor;
      var a, c, anchor := AboveAnchor(direct), BelowAnchor(direct), Anchor(direct);
      if direct {
        assert a + [] + [] + ([anchor] + c) == a + [anchor] + c;
      } else {
        assert a + [anchor] + [] + ([] + c) == a + [anchor] + c;
      }
    }

    lemma NoBlockIs(direct: bool)
      requires Anchor(direct) in z
      ensures WithBlock(direct, [])
           == AboveAnchor(direct) + (if direct then [] else [Anchor(direct)]) + []
              + ((if direct then [Anchor(direct)] else []) + BelowAnchor(direct))
    {
      hide AboveAnchor, BelowAnchor;
    }

    lemma BlockStarts(direct: bool, x: XWindow)
      requires win in z && layer in z && x != win && x != layer
      ensures Placed(x, if direct then Some(win) else None) == WithBlock(direct, [x])
    {
      hide Without, MovedAbove, MovedBelow, Minus, IndexOf;
      AnchorSplit(direct);
      StartBlock(AboveAnchor(direct), Anchor(direct), BelowAnchor(direct), x);
      MinusOne(AboveAnchor(direct), x);
      MinusOne(BelowAnchor(direct), x);
      hide AboveAnchor, BelowAnchor;
    }

    lemma BlockGrows(direct: bool, block: seq<XWindow>, x: XWindow)
      requires Anchor(direct) in z && block != []
      requires x !in block && x != win && x != layer && win !in block && layer !in block
      ensures block[0] in WithBlock(direct, block)
      ensures MovedAbove(WithBlock(direct, block), x, block[0]) == WithBlock(direct, [x] + block)
    {
      var a, c := AboveBlock(direct, block), BelowBlock(direct, block);
      MinusHas(AboveAnchor(direct), block, block[0]);
      GrowBlock(a, block, c, x);
      assert ([x] + block)[1..] == block;
      var none: seq<XWindow> := [];
      WithoutConcat(Minus(AboveAnchor(direct), block), if direct then none else [layer], x);
      WithoutConcat(if direct then [win] else none, Minus(BelowAnchor(direct), block), x);
      WithoutAbsent(if direct then none else [layer], x);
      WithoutAbsent(if direct then [win] else none, x);
    }

    lemma RestackedNextIs(direct: bool, n: nat)
      requires Valid() && 0 < n <= |top.stack|
      ensures var x, other, before := top.stack[|top.stack| - n], OtherForBottom(direct, n), RestackedBottom(direct, n - 1);
              && layer in before.z && x != layer && (other.Some? ==> other.value in before.z && other.value != x)
              && RestackedBottom(direct, n) == before.(z := before.Placed(x, other))
    {
      hide Valid, Toplevel.Valid, Placed;
      var before := RestackedBottom(direct, n - 1);
      before.OtherForBottomIsMapped(direct, n);
      before.AnchorIsMapped(direct);
    }

    lemma OtherForBottomIs(direct: bool, n: nat)
      requires 0 < n <= |top.stack|
      ensures OtherForBottom(direct, n)
           == if n > 1 then Some(top.stack[|top.stack| - n + 1]) else if direct then Some(win) else None
    {
    }

    lemma PlacedAbove(x: XWindow, other: XWindow)
      requires x != layer && layer in z && other in z && other != x
      ensures Placed(x, Some(other)) == MovedAbove(z, x, other)
    {
    }

    lemma BlockOfTransients(j: nat)
      requires Valid() && 0 < j < |top.stack|
      ensures top.stack[j - 1] !in top.stack[j..]
      ensures win !in top.stack[j..] && layer !in top.stack[j..]
    {
      var block := top.stack[j..];
      forall x | x in block
        ensures x in top.transients && x != top.stack[j - 1]
      {
        var k :| 0 <= k < |block| && block[k] == x;
        assert top.stack[j + k] == x;
        top.ListsMeaning(x);
        if x == top.stack[j - 1] {
          top.ListsDistinct(j - 1, j + k);
        }
      }
    }

    lemma {:induction false} RestackedBottomIs(direct: bool, n: nat)
      requires Valid() && n <= |top.stack|
      ensures RestackedBottom(direct, n).z == WithBlock(direct, top.stack[|top.stack| - n..])
    {
      hide *;
      AnchorIsMapped(direct);
      var i := |top.stack| - n;
      if n == 0 {
        NoBlock(direct);
        NoneRestacked(direct);
        assert top.stack[i..] == [];
      } else {
        RestackedBottomIs(direct, n - 1);
        RestackedNextIs(direct, n);
        NoneRestacked(direct);
        OtherForBottomIsMapped(direct, n);
        OtherForBottomIs(direct, n);
        var x := top.stack[i];
        if n == 1 {
          BlockStarts(direct, x);
          assert top.stack[i..] == [x];
        } else {
          OneMoreInBlock(direct, n);
        }
      }
    }

    lemma OneMoreInBlock(direct: bool, n: nat)
      requires Valid() && 1 < n <= |top.stack|
      requires RestackedBottom(direct, n - 1).z == WithBlock(direct, top.stack[|top.stack| - n + 1..])
      ensures RestackedBottom(direct, n).z == WithBlock(direct, top.stack[|top.stack| - n..])
    {
      hide *;
      AnchorIsMapped(direct);
      var i := |top.stack| - n;
      RestackedNextIs(direct, n);
      OtherForBottomIsMapped(direct, n);
      OtherForBottomIs(direct, n);
      RestackedBottom(direct, n - 1).PlacedAbove(top.stack[i], top.stack[i + 1]);
      var x, block := top.stack[i], top.stack[i + 1..];
      assert top.stack[i..] == [x] + block;
      BlockOfTransients(i + 1);
      BlockGrows(direct, block, x);
    }

    lemma AnchorIsMapped(direct: bool)
      requires Valid()
      ensures Anchor(direct) in z && win in z && layer in z && Anchor(direct) !in top.transients
    {
      hide Toplevel.Valid;
    }

    lemma NoneRestacked(direct: bool)
      requires Valid()
      ensures RestackedBottom(direct, 0) == this
    {
      hide Toplevel.Valid;
    }

    /** Restacking brings the transients, in the order asked for, directly above their toplevel or
        to the top of the layer, and leaves the order of all other windows as it was. */
    lemma RestackAllAgrees(direct: bool)
      requires Valid()
      ensures var after := Restacked(direct);
              && after.Valid() && after.top == top && after.Agrees()
              && Minus(after.z, top.stack) == Minus(z, top.stack)
              && after.z == WithBlock(direct, top.stack)
    {
      hide *;
      AnchorIsMapped(direct);
      AroundBlock(direct);
      var block := top.stack;
      RestackedBottomIs(direct, |block|);
      assert block[0..] == block;
      WithBlockIs(direct, block);
      BlockParts(AboveBlock(direct, block), block, BelowBlock(direct, block));
      SplitAt(z, Anchor(direct));
      MinusSplit(AboveAnchor(direct), Anchor(direct), BelowAnchor(direct), block);
      AnchorSplit(direct);
      RestackedKeeps(direct);
    }

    lemma AnchorSplit(direct: bool)
      requires Anchor(direct) in z
      ensures Anchor(direct) !in AboveAnchor(direct)
      ensures z == AboveAnchor(direct) + [Anchor(direct)] + BelowAnchor(direct)
    {
    }

    lemma AroundBlock(direct: bool)
      requires Valid()
      ensures Anchor(direct) in z && Anchor(direct) !in top.stack
      ensures forall x | x in top.stack :: x !in AboveBlock(direct, top.stack) && x !in BelowBlock(direct, top.stack)
    {
      forall x
        ensures x in top.stack <==> x in top.transients
      {
        top.ListsMeaning(x);
      }
      hide Toplevel.Valid, Minus, IndexOf;
      forall x | x in top.stack
        ensures x !in AboveBlock(direct, top.stack) && x !in BelowBlock(direct, top.stack)
      {
        MinusHas(AboveAnchor(direct), top.stack, x);
        MinusHas(BelowAnchor(direct), top.stack, x);
      }
    }

    lemma WithBlockIs(direct: bool, block: seq<XWindow>)
      requires Anchor(direct) in z
      ensures WithBlock(direct, block) == AboveBlock(direct, block) + block + BelowBlock(direct, block)
      ensures AboveBlock(direct, block) + BelowBlock(direct, block)
           == Minus(AboveAnchor(direct), block) + [Anchor(direct)] + Minus(BelowAnchor(direct), block)
    {
    }

    lemma RestackedKeeps(direct: bool)
      requires Valid()
      ensures var after := Restacked(direct);
              && after == RestackedBottom(direct, |top.stack|)
              && after.Valid() && after.top == top
              && (Restrict(after.z, top.stack) == top.stack ==> after.Agrees())
    {
      hide Valid;
    }

    // ----- What a single operation does

    /** A new transient takes its place in the server's order exactly if there is a transient that
        it goes above, or no transient is below the place where it is put. */
    lemma AddedAgreesExactly(w: Window, direct: bool)
      requires Valid() && Mapped(w.xid) && w.xid !in top.transients && Agrees()
      ensures Added(w, direct).Agrees()
              <==> || top.AddTarget(w, 0).Some?
                   || forall x | x in top.transients :: x !in BelowAnchor(direct)
    {
      hide *;
      var i := top.AddTarget(w, 0);
      AddedIs(w, direct);
      if i.Some? {
        AddedAboveAgrees(w, i.value);
      } else {
        AddedBelowAllAgrees(w, direct);
      }
    }

    lemma AddedIs(w: Window, direct: bool)
      requires Valid() && Mapped(w.xid) && w.xid !in top.transients
      ensures var i, after := top.AddTarget(w, 0), Added(w, direct);
              && Anchor(direct) in z
              && (after.Agrees() <==> Restrict(after.z, after.top.stack) == after.top.stack)
              && (i.Some? ==>
                    && i.value < |top.stack| && top.stack[i.value] in z && top.stack[i.value] != w.xid
                    && after.z == MovedAbove(z, w.xid, top.stack[i.value])
                    && after.top.stack == top.stack[..i.value] + [w.xid] + top.stack[i.value..])
              && (i.None? ==>
                    && win in z && layer in z && w.xid != win && w.xid != layer
                    && after.z == (if direct then MovedAbove(z, w.xid, win) else MovedBelow(z, w.xid, layer))
                    && after.top.stack == top.stack + [w.xid])
    {
      OtherForAddedIsMapped(w, direct);
      hide Toplevel.Valid, MovedAbove, MovedBelow, Restrict;
    }

    /** Without the new window, the server's order restricted to the transients is the same. */
    lemma AgreesWithout(x: XWindow)
      requires Valid() && Agrees() && x !in top.transients
      ensures x !in Without(z, x) && x !in top.stack
      ensures Restrict(Without(z, x), top.stack) == top.stack
    {
      top.ListsMeaning(x);
      hide Toplevel.Valid;
      WithoutHas(z, x, x);
      RestrictWithout(z, top.stack, x);
      WithoutAbsent(top.stack, x);
    }

    lemma AddedAboveAgrees(w: Window, i: nat)
      requires Valid() && Agrees() && w.xid !in top.transients
      requires i < |top.stack| && top.stack[i] in z && top.stack[i] != w.xid
      ensures var t := top.stack[..i] + [w.xid] + top.stack[i..];
              Restrict(MovedAbove(z, w.xid, top.stack[i]), t) == t
    {
      AgreesWithout(w.xid);
      MovedAboveIs(z, w.xid, top.stack[i]);
      forall j | 0 <= j < |top.stack| && top.stack[j] == top.stack[i]
        ensures j == i
      {
        top.ListsDistinct(i, j);
      }
      assert OnlyAt(top.stack, i);
      hide *;
      InsertAgrees(Without(z, w.xid), top.stack, w.xid, i);
    }

    /** What is above and below a window that is placed at the anchor. */
    function AboveSlot(direct: bool, x: XWindow): seq<XWindow>
      requires Anchor(direct) in z
    {
      Without(AboveAnchor(direct), x) + if direct then [] else [layer]
    }

    function BelowSlot(direct: bool, x: XWindow): seq<XWindow>
      requires Anchor(direct) in z
    {
      (if direct then [win] else []) + Without(BelowAnchor(direct), x)
    }

    lemma PlacedInSlot(direct: bool, x: XWindow)
      requires win in z && layer in z && Anchor(direct) in z && x != win && x != layer
      ensures AboveSlot(direct, x) + BelowSlot(direct, x) == Without(z, x)
      ensures (if direct then MovedAbove(z, x, win) else MovedBelow(z, x, layer))
           == AboveSlot(direct, x) + [x] + BelowSlot(direct, x)
    {
      hide *;
      AnchorIs(direct);
      AnchorSplit(direct);
      SlotIs(direct, x);
      StartBlock(AboveAnchor(direct), Anchor(direct), BelowAnchor(direct), x);
      WithoutSplit(AboveAnchor(direct), [Anchor(direct)], BelowAnchor(direct), x);
    }

    lemma AnchorIs(direct: bool)
      ensures Anchor(direct) == if direct then win else layer
    {
    }

    lemma SlotIs(direct: bool, x: XWindow)
      requires Anchor(direct) in z
      ensures var a, c := Without(AboveAnchor(direct), x), Without(BelowAnchor(direct), x);
              && AboveSlot(direct, x) + BelowSlot(direct, x) == a + [Anchor(direct)] + c
              && AboveSlot(direct, x) + [x] + BelowSlot(direct, x)
                 == if direct then a + [x] + ([win] + c) else (a + [layer]) + [x] + c
    {
      hide Without, AboveAnchor, BelowAnchor;
    }

    lemma SlotHasNot(direct: bool, x: XWindow)
      requires Anchor(direct) in z && x != win && x != layer
      ensures x !in AboveSlot(direct, x) && x !in BelowSlot(direct, x)
    {
      hide Without;
      WithoutHas(AboveAnchor(direct), x, x);
      WithoutHas(BelowAnchor(direct), x, x);
      hide AboveAnchor, BelowAnchor;
    }

    lemma TransientsBelowSlot(direct: bool, x: XWindow)
      requires Valid() && Anchor(direct) in z && x !in top.transients
      ensures (forall y | y in BelowSlot(direct, x) :: y !in top.stack)
              <==> forall y | y in top.transients :: y !in BelowAnchor(direct)
    {
      forall y
        ensures y in BelowSlot(direct, x) && y in top.stack <==> y in BelowAnchor(direct) && y in top.transients
      {
        WithoutHas(BelowAnchor(direct), x, y);
        top.ListsMeaning(y);
        hide Toplevel.Valid, Without, IndexOf;
      }
    }

    lemma AddedBelowAllAgrees(w: Window, direct: bool)
      requires Valid() && Agrees() && w.xid !in top.transients && w.xid != win && w.xid != layer
      requires win in z && layer in z && Anchor(direct) in z
      ensures var placed, t := if direct then MovedAbove(z, w.xid, win) else MovedBelow(z, w.xid, layer), top.stack + [w.xid];
              Restrict(placed, t) == t <==> forall x | x in top.transients :: x !in BelowAnchor(direct)
    {
      hide *;
      AgreesWithout(w.xid);
      PlacedInSlot(direct, w.xid);
      SlotHasNot(direct, w.xid);
      TransientsBelowSlot(direct, w.xid);
      InsertAtBottomAgrees(AboveSlot(direct, w.xid), w.xid, BelowSlot(direct, w.xid), top.stack);
    }

    lemma RemovedAgrees(x: XWindow)
      requires Valid() && Agrees()
      ensures Removed(x).Valid() && Removed(x).Agrees()
    {
      top.RemovedKeeps(x);
      hide Toplevel.Valid, Without, Restrict;
      top.RemovedShape(x);
      RestrictLess(z, top.stack, x);
      hide Toplevel.Removed;
    }

    /** Taking the focus puts the transient that gets it on top in both orders. */
    lemma FocusedAgrees()
      requires Valid() && Agrees()
      ensures Focused().Valid() && Focused().Agrees()
    {
      FocusedKeeps();
      hide Toplevel.Valid, Without, Restrict, MovedAbove;
      if top.focus.Some? {
        top.ListsMeaning(top.focus.value);
        if top.focus.value != top.stack[0] {
          RaisedAgrees(top.focus.value);
        }
      }
    }

    lemma RaisedAgrees(x: XWindow)
      requires Valid() && Agrees() && top.stack != [] && x != top.stack[0]
      ensures top.stack[0] in z
      ensures var t := [x] + Without(top.stack, x); Restrict(MovedAbove(z, x, top.stack[0]), t) == t
    {
      hide *;
      var s, m := top.stack, top.stack[0];
      TopIsMapped();
      var rest, w := Without(s, x), Without(z, x);
      top.WithoutTop(x);
      WithoutHas(z, x, x);
      WithoutHas(s, x, x);
      AgreesIs();
      RestrictLess(w, s, x);
      RestrictWithout(z, s, x);
      WithoutAbsent(rest, x);
      MovedAboveIs(z, x, m);
      InsertAgrees(w, rest, x, 0);
      assert rest[..0] + [x] + rest[0..] == [x] + rest;
    }

    lemma AgreesIs()
      ensures Agrees() <==> Restrict(z, top.stack) == top.stack
    {
    }

    lemma TopIsMapped()
      requires Valid() && top.stack != []
      ensures top.stack[0] in z && top.Lists()
    {
      top.ListsMeaning(top.stack[0]);
      hide Toplevel.Lists, Toplevel.FocusIsRight, Toplevel.ModalOnTop;
    }

    lemma FocusedKeeps()
      requires Valid()
      ensures Focused().Valid()
    {
      top.FocusedKeeps();
      if top.focus.Some? {
        top.ListsMeaning(top.focus.value);
        top.ListsMeaning(top.stack[0]);
        if top.focus.value != top.stack[0] {
          PlacedKeeps(top.focus.value, Some(top.stack[0]));
        }
      }
    }

    lemma AddedFacts(w: Window, direct: bool)
      requires Valid() && Mapped(w.xid) && w.xid !in top.transients
      ensures Added(w, direct).Valid() && top.Lists() && w.xid !in top.stack
      ensures w.xid != layer && layer in z
      ensures var other := OtherForAdded(w, direct); other.Some? ==> other.value in z && other.value != w.xid
    {
      AddedKeeps(w, direct);
      OtherForAddedIsMapped(w, direct);
      top.ListsMeaning(w.xid);
      hide Added;
    }

    lemma AddedIsPlaced(w: Window, direct: bool)
      requires Valid() && Mapped(w.xid) && w.xid !in top.transients
      ensures var i, t := top.TopOfKind(w), Added(w, direct).top;
              && t.transients == top.transients[w.xid := Transient(w, !w.infoBubble)]
              && i <= |top.stack| && t.stack == top.stack[..i] + [w.xid] + top.stack[i..]
    {
      top.AddedIsOnTopOfItsKind(w);
      hide Toplevel.Valid, Toplevel.Added, Placed;
    }

    lemma AddedKeeps(w: Window, direct: bool)
      requires Valid() && Mapped(w.xid)
      ensures Added(w, direct).Valid()
    {
      top.AddedKeeps(w);
      if w.xid !in top.transients {
        OtherForAddedIsMapped(w, direct);
        PlacedKeeps(w.xid, OtherForAdded(w, direct));
        hide Toplevel.Valid, Placed;
      }
    }

    /** In active mode, with all transients in the layer, a new transient that goes to the bottom
        takes its place only if it is the first one: it is put on top of the others. */
    lemma AddedInActiveMode(w: Window)
      requires Valid() && Mapped(w.xid) && w.xid !in top.transients && Agrees()
      requires forall x | x in top.transients :: x in BelowAnchor(false)
      ensures Added(w, false).Agrees() <==> top.AddTarget(w, 0).Some? || top.transients == map[]
    {
      AddedAgreesExactly(w, false);
      hide *;
    }

    // ----- Where an operation puts a window

    /** A new transient is directly above the one that it goes above, or else directly above the
        toplevel or at the top of the layer. */
    lemma AddedIsNext(w: Window, direct: bool)
      requires Valid() && Mapped(w.xid) && w.xid !in top.transients
      ensures var i, after := top.AddTarget(w, 0), Added(w, direct).z;
              && (i.Some? ==> i.value < |top.stack| && Contiguous(after, [w.xid, top.stack[i.value]]))
              && (i.None? && direct ==> Contiguous(after, [w.xid, win]))
              && (i.None? && !direct ==> Contiguous(after, [layer, w.xid]))
    {
      hide *;
      AddedIs(w, direct);
      var i := top.AddTarget(w, 0);
      if i.Some? {
        MovedIsNext(z, w.xid, top.stack[i.value]);
      } else {
        MovedIsNext(z, w.xid, win);
        MovedIsNext(z, w.xid, layer);
      }
    }

    /** The transient that takes the focus is directly above the former top. */
    lemma FocusedIsNext()
      requires Valid() && top.focus.Some? && top.stack != [] && top.focus.value != top.stack[0]
      ensures Contiguous(Focused().z, [top.focus.value, top.stack[0]])
      ensures Focused().top.stack == [top.focus.value] + Without(top.stack, top.focus.value)
    {
      top.ListsMeaning(top.focus.value);
      top.ListsMeaning(top.stack[0]);
      hide Toplevel.Lists, Toplevel.ModalOnTop, MovedAbove, Without, Contiguous;
      MovedIsNext(z, top.focus.value, top.stack[0]);
    }

    /** Restacking brings all transients in their order directly above the toplevel, or to the top
        of the layer. */
    lemma RestackedIsNext(direct: bool)
      requires Valid()
      ensures direct ==> Contiguous(Restacked(direct).z, top.stack + [win])
      ensures !direct ==> Contiguous(Restacked(direct).z, [layer] + top.stack)
    {
      hide Valid, Toplevel.Valid, Restacked, Minus, AboveAnchor, BelowAnchor, Contiguous;
      RestackAllAgrees(direct);
      AnchorIsMapped(direct);
      var block := top.stack;
      var a, c := Minus(AboveAnchor(direct), block), Minus(BelowAnchor(direct), block);
      if direct {
        ContiguousIs(a, block + [win], c);
        assert WithBlock(true, block) == a + (block + [win]) + c;
      } else {
        ContiguousIs(a, [layer] + block, c);
        assert WithBlock(false, block) == a + ([layer] + block) + c;
      }
    }

    // ----- What an operation leaves alone

    lemma PlacedKeepsOthers(x: XWindow, other: Option<XWindow>, keep: seq<XWindow>)
      requires x != layer && layer in z && x !in keep
      requires other.Some? ==> other.value in z && other.value != x
      ensures Restrict(Placed(x, other), keep) == Restrict(z, keep)
    {
      hide MovedAbove, MovedBelow, Restrict;
      MovedKeepsOthers(z, x, if other.Some? then other.value else layer, keep);
    }

    lemma AddedKeepsOthers(w: Window, direct: bool, keep: seq<XWindow>)
      requires Valid() && Mapped(w.xid) && w.xid !in keep
      ensures Restrict(Added(w, direct).z, keep) == Restrict(z, keep)
    {
      if w.xid !in top.transients {
        OtherForAddedIsMapped(w, direct);
        hide Toplevel.Valid, Placed, Restrict;
        PlacedKeepsOthers(w.xid, OtherForAdded(w, direct), keep);
      }
    }

    lemma FocusedKeepsOthers(keep: seq<XWindow>)
      requires Valid() && forall x | x in keep :: x !in top.transients
      ensures Restrict(Focused().z, keep) == Restrict(z, keep)
    {
      if top.focus.Some? {
        top.ListsMeaning(top.focus.value);
        top.ListsMeaning(top.stack[0]);
        hide Toplevel.Lists, Toplevel.ModalOnTop, Placed, Restrict;
        if top.focus.value != top.stack[0] {
          PlacedKeepsOthers(top.focus.value, Some(top.stack[0]), keep);
        }
      }
    }

    lemma RestackedKeepsOthers(direct: bool, keep: seq<XWindow>)
      requires Valid() && forall x | x in keep :: x !in top.transients
      ensures Restrict(Restacked(direct).z, keep) == Restrict(z, keep)
    {
      RestackAllAgrees(direct);
      forall x | x in top.stack
        ensures x !in keep
      {
        top.ListsMeaning(x);
      }
      hide Valid, Restacked, WithBlock, Minus, Restrict;
      RestrictMinus(z, keep, top.stack);
      RestrictMinus(Restacked(direct).z, keep, top.stack);
    }

    /** An operation keeps the order of all windows that are not this toplevel's transients, and
        adds no other transient than it says. */
    lemma StepKeepsOthers(c: Call, keep: seq<XWindow>)
      requires Valid() && CallMapped(c)
      requires forall x | x in keep :: x !in top.transients && (c.AddTransient? ==> x != c.w.xid)
      ensures Restrict(Step(c).z, keep) == Restrict(z, keep)
    {
      hide Valid, Added, Focused, Restacked, Restrict;
      match c
      case AddTransient(w, direct) => AddedKeepsOthers(w, direct, keep);
      case RemoveTransient(x) =>
      case Prefer(x) =>
      case TakeFocus => FocusedKeepsOthers(keep);
      case RestackAll(direct) => RestackedKeepsOthers(direct, keep);
    }

    lemma StepTransients(c: Call)
      requires Valid() && CallMapped(c)
      ensures Step(c).top.transients.Keys <= top.transients.Keys + if c.AddTransient? then {c.w.xid} else {}
    {
      hide Valid, Placed;
      match c
      case AddTransient(w, direct) =>
      case RemoveTransient(x) => top.RemovedShape(x);
      case Prefer(x) =>
      case TakeFocus => hide Without;
      case RestackAll(direct) =>
    }

    // ----- Runs

    /** A call whose window, if any, exists and is neither the toplevel's nor the sentinel. */
    predicate CallMapped(c: Call) {
      c.AddTransient? ==> Mapped(c.w.xid)
    }

    function Step(c: Call): Stage
      requires Valid() && CallMapped(c)
    {
      match c
      case AddTransient(w, direct) => Added(w, direct)
      case RemoveTransient(x) => Removed(x)
      case Prefer(x) => Preferred(x)
      case TakeFocus => Focused()
      case RestackAll(direct) => Restacked(direct)
    }

    ghost predicate SameWindows(other: Stage) {
      && other.win == win && other.layer == layer
      && forall x :: x in other.z <==> x in z
    }

    /** Every operation keeps the record valid, and no operation adds or loses a window. */
    lemma StepKeeps(c: Call)
      requires Valid() && CallMapped(c)
      ensures Step(c).Valid() && SameWindows(Step(c))
    {
      hide Valid, Toplevel.Valid, SameWindows;
      match c
      case AddTransient(w, direct) =>
        AddedKeeps(w, direct);
        AddedSameWindows(w, direct);
      case RemoveTransient(x) =>
        RemovedStays(x);
      case Prefer(x) =>
        PreferredStays(x);
      case TakeFocus =>
        FocusedKeeps();
        FocusedSameWindows();
      case RestackAll(direct) =>
        RestackedBottomSameWindows(direct, |top.stack|);
        RestackedKeeps(direct);
    }

    lemma AddedSameWindows(w: Window, direct: bool)
      requires Valid() && Mapped(w.xid)
      ensures SameWindows(Added(w, direct))
    {
      if w.xid !in top.transients {
        OtherForAddedIsMapped(w, direct);
        PlacedKeeps(w.xid, OtherForAdded(w, direct));
        hide Toplevel.Valid, Placed;
      }
    }

    lemma RemovedStays(x: XWindow)
      requires Valid()
      ensures Removed(x).Valid() && SameWindows(Removed(x))
    {
      top.RemovedKeeps(x);
      hide Toplevel.Valid, Toplevel.Removed;
      top.RemovedShape(x);
    }

    lemma RemovedSteps(x: XWindow)
      ensures x !in top.transients ==> Removed(x) == this
      ensures x in top.transients ==>
                var t := Toplevel(top.transients - {x}, Without(top.stack, x), top.focus);
                if top.focus != Some(x) then Removed(x) == this.(top := t)
                else Removed(x) == this.(top := t.(focus := None)).Preferred(t.(focus := None).TransientToFocus(0))
    {
      hide Toplevel.Preferred, Toplevel.TransientToFocus, Without;
    }

    lemma RemovedLeaves(x: XWindow)
      requires Valid()
      ensures var t := Removed(x);
              && t.z == z && t.top.transients == top.transients - {x} && t.top.stack == Without(top.stack, x)
              && if top.focus == Some(x) then t.top.IsTopChoice(t.top.focus) else t.top.focus == top.focus
    {
      if x in top.transients {
        top.RemovedChooses(x);
        hide Toplevel.Valid, Toplevel.Removed, Toplevel.IsTopChoice;
      } else {
        top.ListsMeaning(x);
        WithoutAbsent(top.stack, x);
        hide Toplevel.Lists, Toplevel.ModalOnTop, Toplevel.IsTopChoice;
      }
    }

    lemma PreferredStays(x: Option<XWindow>)
      requires Valid()
      ensures Preferred(x).Valid() && SameWindows(Preferred(x))
    {
      top.PreferredKeeps(x);
      hide Toplevel.Valid;
    }

    lemma FocusedSameWindows()
      requires Valid()
      ensures SameWindows(Focused())
    {
      if top.focus.Some? {
        top.ListsMeaning(top.focus.value);
        top.ListsMeaning(top.stack[0]);
        if top.focus.value != top.stack[0] {
          PlacedKeeps(top.focus.value, Some(top.stack[0]));
          hide Toplevel.Valid, Placed;
        }
      }
    }

    lemma RestackedOneSameWindows(direct: bool, n: nat)
      requires Valid() && 0 < n <= |top.stack|
      ensures SameWindows(RestackedOne(direct, n))
    {
      hide Valid, Placed;
      OtherForBottomIsMapped(direct, n);
      PlacedKeeps(top.stack[|top.stack| - n], OtherForBottom(direct, n));
    }

    lemma {:induction false} RestackedBottomSameWindows(direct: bool, n: nat)
      requires Valid() && n <= |top.stack|
      ensures SameWindows(RestackedBottom(direct, n))
    {
      hide Valid, RestackedOne;
      if n > 0 {
        RestackedBottomSameWindows(direct, n - 1);
        RestackedBottom(direct, n - 1).RestackedOneSameWindows(direct, n);
      }
    }

    /** A new transient that goes below all others while one of them is below its place. */
    ghost predicate Misplaces(c: Call)
      requires Valid()
    {
      && c.AddTransient? && c.w.xid !in top.transients && top.AddTarget(c.w, 0).None?
      && exists x | x in top.transients :: x in BelowAnchor(c.direct)
    }

    /** Every operation but a misplaced addition keeps the server's order in agreement with the
        order asked for, and restacking all transients brings it about. */
    lemma StepAgreesExactly(c: Call)
      requires Valid() && CallMapped(c) && (c.RestackAll? || Agrees())
      ensures Step(c).Agrees() <==> !Misplaces(c)
    {
      hide Valid, Agrees;
      match c
      case AddTransient(w, direct) =>
        if w.xid !in top.transients {
          AddedAgreesExactly(w, direct);
          AnchorIsMapped(direct);
        }
      case RemoveTransient(x) =>
        RemovedAgrees(x);
      case Prefer(x) =>
        PreferredAgrees(x);
      case TakeFocus =>
        FocusedAgrees();
      case RestackAll(direct) =>
        RestackAllAgrees(direct);
    }

    lemma PreferredAgrees(x: Option<XWindow>)
      requires Agrees()
      ensures Preferred(x).Agrees()
    {
    }

    predicate CallsMapped(calls: seq<Call>) {
      forall i | 0 <= i < |calls| :: CallMapped(calls[i])
    }

    lemma StillMapped(c: Call, calls: seq<Call>)
      requires Valid() && CallMapped(c) && CallsMapped(calls)
      ensures Step(c).CallsMapped(calls)
    {
      StepKeeps(c);
      hide Valid, Step;
    }

    function Run(calls: seq<Call>): Stage
      requires Valid() && CallsMapped(calls)
      decreases |calls|
    {
      if calls == [] then this
      else
        StepKeeps(calls[0]);
        StillMapped(calls[0], calls[1..]);
        Step(calls[0]).Run(calls[1..])
    }

    /** A run is its calls one after the other. */
    lemma {:induction false} RunSnoc(calls: seq<Call>, c: Call)
      requires Valid() && CallsMapped(calls + [c])
      ensures CallsMapped(calls) && Run(calls).Valid() && Run(calls).CallMapped(c)
      ensures Run(calls + [c]) == Run(calls).Step(c)
      decreases |calls|
    {
      hide Valid, Step, CallMapped;
      var all := calls + [c];
      assert forall i | 0 <= i < |calls| :: all[i] == calls[i];
      assert all[|calls|] == c;
      if calls == [] {
        assert all[1..] == [];
        StepKeeps(c);
      } else {
        StepKeeps(calls[0]);
        StillMapped(calls[0], all[1..]);
        assert all[1..] == calls[1..] + [c];
        Step(calls[0]).RunSnoc(calls[1..], c);
        StillMapped(calls[0], calls[1..]);
      }
    }

    ghost predicate Places(calls: seq<Call>)
      requires Valid() && CallsMapped(calls)
      decreases |calls|
    {
      calls == [] || (
        !Misplaces(calls[0]) && (
          StepKeeps(calls[0]);
          StillMapped(calls[0], calls[1..]);
          Step(calls[0]).Places(calls[1..])))
    }

    /** Over every run, the stack lists each transient once, modal transients above the others, and
        the window to focus is a modal one whenever there is one; and the server's order agrees
        as long as no transient is misplaced. */
    lemma {:induction false} RunKeeps(calls: seq<Call>)
      requires Valid() && CallsMapped(calls)
      ensures Run(calls).Valid()
      ensures Agrees() && Places(calls) ==> Run(calls).Agrees()
      decreases |calls|
    {
      hide Valid, Step, Agrees, Misplaces;
      if calls != [] {
        StepKeeps(calls[0]);
        StillMapped(calls[0], calls[1..]);
        if Agrees() {
          StepAgreesExactly(calls[0]);
        }
        Step(calls[0]).RunKeeps(calls[1..]);
      }
    }
  }

  datatype Call =
    | AddTransient(w: Window, direct: bool)
    | RemoveTransient(x: XWindow)
    | Prefer(choice: Option<XWindow>)
    | TakeFocus
    | RestackAll(direct: bool)

  // ----- The class

  class ToplevelWindow {
    const win: XWindow
    const layer: XWindow
    var transients: map<XWindow, Transient>
    var stackedTransients: seq<XWindow>
    var transientToFocus: Option<XWindow>
    /** The X server's side: its stacking order, top first, and the window it gave the focus to. */
    var stackedXids: seq<XWindow>
    var focusedXid: Option<XWindow>

    ghost function Abs(): Stage
      reads this
    {
      Stage(Toplevel(transients, stackedTransients, transientToFocus), win, layer, stackedXids)
    }

    constructor (win: XWindow, layer: XWindow, stackedXids: seq<XWindow>)
      requires win in stackedXids && layer in stackedXids && win != layer
      ensures Abs() == Stage(Toplevel(map[], [], None), win, layer, stackedXids) && Abs().Valid() && Abs().Agrees()
    {
      this.win, this.layer, this.stackedXids := win, layer, stackedXids;
      transients, stackedTransients, transientToFocus, focusedXid := map[], [], None, None;
      new;
      NoneKept(stackedXids);
    }

    predicate IsModal(x: XWindow)
      reads this
    {
      x in transients && transients[x].win.modal
    }

    method SetPreferredTransientWindowToFocus(transientWin: Option<XWindow>)
      modifies this`transientToFocus
      ensures Abs() == old(Abs()).Preferred(transientWin)
      ensures transientWin.Some? && transientWin.value in transients ==>
                var lost := old(transientToFocus).Some? && IsModal(old(transientToFocus.value)) && !IsModal(transientWin.value);
                transientToFocus == if lost then old(transientToFocus) else transientWin
      ensures transientWin.None? && transientToFocus != old(transientToFocus) ==>
                transientToFocus.None? && !IsModal(old(transientToFocus.value))
      ensures transientWin.None? && transientToFocus.Some? ==> IsModal(transientToFocus.value)
      ensures transientWin.Some? && transientWin.value !in transients ==> transientToFocus == old(transientToFocus)
    {
      if transientWin.None? {
        if transientToFocus.Some? && !IsModal(transientToFocus.value) {
          transientToFocus := None;
        }
        return;
      }
      var transient := transientWin.value;
      if transient !in transients || transientToFocus == Some(transient) {
        return;
      }
      if transientToFocus.None? || !IsModal(transientToFocus.value) || IsModal(transient) {
        transientToFocus := Some(transient);
      }
    }

    method ApplyStackingForTransientWindow(transient: XWindow, other: Option<XWindow>)
      requires layer in stackedXids && transient != layer
      requires other.Some? ==> other.value in stackedXids && other.value != transient
      modifies this`stackedXids
      ensures stackedXids == old(Abs().Placed(transient, other))
    {
      if other.Some? {
        stackedXids := MovedAbove(stackedXids, transient, other.value);
      } else {
        stackedXids := MovedBelow(stackedXids, transient, layer);
      }
    }

    /** The first transient that a new one goes above. */
    method FindTransientToStackAbove(transientWin: Window) returns (toStackAbove: Option<XWindow>)
      ensures var i := Abs().top.AddTarget(transientWin, 0);
              toStackAbove == if i.Some? then Some(stackedTransients[i.value]) else None
    {
      for i := 0 to |stackedTransients|
        invariant Abs().top.AddTarget(transientWin, 0) == Abs().top.AddTarget(transientWin, i)
      {
        if transientWin.modal || !IsModal(stackedTransients[i]) {
          return Some(stackedTransients[i]);
        }
      }
      toStackAbove := None;
    }

    method AddTransientWindow(transientWin: Window, stackDirectlyAboveToplevel: bool)
      requires Abs().Valid() && Abs().Mapped(transientWin.xid)
      modifies this
      ensures Abs() == old(Abs()).Added(transientWin, stackDirectlyAboveToplevel) && Abs().Valid()
      ensures transientWin.xid in old(transients) ==> Abs() == old(Abs())
      ensures transientWin.xid !in old(transients) ==>
                var xid, i, before := transientWin.xid, old(Abs()).top.TopOfKind(transientWin), old(stackedTransients);
                && transients == old(transients)[xid := Transient(transientWin, !transientWin.infoBubble)]
                && i <= |before| && stackedTransients == before[..i] + [xid] + before[i..]
    {
      hide Stage.Valid, Toplevel.Valid, Toplevel.StackWith, MovedAbove, MovedBelow, AddAbove, AddOnBottom;
      ghost var before := Abs();
      var xid := transientWin.xid;
      if xid in transients {
        return;
      }
      before.AddedFacts(transientWin, stackDirectlyAboveToplevel);
      before.AddedIsPlaced(transientWin, stackDirectlyAboveToplevel);
      var toStackAbove := FindTransientToStackAbove(transientWin);
      AddAboveFirst(before.top, transientWin);
      transients := transients[xid := Transient(transientWin, !transientWin.infoBubble)];
      if toStackAbove.Some? {
        stackedTransients := AddAbove(stackedTransients, xid, toStackAbove.value);
      } else {
        stackedTransients := AddOnBottom(stackedTransients, xid);
      }
      SetPreferredTransientWindowToFocus(Some(xid));
      ApplyStackingForTransientWindow(
        xid, if toStackAbove.Some? then toStackAbove else if stackDirectlyAboveToplevel then Some(win) else None);
    }

    method FindTransientWindowToFocus() returns (transient: Option<XWindow>)
      ensures transient == Abs().top.TransientToFocus(0)
    {
      if stackedTransients == [] {
        return None;
      }
      var i := 0;
      while i < |stackedTransients|
        invariant i <= |stackedTransients|
        invariant Abs().top.TransientToFocus(0) == Abs().top.TransientToFocus(i)
      {
        if IsModal(stackedTransients[i]) {
          return Some(stackedTransients[i]);
        }
        i := i + 1;
      }
      transient := Some(stackedTransients[0]);
    }

    method RemoveTransientWindow(transientWin: XWindow)
      requires Abs().Valid()
      modifies this
      ensures Abs() == old(Abs()).Removed(transientWin) && Abs().Valid()
      ensures transients == old(transients) - {transientWin} && stackedXids == old(stackedXids)
      ensures stackedTransients == Without(old(stackedTransients), transientWin)
      ensures if old(transientToFocus) == Some(transientWin) then Abs().top.IsTopChoice(transientToFocus)
              else transientToFocus == old(transientToFocus)
    {
      hide Stage.Valid, Stage.Removed, Stage.Preferred, Toplevel.TransientToFocus, Toplevel.IsTopChoice, Toplevel.Modal, Without;
      Abs().RemovedLeaves(transientWin);
      Abs().RemovedSteps(transientWin);
      Abs().RemovedStays(transientWin);
      if transientWin !in transients {
        return;
      }
      stackedTransients := Without(stackedTransients, transientWin);
      assert transientWin in transients;
      transients := transients - {transientWin};
      if transientToFocus == Some(transientWin) {
        transientToFocus := None;
        var newTransient := FindTransientWindowToFocus();
        SetPreferredTransientWindowToFocus(newTransient);
      }
    }

    /** The two assertions are the source's DCHECKs. */
    method RestackTransientWindowOnTop(transient: XWindow)
      requires Abs().Valid() && transient in transients && stackedTransients != []
      modifies this
      ensures transient == old(stackedTransients[0]) ==> Abs() == old(Abs())
      ensures transient != old(stackedTransients[0]) ==>
                && old(stackedTransients[0]) in old(stackedXids) && transient != layer
                && Abs() == old(Abs()).(top := old(Abs()).top.Raised(transient),
                                        z := old(Abs()).Placed(transient, Some(old(stackedTransients[0]))))
    {
      if transient == stackedTransients[0] {
        return;
      }
      ghost var before := Abs();
      before.top.ListsMeaning(transient);
      before.top.ListsMeaning(stackedTransients[0]);
      assert transient in stackedTransients;
      assert |stackedTransients| > 1;
      var transientToStackAbove := stackedTransients[0];
      WithoutHas(stackedTransients, transient, transient);
      hide Toplevel.Valid, MovedAbove, Without;
      stackedTransients := Without(stackedTransients, transient);
      stackedTransients := AddOnTop(stackedTransients, transient);
      ApplyStackingForTransientWindow(transient, Some(transientToStackAbove));
    }

    /** The focus goes to the preferred transient, which is raised, or else to the toplevel. */
    method TakeFocus()
      requires Abs().Valid()
      modifies this
      ensures Abs() == old(Abs()).Focused() && Abs().Valid()
      ensures focusedXid == Some(if old(transientToFocus).Some? then old(transientToFocus).value else win)
    {
      Abs().FocusedKeeps();
      if transientToFocus.Some? {
        Abs().top.ListsMeaning(transientToFocus.value);
        hide Toplevel.Valid, MovedAbove, Without;
        RestackTransientWindowOnTop(transientToFocus.value);
        focusedXid := transientToFocus;
      } else {
        focusedXid := Some(win);
      }
    }

    method HandleButtonPress(buttonWin: XWindow)
      requires Abs().Valid()
      modifies this
      ensures Abs().Valid()
      ensures var clicked := old(Abs()).(top := old(Abs()).top.Clicked(buttonWin));
              && clicked.Valid() && Abs() == clicked.Focused()
              && focusedXid == Some(if clicked.top.focus.Some? then clicked.top.focus.value else win)
    {
      Abs().PreferredStays(if buttonWin in transients then Some(buttonWin) else None);
      SetPreferredTransientWindowToFocus(if buttonWin in transients then Some(buttonWin) else None);
      TakeFocus();
    }

    method ApplyStackingForAllTransientWindows(stackDirectlyAboveToplevel: bool)
      requires Abs().Valid()
      modifies this`stackedXids
      ensures Abs() == old(Abs()).Restacked(stackDirectlyAboveToplevel)
      ensures Abs().Valid() && Abs().Agrees()
    {
      hide Stage.Valid, Stage.Placed, Stage.RestackedOne, Stage.RestackedBottom, Stage.Agrees, Stage.Restacked;
      ghost var before := Abs();
      ghost var direct := stackDirectlyAboveToplevel;
      before.NoneRestacked(direct);
      var prevWin := if stackDirectlyAboveToplevel then Some(win) else None;
      var n := 0;
      while n < |stackedTransients|
        invariant n <= |stackedTransients| == |before.top.stack|
        invariant Abs() == before.RestackedBottom(direct, n)
        invariant n < |stackedTransients| ==> prevWin == before.OtherForBottom(direct, n + 1)
      {
        var transient := stackedTransients[|stackedTransients| - 1 - n];
        before.RestackedNextIs(direct, n + 1);
        ApplyStackingForTransientWindow(transient, prevWin);
        prevWin := Some(transient);
        n := n + 1;
      }
      before.RestackAllAgrees(direct);
      before.RestackedKeeps(direct);
    }
  }

  lemma NoneKept(z: seq<XWindow>)
    ensures Restrict(z, []) == []
  {
    RestrictEmpty(z, []);
  }

  /** Adding above the first suitable transient, or else on the bottom, is what StackWith says. */
  lemma AddAboveFirst(t: Toplevel, w: Window)
    requires t.Lists() && w.xid !in t.stack
    ensures var i := t.AddTarget(w, 0);
            t.StackWith(w) == if i.Some? then AddAbove(t.stack, w.xid, t.stack[i.value]) else AddOnBottom(t.stack, w.xid)
  {
    var i := t.AddTarget(w, 0);
    if i.Some? {
      t.ListsDistinct(i.value, IndexOf(t.stack, t.stack[i.value]));
    }
  }
}

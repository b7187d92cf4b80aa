/** update_engine's pipeline: a queue of actions that are performed one after the other, each of
    which completes at once or later, and the update attempt that is built from it. */
module ActionProcessors {
  import opened Options
  import opened Sequences

  /** An action object is named by a number. */
  type Action = nat

  /** What the world decides: whether an action completes before PerformAction returns, whether it
      succeeds, and whether a response handler found that there is no update. */
  datatype World = World(atOnce: Action -> bool, succeeds: Action -> bool, noUpdate: Action -> bool)

  datatype Event =
    | Performed(action: Action)
    | Reported(action: Action, success: bool)
    | Done(success: bool)
    | Stopped

  // ----- What is expected of a queue

  /** The events of a queue: its actions in order up to the first that fails, each reported once,
      and then one Done.  Nothing at all happens for an empty queue. */
  function Expected(w: World, queue: seq<Action>): seq<Event> {
    if queue == [] then []
    else
      var a := queue[0];
      [Performed(a), Reported(a, w.succeeds(a))]
      + if w.succeeds(a) && |queue| > 1 then Expected(w, queue[1..]) else [Done(w.succeeds(a))]
  }

  ghost predicate AllSucceed(w: World, queue: seq<Action>) {
    forall i | 0 <= i < |queue| :: w.succeeds(queue[i])
  }

  /** How many actions of a queue are performed. */
  function Count(w: World, queue: seq<Action>): (n: nat)
    ensures n <= |queue|
    ensures forall i | 0 <= i < n - 1 :: w.succeeds(queue[i])
    ensures n < |queue| ==> n > 0 && !w.succeeds(queue[n - 1])
  {
    if queue == [] then 0
    else if w.succeeds(queue[0]) then 1 + Count(w, queue[1..])
    else 1
  }

  lemma {:induction false} ExpectedMeaning(w: World, queue: seq<Action>)
    requires queue != []
    ensures var n, events := Count(w, queue), Expected(w, queue);
            && n > 0 && |events| == 2 * n + 1
            && (forall i | 0 <= i < n :: events[2 * i] == Performed(queue[i])
                                         && events[2 * i + 1] == Reported(queue[i], w.succeeds(queue[i])))
            && (events[2 * n].Done? && (events[2 * n].success <==> AllSucceed(w, queue)))
  {
    hide Expected, Count, AllSucceed;
    ExpectedDone(w, queue);
    forall i | 0 <= i < Count(w, queue)
      ensures Expected(w, queue)[2 * i] == Performed(queue[i])
              && Expected(w, queue)[2 * i + 1] == Reported(queue[i], w.succeeds(queue[i]))
    {
      ExpectedItem(w, queue, i);
    }
  }

  lemma {:induction false} ExpectedDone(w: World, queue: seq<Action>)
    requires queue != []
    ensures var n, events := Count(w, queue), Expected(w, queue);
            && n > 0 && |events| == 2 * n + 1
            && events[|events| - 1].Done? && (events[|events| - 1].success <==> AllSucceed(w, queue))
  {
    hide *;
    if w.succeeds(queue[0]) && |queue| > 1 {
      ExpectedFirst(w, queue);
      AllSucceedStep(w, queue);
      ExpectedDone(w, queue[1..]);
    } else {
      ExpectedLast(w, queue);
    }
  }

  lemma ExpectedLast(w: World, queue: seq<Action>)
    requires queue != [] && (|queue| == 1 || !w.succeeds(queue[0]))
    ensures Count(w, queue) == 1
    ensures Expected(w, queue) == [Performed(queue[0]), Reported(queue[0], w.succeeds(queue[0])), Done(w.succeeds(queue[0]))]
    ensures AllSucceed(w, queue) <==> w.succeeds(queue[0])
  {
  }

  lemma ExpectedFirst(w: World, queue: seq<Action>)
    requires |queue| > 1 && w.succeeds(queue[0])
    ensures Expected(w, queue) == [Performed(queue[0]), Reported(queue[0], true)] + Expected(w, queue[1..])
    ensures Count(w, queue) == 1 + Count(w, queue[1..])
  {
  }

  lemma AllSucceedStep(w: World, queue: seq<Action>)
    requires queue != []
    ensures AllSucceed(w, queue) <==> w.succeeds(queue[0]) && AllSucceed(w, queue[1..])
  {
    assert forall i | 0 < i < |queue| :: queue[i] == queue[1..][i - 1];
  }

  lemma ExpectedStart(w: World, queue: seq<Action>)
    requires queue != []
    ensures |Expected(w, queue)| >= 2
    ensures Expected(w, queue)[0] == Performed(queue[0]) && Expected(w, queue)[1] == Reported(queue[0], w.succeeds(queue[0]))
  {
  }

  lemma {:induction false} ExpectedItem(w: World, queue: seq<Action>, i: nat)
    requires i < Count(w, queue)
    ensures 2 * i + 1 < |Expected(w, queue)|
    ensures Expected(w, queue)[2 * i] == Performed(queue[i])
    ensures Expected(w, queue)[2 * i + 1] == Reported(queue[i], w.succeeds(queue[i]))
  {
    hide Expected, Count;
    if i > 0 {
      ExpectedFirst(w, queue);
      ExpectedItem(w, queue[1..], i - 1);
      var rest := Expected(w, queue[1..]);
      assert Expected(w, queue)[2 * i] == rest[2 * i - 2] && Expected(w, queue)[2 * i + 1] == rest[2 * i - 1];
    } else {
      ExpectedStart(w, queue);
    }
  }

  // ----- The processor

  /** attached has the actions whose processor pointer is set, dropped those of them that were
      cleared from the queue when another action failed. */
  datatype Processor = Processor(queue: seq<Action>, current: Option<Action>, attached: set<Action>,
                                 dropped: set<Action>, log: seq<Event>) {

    predicate IsRunning() {
      current.Some?
    }

    /** The delegate has just been told that processing is done. */
    predicate JustDone() {
      log != [] && log[|log| - 1].Done?
    }

    function DoneSuccess(): bool
      requires JustDone()
    {
      log[|log| - 1].success
    }

    ghost function Waiting(): set<Action> {
      Elements(queue)
    }

    ghost function Running(): set<Action> {
      if current.Some? then {current.value} else {}
    }

    ghost predicate Distinct() {
      forall i, j | 0 <= i < j < |queue| :: queue[i] != queue[j]
    }

    /** Every waiting or running action points back to the processor, and so does every action
        that was dropped, but no other. */
    ghost predicate Valid() {
      && Distinct()
      && attached == Waiting() + Running() + dropped
      && Waiting() !! Running() && Waiting() !! dropped && Running() !! dropped
    }

    function Enqueued(a: Action): Processor {
      this.(queue := queue + [a], attached := attached + {a})
    }

    function EnqueuedAll(actions: seq<Action>): Processor
      decreases |actions|
    {
      if actions == [] then this else EnqueuedAll(actions[..|actions| - 1]).Enqueued(actions[|actions| - 1])
    }

    function Started(w: World): (r: Processor)
      requires !IsRunning()
      ensures queue != [] && !r.IsRunning() ==> r.JustDone()
    {
      if queue == [] then this
      else this.(current := Some(queue[0]), queue := queue[1..]).Begun(w)
    }

    /** The current action is performed. */
    function Begun(w: World): (r: Processor)
      requires IsRunning()
      ensures r.IsRunning() ==> |r.queue| <= |queue|
      ensures !r.IsRunning() ==> r.JustDone()
      decreases |queue|, 1
    {
      var p := this.(log := log + [Performed(current.value)]);
      if w.atOnce(current.value) then p.Completed(w, w.succeeds(current.value)) else p
    }

    /** The current action completes. */
    function Completed(w: World, success: bool): (r: Processor)
      requires IsRunning()
      ensures r.IsRunning() ==> |r.queue| < |queue|
      ensures !r.IsRunning() ==> r.JustDone()
      decreases |queue|, 0
    {
      var a := current.value;
      var p := this.(log := log + [Reported(a, success)], attached := attached - {a}, current := None);
      if queue == [] || !success then
        p.(queue := [], dropped := dropped + Elements(queue), log := p.log + [Done(success)])
      else
        p.(current := Some(queue[0]), queue := queue[1..]).Begun(w)
    }

    function AfterStop(): Processor
      requires IsRunning()
    {
      this.(attached := attached - {current.value}, current := None, log := log + [Stopped])
    }

    /** The destructor. */
    function Destroyed(): Processor {
      var p := if IsRunning() then AfterStop() else this;
      p.(attached := p.attached - Elements(p.queue))
    }

    // ----- Pointers

    lemma NextIsValid(p: Processor)
      requires Valid() && !IsRunning() && queue != []
      requires p == this.(current := Some(queue[0]), queue := queue[1..])
      ensures p.Valid()
    {
      assert queue == [queue[0]] + queue[1..];
      assert Waiting() == p.Waiting() + {queue[0]};
      assert queue[0] !in p.Waiting() by {
        assert forall i | 0 < i < |queue| :: queue[i] != queue[0];
      }
    }

    lemma {:induction false} BegunKeeps(w: World)
      requires Valid() && IsRunning()
      ensures Begun(w).Valid()
      decreases |queue|, 1
    {
      var p := this.(log := log + [Performed(current.value)]);
      assert p.Valid();
      if w.atOnce(current.value) {
        p.CompletedKeeps(w, w.succeeds(current.value));
      }
    }

    lemma {:induction false} CompletedKeeps(w: World, success: bool)
      requires Valid() && IsRunning()
      ensures Completed(w, success).Valid()
      ensures !success ==> Completed(w, success).dropped == dropped + Waiting()
      decreases |queue|, 0
    {
      var a := current.value;
      var p := this.(log := log + [Reported(a, success)], attached := attached - {a}, current := None);
      if queue == [] || !success {
        var q := Completed(w, success);
        assert q.attached == q.dropped;
      } else {
        assert p.Valid();
        var next := p.(current := Some(queue[0]), queue := queue[1..]);
        p.NextIsValid(next);
        next.BegunKeeps(w);
      }
    }

    /** Between two actions. */
    lemma RestIsValid(w: World, success: bool, p: Processor)
      requires Valid() && IsRunning() && queue != [] && success
      requires p == this.(log := log + [Reported(current.value, success)], attached := attached - {current.value}, current := None)
      ensures p.(current := Some(queue[0]), queue := queue[1..]).Valid()
      ensures Completed(w, success) == p.(current := Some(queue[0]), queue := queue[1..]).Begun(w)
    {
      assert p.Valid();
      p.NextIsValid(p.(current := Some(queue[0]), queue := queue[1..]));
    }

    lemma StartedKeeps(w: World)
      requires Valid() && !IsRunning()
      ensures Started(w).Valid()
    {
      if queue != [] {
        var next := this.(current := Some(queue[0]), queue := queue[1..]);
        NextIsValid(next);
        next.BegunKeeps(w);
      }
    }

    lemma EnqueuedKeeps(a: Action)
      requires Valid() && a !in attached
      ensures Enqueued(a).Valid()
    {
      assert Enqueued(a).Waiting() == Waiting() + {a};
    }

    lemma {:induction false} BegunKeepsDropped(w: World)
      requires IsRunning()
      ensures dropped <= Begun(w).dropped
      decreases |queue|, 1
    {
      if w.atOnce(current.value) {
        this.(log := log + [Performed(current.value)]).CompletedKeepsDropped(w, w.succeeds(current.value));
      }
    }

    lemma {:induction false} CompletedKeepsDropped(w: World, success: bool)
      requires IsRunning()
      ensures dropped <= Completed(w, success).dropped
      ensures !success ==> Elements(queue) <= Completed(w, success).dropped
      decreases |queue|, 0
    {
      if queue != [] && success {
        Rest(success).BegunKeepsDropped(w);
      }
    }

    /** What a processor can be called to do, and when its CHECKs allow it. */
    predicate Allows(c: Call) {
      match c
      case Enqueue(a) => a !in attached
      case Start(_) => !IsRunning()
      case Complete(_, _) => IsRunning()
      case Stop => IsRunning()
    }

    function Step(c: Call): Processor
      requires Allows(c)
    {
      match c
      case Enqueue(a) => Enqueued(a)
      case Start(w) => Started(w)
      case Complete(w, success) => Completed(w, success)
      case Stop => AfterStop()
    }

    lemma StepKeeps(c: Call)
      requires Valid() && Allows(c)
      ensures Step(c).Valid() && dropped <= Step(c).dropped
    {
      match c
      case Enqueue(a) => EnqueuedKeeps(a);
      case Start(w) =>
        StartedKeeps(w);
        if queue != [] {
          this.(current := Some(queue[0]), queue := queue[1..]).BegunKeepsDropped(w);
        }
      case Complete(w, success) =>
        CompletedKeeps(w, success);
        CompletedKeepsDropped(w, success);
      case Stop =>
    }

    predicate AllowsAll(calls: seq<Call>)
      decreases |calls|
    {
      calls == [] || (Allows(calls[0]) && Step(calls[0]).AllowsAll(calls[1..]))
    }

    function Run(calls: seq<Call>): Processor
      requires AllowsAll(calls)
      decreases |calls|
    {
      if calls == [] then this else Step(calls[0]).Run(calls[1..])
    }

    lemma {:induction false} RunKeeps(calls: seq<Call>)
      requires Valid() && AllowsAll(calls)
      ensures Run(calls).Valid() && dropped <= Run(calls).dropped
      decreases |calls|
    {
      hide Valid, Step;
      if calls != [] {
        StepKeeps(calls[0]);
        Step(calls[0]).RunKeeps(calls[1..]);
      }
    }

    /** An action that waited behind a failing one is never performed and can never be queued
        again, whatever the processor is called to do afterwards: its processor pointer stays set,
        which EnqueueAction checks. */
    lemma DroppedStayAttached(w: World, a: Action, calls: seq<Call>)
      requires Valid() && IsRunning() && a in queue && Completed(w, false).AllowsAll(calls)
      ensures var p := Completed(w, false).Run(calls);
              a in p.attached && !p.Allows(Enqueue(a)) && a !in p.queue && p.current != Some(a)
    {
      CompletedKeeps(w, false);
      CompletedKeepsDropped(w, false);
      var failed := Completed(w, false);
      assert a in Elements(queue);
      hide Completed;
      failed.RunKeeps(calls);
      var p := failed.Run(calls);
      assert a in p.dropped && (a in p.queue <==> a in p.Waiting());
    }

    /** Stopping lets go of the current action alone: it can be queued again, and the actions that
        waited are performed as expected when the processor is started again. */
    lemma StoppedGoesOn(w: World)
      requires Valid() && IsRunning()
      ensures var p := AfterStop();
              && !p.IsRunning() && p.Valid() && p.log == log + [Stopped]
              && p.attached == attached - {current.value} && p.Allows(Enqueue(current.value))
              && p.Started(w).log + p.Started(w).Future(w) == log + [Stopped] + Expected(w, queue)
    {
      hide Expected, Started, Future;
      StepKeeps(Stop);
      AfterStop().StartedFuture(w);
    }

    /** Actions are performed in the order in which they were queued. */
    lemma QueuedInOrder(w: World, actions: seq<Action>)
      requires !IsRunning() && queue == []
      ensures var p := EnqueuedAll(actions);
              && !p.IsRunning() && p.Started(w).log + p.Started(w).Future(w) == log + Expected(w, actions)
    {
      hide Expected, Started, Future, EnqueuedAll;
      EnqueuedAllQueues(this, actions);
      assert [] + actions == actions;
      EnqueuedAll(actions).StartedFuture(w);
    }

    /** The destructor clears the pointers of all actions but the dropped ones. */
    lemma DestroyedLeavesDropped()
      requires Valid()
      ensures (forall a | a in queue :: a in attached) && (IsRunning() ==> current.value in attached)
      ensures Destroyed().attached == dropped
    {
      assert forall a :: a in queue <==> a in Waiting();
    }

    /** No action becomes attached when others are performed. */
    lemma {:induction false} BegunOld(w: World, next: Action)
      requires IsRunning() && forall a | a in attached :: a < next
      ensures forall a | a in Begun(w).attached :: a < next
      decreases |queue|, 1
    {
      if w.atOnce(current.value) {
        this.(log := log + [Performed(current.value)]).CompletedOld(w, w.succeeds(current.value), next);
      }
    }

    lemma {:induction false} CompletedOld(w: World, success: bool, next: Action)
      requires IsRunning() && forall a | a in attached :: a < next
      ensures forall a | a in Completed(w, success).attached :: a < next
      decreases |queue|, 0
    {
      if queue != [] && success {
        var a := current.value;
        Rest(success).BegunOld(w, next);
      }
    }

    lemma StartedOld(w: World, next: Action)
      requires !IsRunning() && forall a | a in attached :: a < next
      ensures forall a | a in Started(w).attached :: a < next
    {
      if queue != [] {
        this.(current := Some(queue[0]), queue := queue[1..]).BegunOld(w, next);
      }
    }

    // ----- What happens, whenever actions complete

    /** What is still to happen. */
    function Future(w: World): seq<Event> {
      if current.None? then []
      else
        var a := current.value;
        [Reported(a, w.succeeds(a))]
        + if w.succeeds(a) && queue != [] then Expected(w, queue) else [Done(w.succeeds(a))]
    }

    lemma {:induction false} BegunFuture(w: World)
      requires IsRunning()
      ensures Begun(w).log + Begun(w).Future(w) == log + ([Performed(current.value)] + Future(w))
      ensures !Begun(w).IsRunning() ==> Begun(w).queue == []
      decreases |queue|, 1
    {
      var p := this.(log := log + [Performed(current.value)]);
      assert p.Future(w) == Future(w);
      assert log + [Performed(current.value)] + Future(w) == log + ([Performed(current.value)] + Future(w));
      if w.atOnce(current.value) {
        p.CompletedFuture(w);
      }
    }

    lemma {:induction false} CompletedFuture(w: World)
      requires IsRunning()
      ensures var p := Completed(w, w.succeeds(current.value));
              && p.log + p.Future(w) == log + Future(w)
              && (!p.IsRunning() ==> p.queue == [])
      decreases |queue|, 0
    {
      hide Expected, Completed, Begun, Future;
      var a := current.value;
      var success := w.succeeds(a);
      CompletedIs(w, success);
      FutureIs(w);
      if queue == [] || !success {
        NothingRunsFuture(Completed(w, success), w);
        assert log + [Reported(a, success)] + [Done(success)] == log + ([Reported(a, success)] + [Done(success)]);
      } else {
        var next := Rest(success);
        next.BegunFuture(w);
        next.PerformedFuture(w, queue[0]);
        assert [queue[0]] + queue[1..] == queue;
        assert log + [Reported(a, success)] + Expected(w, queue) == log + ([Reported(a, success)] + Expected(w, queue));
      }
    }

    static lemma NothingRunsFuture(p: Processor, w: World)
      requires p.current.None?
      ensures p.Future(w) == [] && p.log + [] == p.log
    {
    }

    /** With the current action reported, and the next one current. */
    function Rest(success: bool): Processor
      requires IsRunning() && queue != []
    {
      Processor(queue[1..], Some(queue[0]), attached - {current.value}, dropped, log + [Reported(current.value, success)])
    }

    lemma CompletedIs(w: World, success: bool)
      requires IsRunning()
      ensures var p := Completed(w, success);
              if queue == [] || !success
              then p.queue == [] && p.current.None? && p.log == log + [Reported(current.value, success)] + [Done(success)]
              else p == Rest(success).Begun(w)
    {
    }

    lemma FutureIs(w: World)
      requires IsRunning()
      ensures var success := w.succeeds(current.value);
              Future(w) == [Reported(current.value, success)]
                           + if success && queue != [] then Expected(w, queue) else [Done(success)]
    {
    }

    lemma PerformedFuture(w: World, a: Action)
      requires current == Some(a)
      ensures [Performed(a)] + Future(w) == Expected(w, [a] + queue)
    {
      assert ([a] + queue)[1..] == queue;
    }

    lemma StartedFuture(w: World)
      requires !IsRunning()
      ensures Started(w).log + Started(w).Future(w) == log + Expected(w, queue)
      ensures !Started(w).IsRunning() ==> Started(w).queue == []
    {
      if queue != [] {
        var next := this.(current := Some(queue[0]), queue := queue[1..]);
        next.BegunFuture(w);
        assert [Performed(queue[0])] + next.Future(w) == Expected(w, queue);
      }
    }

    /** All pending completions come in, one after the other. */
    function Finished(w: World): Processor
      decreases if IsRunning() then |queue| + 1 else 0
    {
      if IsRunning() then Completed(w, w.succeeds(current.value)).Finished(w) else this
    }

    lemma {:induction false} FinishedFuture(w: World)
      ensures var p := Finished(w);
              && !p.IsRunning() && p.log == log + Future(w)
              && (IsRunning() || queue == [] ==> p.queue == [])
      decreases if IsRunning() then |queue| + 1 else 0
    {
      if IsRunning() {
        CompletedFuture(w);
        var next := Completed(w, w.succeeds(current.value));
        hide Completed, Future;
        next.FinishedFuture(w);
      }
    }

    /** Whichever actions complete at once and whichever later, the same things happen in the same
        order: those that are expected of the queue.  Nothing runs or waits afterwards. */
    lemma TimingDoesNotMatter(w: World)
      requires !IsRunning()
      ensures var p := Started(w).Finished(w);
              !p.IsRunning() && p.queue == [] && p.log == log + Expected(w, queue)
    {
      StartedFuture(w);
      Started(w).FinishedFuture(w);
      hide Started, Expected, Finished;
    }
  }

  datatype Call = Enqueue(action: Action) | Start(world: World) | Complete(now: World, success: bool) | Stop

  // ----- The update attempt

  /** The seven actions of an attempt, named by consecutive numbers. */
  function Attempt(first: Action): seq<Action> {
    [first, first + 1, first + 2, first + 3, first + 4, first + 5, first + 6]
  }

  /** The first attempt failed although there was an update. */
  ghost predicate Retries(w: World, first: Action) {
    !AllSucceed(w, Attempt(first)) && !w.noUpdate(first + 2)
  }

  /** handler is the response handler action of the latest attempt, quits counts the calls that
      quit the main loop, and next names the next action that is created. */
  datatype Attempter = Attempter(full: bool, actions: seq<Action>, processor: Processor, handler: Option<Action>,
                                 next: Action, updates: nat, quits: nat) {

    /** Making the actions of an attempt and queueing all actions there are. */
    function Prepared(force: bool): Attempter {
      var all := actions + Attempt(next);
      this.(full := force, updates := updates + 1, next := next + 7, handler := Some(next + 2),
            actions := all, processor := processor.EnqueuedAll(all))
    }

    function Updated(w: World, force: bool): (r: Attempter)
      requires !processor.IsRunning()
      ensures force ==> r.full
      ensures r.updates > 0
      decreases if force then 0 else 1, 1
    {
      var u := Prepared(force);
      EnqueuedAllQueues(processor, actions + Attempt(next));
      u.Continued(w, u.processor.Started(w))
    }

    /** What follows when the processor comes to a halt or waits: ProcessingDone, if it is done. */
    function Continued(w: World, p: Processor): (r: Attempter)
      requires handler.Some? && (!p.IsRunning() ==> p.JustDone())
      ensures full ==> r.full
      ensures updates > 0 ==> r.updates > 0
      ensures !p.IsRunning() && r.processor.IsRunning() ==> r.full && !full
      decreases if full then 0 else 1, 0, 1
    {
      var u := this.(processor := p);
      if p.IsRunning() then u else u.AfterDone(w, p.DoneSuccess())
    }

    /** ProcessingDone: quit, or try again with a full update. */
    function AfterDone(w: World, success: bool): (r: Attempter)
      requires handler.Some? && !processor.IsRunning()
      ensures full ==> r.full
      ensures updates > 0 ==> r.updates > 0
      ensures r.processor.IsRunning() ==> r.full && !full
      decreases if full then 0 else 1, 0, 0
    {
      if !w.noUpdate(handler.value) && !success && !full
      then this.(actions := [], handler := None).Updated(w, true)
      else this.(quits := quits + 1)
    }

    /** An action that did not complete at once completes. */
    function Resumed(w: World): (r: Attempter)
      requires processor.IsRunning() && handler.Some?
      ensures full ==> r.full
    {
      Continued(w, processor.Completed(w, w.succeeds(processor.current.value)))
    }

    /** Completions run out: either fewer actions wait, or the full update begins, or it is over. */
    lemma ResumedProgress(w: World)
      requires processor.IsRunning() && handler.Some?
      ensures var r := Resumed(w);
              r.processor.IsRunning() ==>
                (r.full && !full) || (r.full == full && |r.processor.queue| < |processor.queue|)
    {
    }

    // ----- What an update comes to

    /** The delta update is under way, or it was the last.  Its actions are still there. */
    ghost predicate InFirst(w: World, first: Action) {
      && updates == 1 && !full && next == first + 7 && handler == Some(first + 2) && actions == Attempt(first)
      && processor.log + processor.Future(w) == Expected(w, Attempt(first))
      && quits == (if processor.IsRunning() then 0 else 1)
      && (!processor.IsRunning() ==> !Retries(w, first))
    }

    /** The full update is under way, or done. */
    ghost predicate InSecond(w: World, first: Action) {
      && updates == 2 && full && next == first + 14 && handler == Some(first + 9) && actions == Attempt(first + 7)
      && processor.log + processor.Future(w) == Expected(w, Attempt(first)) + Expected(w, Attempt(first + 7))
      && quits == (if processor.IsRunning() then 0 else 1)
      && Retries(w, first)
    }

    ghost predicate OnCourse(w: World, first: Action) {
      && (InFirst(w, first) || InSecond(w, first))
      && (!processor.IsRunning() ==> processor.queue == [])
      && processor.Valid()
      && forall a | a in processor.attached :: a < next
    }

    lemma DoneMeans(w: World, p: Processor, before: seq<Event>, queue: seq<Action>)
      requires p.current.None? && p.log == before + Expected(w, queue) && queue != []
      ensures p.JustDone() && (p.DoneSuccess() <==> AllSucceed(w, queue))
    {
      hide Expected, AllSucceed;
      ExpectedDone(w, queue);
      var events := Expected(w, queue);
      assert p.log[|p.log| - 1] == events[|events| - 1];
    }

    /** Nothing runs or waits, and the actions that are attached are old ones. */
    ghost predicate Idle() {
      !processor.IsRunning() && processor.queue == [] && processor.Valid() && Old(processor)
    }

    ghost predicate Old(p: Processor) {
      forall a | a in p.attached :: a < next
    }

    /** Queueing new actions meets EnqueueAction's check, and leaves the processor valid. */
    lemma PreparedKeeps(force: bool)
      requires Idle() && actions == []
      ensures var u := Prepared(force);
              && u.processor.Valid() && u.Old(u.processor) && !u.processor.IsRunning()
              && u.processor.queue == Attempt(next) && u.processor.log == processor.log
    {
      AttemptIsNew(next);
      hide Processor.Valid, Attempt, Processor.EnqueuedAll;
      EnqueuedAllKeeps(processor, Attempt(next));
      EnqueuedAllQueues(processor, Attempt(next));
      assert [] + Attempt(next) == Attempt(next) && actions + Attempt(next) == Attempt(next);
    }

    lemma OldAfterStart(w: World)
      requires !processor.IsRunning() && Old(processor)
      ensures Old(processor.Started(w))
    {
      processor.StartedOld(w, next);
    }

    lemma StillIdle(before: Attempter)
      requires before.Idle() && this == before.(actions := actions, handler := handler)
      ensures Idle()
    {
    }

    lemma UpdatedIs(w: World, force: bool)
      requires !processor.IsRunning()
      ensures !Prepared(force).processor.IsRunning()
      ensures var p := Prepared(force).processor.Started(w);
              (p.IsRunning() || p.JustDone()) && Updated(w, force) == Prepared(force).Continued(w, p)
    {
      hide Continued, Attempt;
      EnqueuedAllQueues(processor, actions + Attempt(next));
      AttemptNotEmpty(next);
    }

    /** Starting a processor that has the actions of an attempt queued. */
    lemma AttemptStarts(w: World, force: bool)
      requires Idle() && actions == []
      ensures !Prepared(force).processor.IsRunning()
      ensures var u := Prepared(force);
              var p := u.processor.Started(w);
              && (!p.IsRunning() ==> p.queue == [] && p.JustDone()) && Updated(w, force) == u.Continued(w, p)
              && p.log + p.Future(w) == processor.log + Expected(w, Attempt(next))
              && p.Valid() && u.Old(p)
    {
      hide Expected, Processor.Valid, Attempt, Processor.Started, Processor.Future, Updated, Continued;
      UpdatedIs(w, force);
      PreparedKeeps(force);
      var u := Prepared(force);
      hide Prepared;
      u.processor.StartedFuture(w);
      u.processor.StartedKeeps(w);
      u.processor.StartedOld(w, u.next);
    }

    lemma ContinuedSecond(w: World, first: Action, p: Processor)
      requires updates == 2 && full && next == first + 14 && handler == Some(first + 9) && quits == 0
      requires actions == Attempt(first + 7)
      requires p.log + p.Future(w) == Expected(w, Attempt(first)) + Expected(w, Attempt(first + 7))
      requires Retries(w, first) && p.Valid() && Old(p) && (!p.IsRunning() ==> p.queue == [] && p.JustDone())
      ensures Continued(w, p).OnCourse(w, first)
    {
      hide Expected, Processor.Valid, Retries, AllSucceed;
      if !p.IsRunning() {
        var u := this.(processor := p);
        assert u.AfterDone(w, p.DoneSuccess()) == u.(quits := 1);
      }
    }

    lemma SecondStarts(w: World, first: Action)
      requires Idle() && actions == [] && updates == 1 && next == first + 7 && quits == 0
      requires processor.log == Expected(w, Attempt(first)) && Retries(w, first)
      ensures Updated(w, true).OnCourse(w, first)
    {
      hide Expected, Processor.Valid, Retries, AllSucceed, Attempt, Processor.Started, Processor.Future, Old,
           Continued, OnCourse, Updated;
      AttemptStarts(w, true);
      assert [] + Attempt(next) == Attempt(next);
      Prepared(true).ContinuedSecond(w, first, Prepared(true).processor.Started(w));
    }

    lemma ContinuedFirst(w: World, first: Action, p: Processor)
      requires updates == 1 && !full && next == first + 7 && handler == Some(first + 2) && quits == 0
      requires actions == Attempt(first)
      requires p.log + p.Future(w) == Expected(w, Attempt(first))
      requires p.Valid() && Old(p) && (!p.IsRunning() ==> p.queue == [] && p.JustDone())
      ensures Continued(w, p).OnCourse(w, first)
    {
      hide Expected, Processor.Valid, AllSucceed, Attempt;
      if !p.IsRunning() {
        assert p.log + [] == p.log && [] + Expected(w, Attempt(first)) == Expected(w, Attempt(first));
        AttemptNotEmpty(first);
        DoneMeans(w, p, [], Attempt(first));
        var u := this.(processor := p);
        if Retries(w, first) {
          u.(actions := [], handler := None).SecondStarts(w, first);
        }
      }
    }

    /** From the first attempt on, everything stays on course. */
    lemma FirstStarts(w: World)
      requires Idle() && actions == [] && updates == 0 && quits == 0 && processor.log == []
      ensures Updated(w, false).OnCourse(w, next)
    {
      hide Expected, Processor.Valid, AllSucceed, Attempt, Processor.Started, Processor.Future, Old,
           Continued, OnCourse, Updated;
      AttemptStarts(w, false);
      assert [] + Attempt(next) == Attempt(next);
      assert [] + Expected(w, Attempt(next)) == Expected(w, Attempt(next));
      Prepared(false).ContinuedFirst(w, next, Prepared(false).processor.Started(w));
    }

    lemma ResumedKeeps(w: World, first: Action)
      requires OnCourse(w, first) && processor.IsRunning()
      ensures handler.Some? && Resumed(w).OnCourse(w, first)
    {
      hide Expected, Processor.Valid, AllSucceed, Attempt, Processor.Completed, Processor.Future;
      var success := w.succeeds(processor.current.value);
      var p := processor.Completed(w, success);
      processor.CompletedFuture(w);
      processor.CompletedKeeps(w, success);
      processor.CompletedOld(w, success, next);
      if InFirst(w, first) {
        ContinuedFirst(w, first, p);
      } else {
        ContinuedSecond(w, first, p);
      }
    }

    /** All pending completions come in, one after the other. */
    ghost function Finished(w: World, first: Action): Attempter
      requires OnCourse(w, first)
      decreases if full then 0 else 1, if processor.IsRunning() then |processor.queue| + 1 else 0
    {
      if !processor.IsRunning() then this
      else
        ResumedKeeps(w, first);
        Resumed(w).Finished(w, first)
    }

    lemma {:induction false} FinishedIsOnCourse(w: World, first: Action)
      requires OnCourse(w, first)
      ensures Finished(w, first).OnCourse(w, first) && !Finished(w, first).processor.IsRunning()
      decreases if full then 0 else 1, if processor.IsRunning() then |processor.queue| + 1 else 0
    {
      hide OnCourse;
      if processor.IsRunning() {
        ResumedKeeps(w, first);
        Resumed(w).FinishedIsOnCourse(w, first);
      }
    }

    /** However the actions behave, an update makes one attempt, and a second, full one exactly if
        the first failed although there was an update; it quits the main loop once; and all that
        happens is what is expected of the attempts. */
    lemma UpdateFinishes(w: World)
      requires Idle() && actions == [] && updates == 0 && quits == 0 && processor.log == []
      ensures Updated(w, false).OnCourse(w, next)
      ensures var u := Updated(w, false).Finished(w, next);
              && !u.processor.IsRunning() && u.quits == 1
              && u.updates == (if Retries(w, next) then 2 else 1)
              && u.processor.log == Expected(w, Attempt(next))
                                    + (if Retries(w, next) then Expected(w, Attempt(next + 7)) else [])
    {
      hide Processor.Valid, Old, OnCourse, Finished, Updated, Expected, Retries, Attempt;
      FirstStarts(w);
      Updated(w, false).FinishedIsOnCourse(w, next);
      Updated(w, false).Finished(w, next).CourseEnds(w, next);
    }

    lemma CourseEnds(w: World, first: Action)
      requires OnCourse(w, first) && !processor.IsRunning()
      ensures quits == 1 && updates == (if Retries(w, first) then 2 else 1)
      ensures processor.log == Expected(w, Attempt(first)) + (if Retries(w, first) then Expected(w, Attempt(first + 7)) else [])
    {
      hide Processor.Valid, Old, Expected, Retries, Attempt;
      assert processor.log + processor.Future(w) == processor.log;
    }
  }

  lemma AttemptIsSeven(first: Action)
    ensures |Attempt(first)| == 7 && forall k | 0 <= k < 7 :: Attempt(first)[k] == first + k
  {
  }

  lemma AttemptNotEmpty(first: Action)
    ensures Attempt(first) != []
  {
  }

  lemma AttemptIsNew(first: Action)
    ensures forall a | a in Attempt(first) :: first <= a < first + 7
    ensures forall i, j | 0 <= i < j < |Attempt(first)| :: Attempt(first)[i] != Attempt(first)[j]
  {
  }

  lemma {:induction false} EnqueuedAllKeeps(p: Processor, actions: seq<Action>)
    requires p.Valid() && (forall a | a in actions :: a !in p.attached)
    requires forall i, j | 0 <= i < j < |actions| :: actions[i] != actions[j]
    ensures p.EnqueuedAll(actions).Valid()
    decreases |actions|
  {
    if actions != [] {
      var init, a := actions[..|actions| - 1], actions[|actions| - 1];
      EnqueuedAllKeeps(p, init);
      EnqueuedAllQueues(p, init);
      assert a !in init;
      hide Processor.Valid;
      p.EnqueuedAll(init).EnqueuedKeeps(a);
    }
  }

  lemma {:induction false} EnqueuedAllQueues(p: Processor, actions: seq<Action>)
    ensures p.EnqueuedAll(actions) == p.(queue := p.queue + actions, attached := p.attached + Elements(actions))
    decreases |actions|
  {
    if actions == [] {
      assert p.queue + actions == p.queue;
    } else {
      var init, a := actions[..|actions| - 1], actions[|actions| - 1];
      EnqueuedAllQueues(p, init);
      assert actions == init + [a];
      assert Elements(init) + {a} == Elements(actions);
    }
  }

  // ----- The classes

  class ActionProcessor {
    var actions: seq<Action>
    var currentAction: Option<Action>
    /** The actions whose processor pointer is set to this. */
    var attached: set<Action>
    ghost var dropped: set<Action>
    /** What actions are performed, and what the delegate is told. */
    var log: seq<Event>

    ghost function Abs(): Processor
      reads this
    {
      Processor(actions, currentAction, attached, dropped, log)
    }

    constructor ()
      ensures Abs() == Processor([], None, {}, {}, []) && Abs().Valid()
    {
      actions, currentAction, attached, dropped, log := [], None, {}, {}, [];
    }

    predicate IsRunning()
      reads this
    {
      currentAction.Some?
    }

    /** SetProcessor, with its two checks. */
    method SetProcessor(action: Action, toThis: bool)
      requires toThis <==> action !in attached
      modifies this`attached
      ensures attached == if toThis then old(attached) + {action} else old(attached) - {action}
    {
      attached := if toThis then attached + {action} else attached - {action};
    }

    method EnqueueAction(action: Action)
      requires action !in attached
      modifies this
      ensures Abs() == old(Abs()).Enqueued(action)
    {
      actions := actions + [action];
      SetProcessor(action, true);
    }

    /** done is what the delegate's ProcessingDone is to be told, if anything: that call is the
        last thing that happens, and the model leaves it to the caller. */
    method StartProcessing(w: World) returns (done: Option<bool>)
      requires Abs().Valid() && !IsRunning()
      modifies this
      ensures Abs() == old(Abs()).Started(w) && Abs().Valid()
      ensures done == if old(actions) != [] && !IsRunning() then Some(Abs().DoneSuccess()) else None
    {
      Abs().StartedKeeps(w);
      done := None;
      if actions != [] {
        Abs().NextIsValid(Abs().(current := Some(actions[0]), queue := actions[1..]));
        currentAction := Some(actions[0]);
        actions := actions[1..];
        hide Processor.Valid, Processor.Begun;
        done := PerformAction(w);
      }
    }

    /** The current action is performed, and completes if it does so at once. */
    method PerformAction(w: World) returns (done: Option<bool>)
      requires Abs().Valid() && IsRunning()
      modifies this
      ensures Abs() == old(Abs()).Begun(w)
      ensures done == if IsRunning() then None else Some(Abs().DoneSuccess())
      decreases |actions|, 1
    {
      var action := currentAction.value;
      log := log + [Performed(action)];
      done := None;
      if w.atOnce(action) {
        done := ActionComplete(w, action, w.succeeds(action));
      }
    }

    method ActionComplete(w: World, action: Action, success: bool) returns (done: Option<bool>)
      requires Abs().Valid() && currentAction == Some(action)
      modifies this
      ensures Abs() == old(Abs()).Completed(w, success)
      ensures done == if IsRunning() then None else Some(Abs().DoneSuccess())
      decreases |actions|, 0
    {
      ghost var before := Abs();
      before.CompletedKeeps(w, success);
      log := log + [Reported(action, success)];
      SetProcessor(action, false);
      currentAction := None;
      if actions != [] && !success {
        dropped := dropped + Elements(actions);
        actions := [];
      }
      if actions == [] {
        log := log + [Done(success)];
        return Some(success);
      }
      before.RestIsValid(w, success, Abs());
      currentAction := Some(actions[0]);
      actions := actions[1..];
      hide Processor.Valid, Processor.Begun;
      done := PerformAction(w);
    }

    method StopProcessing()
      requires Abs().Valid() && IsRunning()
      modifies this
      ensures Abs() == old(Abs()).AfterStop() && Abs().Valid()
    {
      var action := currentAction.value;
      SetProcessor(action, false);
      currentAction := None;
      log := log + [Stopped];
    }

    /** The destructor: SetProcessor's checks hold. */
    method Destroy()
      requires Abs().Valid()
      modifies this
      ensures Abs() == old(Abs()).Destroyed() && attached == dropped
    {
      Abs().DestroyedLeavesDropped();
      if IsRunning() {
        StopProcessing();
      }
      ghost var before := Abs();
      assert before.Valid();
      for i := 0 to |actions|
        invariant Abs() == before.(attached := attached)
        invariant attached == before.attached - Elements(actions[..i])
      {
        assert actions[i] !in actions[..i];
        assert actions[i] in before.Waiting();
        SetProcessor(actions[i], false);
        assert actions[..i + 1] == actions[..i] + [actions[i]];
      }
      assert actions[..|actions|] == actions;
    }
  }

  class UpdateAttempter {
    const processor: ActionProcessor
    var fullUpdate: bool
    var actions: seq<Action>
    var responseHandlerAction: Option<Action>
    /** The action object that is created next. */
    var nextAction: Action
    ghost var updates: nat
    /** How often the main loop was told to quit. */
    var quits: nat

    ghost function Abs(): Attempter
      reads this, processor
    {
      Attempter(fullUpdate, actions, processor.Abs(), responseHandlerAction, nextAction, updates, quits)
    }

    constructor ()
      ensures fresh(processor)
      ensures Abs() == Attempter(false, [], Processor([], None, {}, {}, []), None, 0, 0, 0) && Abs().Idle()
    {
      processor := new ActionProcessor();
      fullUpdate, actions, responseHandlerAction, nextAction, updates, quits := false, [], None, 0, 0, 0;
    }

    method EnqueueActions(created: seq<Action>)
      requires forall a | a in created :: a !in processor.attached
      requires forall i, j | 0 <= i < j < |created| :: created[i] != created[j]
      modifies processor
      ensures processor.Abs() == old(processor.Abs()).EnqueuedAll(created)
    {
      hide Processor.EnqueuedAll;
      ghost var before := processor.Abs();
      EnqueuedAllQueues(before, created[..0]);
      for i := 0 to |created|
        invariant processor.Abs() == before.EnqueuedAll(created[..i])
        invariant processor.attached == before.attached + Elements(created[..i])
      {
        assert created[i] !in created[..i] && created[i] in created;
        processor.EnqueueAction(created[i]);
        EnqueuedAllLast(before, created, i);
      }
      assert created[..|created|] == created;
    }

    method CreateActions(force: bool)
      requires Abs().Idle() && actions == []
      modifies this, processor
      ensures Abs() == old(Abs()).Prepared(force)
    {
      fullUpdate := force;
      updates := updates + 1;
      var created := Attempt(nextAction);
      AttemptIsNew(nextAction);
      responseHandlerAction := Some(nextAction + 2);
      nextAction := nextAction + 7;
      actions := actions + created;
      assert actions == created;
      hide Attempt, Processor.Valid, Processor.EnqueuedAll;
      EnqueueActions(actions);
    }

    /** Makes the actions of an attempt and starts them.  Nothing runs then: that is the source's
        check.  No action of an attempt before is left. */
    method Update(w: World, forceFullUpdate: bool)
      requires Abs().Idle() && actions == []
      modifies this, processor
      ensures Abs() == old(Abs()).Updated(w, forceFullUpdate)
      decreases if forceFullUpdate then 0 else 1, 1
    {
      hide Processor.Valid, Processor.Started, Attempter.AfterDone, Attempt;
      assert !processor.IsRunning();
      ghost var before := Abs();
      before.PreparedKeeps(forceFullUpdate);
      AttemptNotEmpty(nextAction);
      CreateActions(forceFullUpdate);
      ghost var prepared := Abs();
      prepared.processor.StartedFuture(w);
      prepared.OldAfterStart(w);
      var done := processor.StartProcessing(w);
      if done.Some? {
        ProcessingDone(w, done.value);
      }
    }

    method ProcessingDone(w: World, success: bool)
      requires Abs().Idle() && responseHandlerAction.Some?
      modifies this, processor
      ensures Abs() == old(Abs()).AfterDone(w, success)
      decreases if fullUpdate then 0 else 1, 0
    {
      hide Processor.Valid, Attempter.Old, Attempter.Updated;
      if w.noUpdate(responseHandlerAction.value) {
        quits := quits + 1;
        return;
      }
      if !success && !fullUpdate {
        actions := [];
        responseHandlerAction := None;
        Abs().StillIdle(old(Abs()));
        Update(w, true);
        return;
      }
      quits := quits + 1;
    }

    /** The action that is being performed completes, from the main loop. */
    method Resume(w: World)
      requires processor.IsRunning() && responseHandlerAction.Some? && processor.Abs().Valid() && Abs().Old(processor.Abs())
      modifies this, processor
      ensures Abs() == old(Abs()).Resumed(w)
    {
      hide Processor.Completed, Attempter.AfterDone;
      ghost var before := Abs();
      var action := processor.currentAction.value;
      var success := w.succeeds(action);
      before.processor.CompletedFuture(w);
      before.processor.CompletedKeeps(w, success);
      before.processor.CompletedOld(w, success, nextAction);
      var done := processor.ActionComplete(w, action, success);
      if done.Some? {
        ProcessingDone(w, done.value);
      }
    }
  }

  /** A whole update: the main loop delivers completions until nothing is pending any more. */
  method UpdateInMainLoop(w: World) returns (quits: nat, log: seq<Event>)
    ensures quits == 1
    ensures log == Expected(w, Attempt(0)) + if Retries(w, 0) then Expected(w, Attempt(7)) else []
  {
    var attempter := new UpdateAttempter();
    attempter.Abs().FirstStarts(w);
    attempter.Update(w, false);
    hide Expected, Attempt, Retries, Attempter.Resumed, Processor.Valid, Processor.Completed, Attempter.AfterDone;
    while attempter.processor.IsRunning()
      invariant attempter.Abs().OnCourse(w, 0) && fresh(attempter) && fresh(attempter.processor)
      decreases if attempter.fullUpdate then 0 else 1,
                if attempter.processor.IsRunning() then |attempter.processor.actions| + 1 else 0
    {
      attempter.Abs().ResumedKeeps(w, 0);
      attempter.Abs().ResumedProgress(w);
      attempter.Resume(w);
    }
    quits, log := attempter.quits, attempter.processor.log;
    assert attempter.Abs().processor.Future(w) == [];
  }

  lemma EnqueuedAllLast(p: Processor, actions: seq<Action>, i: nat)
    requires i < |actions|
    ensures p.EnqueuedAll(actions[..i + 1]) == p.EnqueuedAll(actions[..i]).Enqueued(actions[i])
    ensures Elements(actions[..i + 1]) == Elements(actions[..i]) + {actions[i]}
  {
    assert actions[..i + 1][..i] == actions[..i];
    assert actions[..i + 1] == actions[..i] + [actions[i]];
  }
}

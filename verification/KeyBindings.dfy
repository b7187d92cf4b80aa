/** Named actions, the key combinations bound to them, and the begin, repeat and end events that
    key presses and releases give each action. */
module KeyBindingIndexes {
  import opened Sequences

  type KeySym = nat

  /** X11's LockMask. */
  const LOCK_MASK: bv32 := 2

  datatype KeyCombo = KeyCombo(key: KeySym, modifiers: bv32)

  /** A combo as its constructor makes it: keysym in lower case, Caps Lock masked out. */
  function MakeCombo(lower: KeySym -> KeySym, keysym: KeySym, modifiers: bv32): KeyCombo {
    KeyCombo(lower(keysym), modifiers & !LOCK_MASK)
  }

  /** Caps Lock never decides which combo an event is. */
  lemma CapsLockIsIgnored(lower: KeySym -> KeySym, keysym: KeySym, modifiers: bv32)
    ensures MakeCombo(lower, keysym, modifiers | LOCK_MASK) == MakeCombo(lower, keysym, modifiers)
  {
    assert (modifiers | LOCK_MASK) & !LOCK_MASK == modifiers & !LOCK_MASK;
  }

  function WithCapsLock(modifiers: bv32): bv32 {
    modifiers | LOCK_MASK
  }

  function WithoutCapsLock(modifiers: bv32): bv32 {
    modifiers & !LOCK_MASK
  }

  lemma CapsLockIsSet(m: bv32)
    ensures WithCapsLock(m) == m | LOCK_MASK
  {
  }

  lemma CapsLockIsCleared(m: bv32)
    ensures WithoutCapsLock(m) == m & !LOCK_MASK
  {
  }

  lemma SetAfterClear(m: bv32)
    ensures WithCapsLock(WithoutCapsLock(m)) == WithCapsLock(m)
  {
    hide WithCapsLock, WithoutCapsLock;
    CapsLockIsCleared(m);
    CapsLockIsSet(m);
    CapsLockIsSet(WithoutCapsLock(m));
    SetOfCleared(m, WithoutCapsLock(m));
  }

  lemma SetOfCleared(m: bv32, cleared: bv32)
    requires cleared == m & !LOCK_MASK
    ensures cleared | LOCK_MASK == m | LOCK_MASK
  {
  }

  lemma ClearAfterSet(m: bv32)
    ensures WithoutCapsLock(WithCapsLock(m)) == WithoutCapsLock(m)
  {
  }

  lemma ClearIsClear(m: bv32)
    requires m & LOCK_MASK == 0
    ensures WithoutCapsLock(m) == m
  {
  }

  /** All modifiers count but Caps Lock. */
  lemma MaskedAlike(m: bv32, n: bv32)
    ensures WithoutCapsLock(m) == WithoutCapsLock(n) <==> WithCapsLock(m) == WithCapsLock(n)
  {
    hide WithCapsLock, WithoutCapsLock;
    SetAfterClear(m);
    SetAfterClear(n);
    ClearAfterSet(m);
    ClearAfterSet(n);
  }

  lemma ComboIs(lower: KeySym -> KeySym, k: KeySym, m: bv32)
    ensures MakeCombo(lower, k, m) == KeyCombo(lower(k), WithoutCapsLock(m))
  {
  }

  lemma CapsLockSet(m: bv32, n: bv32)
    ensures WithCapsLock(m) == WithCapsLock(n) <==> m | LOCK_MASK == n | LOCK_MASK
  {
  }

  /** Two events are the same combo exactly if their keysyms are the same in lower case and their
      modifiers are, but for Caps Lock. */
  lemma CombosAreEqualExactly(lower: KeySym -> KeySym, k: KeySym, m: bv32, l: KeySym, n: bv32)
    ensures MakeCombo(lower, k, m) == MakeCombo(lower, l, n) <==> lower(k) == lower(l) && m | LOCK_MASK == n | LOCK_MASK
  {
    hide *;
    ComboIs(lower, k, m);
    ComboIs(lower, l, n);
    MaskedAlike(m, n);
    CapsLockSet(m, n);
  }

  predicate HasCapsLock(modifiers: bv32) {
    modifiers & LOCK_MASK != 0
  }

  lemma UnlockedIsKept(m: bv32)
    requires !HasCapsLock(m)
    ensures WithoutCapsLock(m) == m
  {
    ClearIsClear(m);
  }

  /** An event finds a combo that was made without Caps Lock exactly if the keysym is the same in
      lower case and the modifiers are, but for Caps Lock. */
  lemma EventFindsCombo(lower: KeySym -> KeySym, c: KeyCombo, k: KeySym, m: bv32)
    requires !HasCapsLock(c.modifiers)
    ensures c == MakeCombo(lower, k, m) <==> c.key == lower(k) && WithCapsLock(c.modifiers) == WithCapsLock(m)
  {
    hide *;
    UnlockedIsKept(c.modifiers);
    ComboIs(lower, k, m);
    MaskedAlike(c.modifiers, m);
  }

  // ----- The history of an action

  datatype Kind = Begin | Repeat | End | Unbind

  /** Something that happened to an action; ran says whether a closure was there to be run. */
  datatype Event = Event(name: string, kind: Kind, ran: bool)

  function History(log: seq<Event>, name: string): seq<Kind> {
    if log == [] then []
    else
      var n := |log| - 1;
      History(log[..n], name) + if log[n].name == name then [log[n].kind] else []
  }

  lemma HistorySnoc(log: seq<Event>, e: Event, name: string)
    ensures History(log + [e], name) == History(log, name) + if e.name == name then [e.kind] else []
  {
    assert (log + [e])[..|log|] == log;
  }

  /** The last press of the action has not been followed by a release. */
  predicate Open(h: seq<Kind>) {
    h != [] && (h[|h| - 1].Begin? || h[|h| - 1].Repeat?)
  }

  /** Only an open action repeats or closes, and only a closed one begins. */
  predicate WellBracketed(h: seq<Kind>) {
    h != [] ==>
      && WellBracketed(h[..|h| - 1])
      && (h[|h| - 1].Begin? <==> !Open(h[..|h| - 1]))
  }

  /** One press of a key: a begin, some repeats, and, unless it is still held, its close. */
  datatype Session = Session(repeats: nat, close: Close)
  datatype Close = Held | Released | Unbound

  function HeldEvents(repeats: nat): seq<Kind> {
    if repeats == 0 then [Begin] else HeldEvents(repeats - 1) + [Repeat]
  }

  function SessionEvents(s: Session): seq<Kind> {
    HeldEvents(s.repeats) + match s.close
                            case Held => []
                            case Released => [End]
                            case Unbound => [Unbind]
  }

  function SessionsEvents(ss: seq<Session>): seq<Kind> {
    if ss == [] then [] else SessionsEvents(ss[..|ss| - 1]) + SessionEvents(ss[|ss| - 1])
  }

  /** All sessions but perhaps the last are closed. */
  predicate SessionList(ss: seq<Session>) {
    forall i | 0 <= i < |ss| - 1 :: !ss[i].close.Held?
  }

  /** The sessions of a history, read off event by event. */
  function SessionsOf(h: seq<Kind>): seq<Session> {
    if h == [] then []
    else
      var before, k := SessionsOf(h[..|h| - 1]), h[|h| - 1];
      if k == Begin || before == [] then before + [Session(0, Held)]
      else before[..|before| - 1] + [SessionWith(before[|before| - 1], k)]
  }

  /** An open session after one more event. */
  function SessionWith(s: Session, k: Kind): Session {
    match k
    case Repeat => s.(repeats := s.repeats + 1)
    case Unbind => s.(close := Unbound)
    case _ => s.(close := Released)
  }

  ghost predicate SessionsExplain(ss: seq<Session>, h: seq<Kind>) {
    && SessionList(ss) && SessionsEvents(ss) == h
    && (Open(h) <==> ss != [] && ss[|ss| - 1].close.Held?)
  }

  /** A well-bracketed history is a prefix of (begin repeat* (end | unbind))*. */
  lemma {:induction false} WellBracketedIsSessions(h: seq<Kind>)
    requires WellBracketed(h)
    ensures SessionsExplain(SessionsOf(h), h)
  {
    if h != [] {
      WellBracketedIsSessions(h[..|h| - 1]);
      if h[|h| - 1] == Begin {
        SessionBegins(SessionsOf(h[..|h| - 1]), h);
      } else {
        SessionGoesOn(SessionsOf(h[..|h| - 1]), h);
      }
    }
  }

  /** And every such list of sessions is a well-bracketed history. */
  lemma {:induction false} SessionsAreWellBracketed(ss: seq<Session>)
    requires SessionList(ss)
    ensures WellBracketed(SessionsEvents(ss))
    ensures Open(SessionsEvents(ss)) <==> ss != [] && ss[|ss| - 1].close.Held?
  {
    if ss != [] {
      var init, last := ss[..|ss| - 1], ss[|ss| - 1];
      SessionsAreWellBracketed(init);
      hide SessionsEvents, WellBracketed, Open;
      EventsSplit(ss);
      HeldIsOpen(SessionsEvents(init), last.repeats);
      SessionAdded(SessionsEvents(init), last);
    }
  }

  lemma {:induction false} HeldIsOpen(h: seq<Kind>, repeats: nat)
    requires WellBracketed(h) && !Open(h)
    ensures WellBracketed(h + HeldEvents(repeats)) && Open(h + HeldEvents(repeats))
  {
    if repeats == 0 {
      assert (h + [Begin])[..|h|] == h;
    } else {
      HeldIsOpen(h, repeats - 1);
      var g := h + HeldEvents(repeats - 1);
      assert h + HeldEvents(repeats) == g + [Repeat];
      assert (g + [Repeat])[..|g|] == g;
    }
  }

  lemma SessionAdded(h: seq<Kind>, s: Session)
    requires WellBracketed(h + HeldEvents(s.repeats)) && Open(h + HeldEvents(s.repeats))
    ensures WellBracketed(h + SessionEvents(s)) && (Open(h + SessionEvents(s)) <==> s.close.Held?)
  {
    hide HeldEvents;
    var g := h + HeldEvents(s.repeats);
    if s.close.Held? {
      assert h + SessionEvents(s) == g;
    } else {
      var k := if s.close.Released? then End else Unbind;
      assert h + SessionEvents(s) == g + [k] by {
        SeqAssociative(h, HeldEvents(s.repeats), [k]);
      }
      hide SessionEvents;
      CloseAdded(g, k);
    }
  }

  lemma CloseAdded(h: seq<Kind>, k: Kind)
    requires WellBracketed(h) && Open(h) && (k == End || k == Unbind)
    ensures WellBracketed(h + [k]) && !Open(h + [k])
  {
    assert (h + [k])[..|h|] == h;
  }

  lemma SessionBegins(ss: seq<Session>, h: seq<Kind>)
    requires h != [] && SessionsExplain(ss, h[..|h| - 1]) && !Open(h[..|h| - 1]) && h[|h| - 1] == Begin
    ensures SessionsExplain(ss + [Session(0, Held)], h)
  {
    EventsOfSnoc(ss, Session(0, Held));
    assert h == h[..|h| - 1] + [Begin];
  }

  lemma SessionGoesOn(ss: seq<Session>, h: seq<Kind>)
    requires h != [] && SessionsExplain(ss, h[..|h| - 1]) && Open(h[..|h| - 1]) && h[|h| - 1] != Begin
    ensures SessionsExplain(ss[..|ss| - 1] + [SessionWith(ss[|ss| - 1], h[|h| - 1])], h)
  {
    var init, last, k := ss[..|ss| - 1], ss[|ss| - 1], h[|h| - 1];
    EventsOfSnoc(init, SessionWith(last, k));
    EventAdded(last, k);
    EventsSplit(ss);
    hide SessionsEvents, SessionEvents;
    SeqAssociative(SessionsEvents(init), SessionEvents(last), [k]);
    assert h == h[..|h| - 1] + [k];
  }

  lemma EventsOfSnoc(ss: seq<Session>, s: Session)
    ensures SessionsEvents(ss + [s]) == SessionsEvents(ss) + SessionEvents(s)
  {
    assert (ss + [s])[..|ss|] == ss;
  }

  lemma EventsSplit(ss: seq<Session>)
    requires ss != []
    ensures SessionsEvents(ss) == SessionsEvents(ss[..|ss| - 1]) + SessionEvents(ss[|ss| - 1])
  {
  }

  lemma EventAdded(s: Session, k: Kind)
    requires s.close.Held? && k != Begin
    ensures SessionEvents(SessionWith(s, k)) == SessionEvents(s) + [k]
  {
    assert SessionEvents(s) == HeldEvents(s.repeats);
    if k == Repeat {
      assert HeldEvents(s.repeats + 1) == HeldEvents(s.repeats) + [Repeat];
      assert HeldEvents(s.repeats + 1) + [] == HeldEvents(s.repeats + 1);
    }
  }

  // ----- The two indexes that bindings determine

  type Bindings = map<KeyCombo, string>

  /** The combos bound to a name. */
  function Preimage(bindings: Bindings, name: string): set<KeyCombo> {
    set c | c in bindings && bindings[c] == name
  }

  /** What each action's own index should hold. */
  function OwnIndexes(bindings: Bindings, names: set<string>): map<string, set<KeyCombo>> {
    map n | n in names :: Preimage(bindings, n)
  }

  /** The names bound on each keysym that has any. */
  function NamesByKeysym(bindings: Bindings): map<KeySym, set<string>> {
    map k | k in (set c | c in bindings :: c.key) :: NamesOn(bindings, k)
  }

  function NamesOn(bindings: Bindings, k: KeySym): set<string> {
    set c | c in bindings && c.key == k :: bindings[c]
  }

  /** No action has two combos on one keysym. */
  ghost predicate OneComboPerKeysym(bindings: Bindings) {
    forall c, d | c in bindings && d in bindings && c.key == d.key && bindings[c] == bindings[d] :: c == d
  }

  /** A name is listed under a keysym exactly when a unique combo with it is bound to the name,
      and no listed set is empty. */
  lemma IndexMeaning(bindings: Bindings, k: KeySym, name: string)
    requires OneComboPerKeysym(bindings)
    ensures var index := NamesByKeysym(bindings);
            && (k in index && name in index[k] <==> exists c | c in bindings :: c.key == k && bindings[c] == name)
            && (forall c, d | c in Preimage(bindings, name) && d in Preimage(bindings, name) && c.key == d.key :: c == d)
            && (k in index ==> index[k] != {})
  {
    var index := NamesByKeysym(bindings);
    if k in index {
      var c :| c in bindings && c.key == k;
      assert bindings[c] in index[k];
    }
  }

  lemma NamesOnAfterAdd(bindings: Bindings, combo: KeyCombo, name: string, k: KeySym)
    requires combo !in bindings
    ensures NamesOn(bindings[combo := name], k)
         == if k == combo.key then NamesOn(bindings, k) + {name} else NamesOn(bindings, k)
  {
    var b := bindings[combo := name];
    assert combo in b && b[combo] == name;
    forall x | x in NamesOn(bindings, k)
      ensures x in NamesOn(b, k)
    {
      var c :| c in bindings && c.key == k && bindings[c] == x;
      assert c in b && b[c] == x;
    }
  }

  lemma KeysymIndexEntry(bindings: Bindings, k: KeySym)
    ensures k in NamesByKeysym(bindings) <==> NamesOn(bindings, k) != {}
    ensures k in NamesByKeysym(bindings) ==> NamesByKeysym(bindings)[k] == NamesOn(bindings, k)
  {
    if k in NamesByKeysym(bindings) {
      var c :| c in bindings && c.key == k;
      assert bindings[c] in NamesOn(bindings, k);
    }
  }

  /** AddBinding's update of the index by keysym is what the new bindings determine. */
  lemma KeysymIndexAfterAdd(bindings: Bindings, combo: KeyCombo, name: string)
    requires combo !in bindings
    ensures NamesByKeysym(bindings[combo := name])
         == NamesByKeysym(bindings)[combo.key := NamesOn(bindings, combo.key) + {name}]
  {
    hide NamesOn, NamesByKeysym;
    var b := bindings[combo := name];
    var expected := NamesByKeysym(bindings)[combo.key := NamesOn(bindings, combo.key) + {name}];
    forall k
      ensures k in NamesByKeysym(b) <==> k in expected
      ensures k in expected ==> NamesByKeysym(b)[k] == expected[k]
    {
      NamesOnAfterAdd(bindings, combo, name, k);
      KeysymIndexEntry(b, k);
      KeysymIndexEntry(bindings, k);
    }
  }

  lemma OwnIndexesAfterAdd(bindings: Bindings, combo: KeyCombo, name: string, names: set<string>)
    requires combo !in bindings && name in names
    ensures OwnIndexes(bindings[combo := name], names)
         == OwnIndexes(bindings, names)[name := Preimage(bindings, name) + {combo}]
  {
    var b := bindings[combo := name];
    forall n | n in names
      ensures Preimage(b, n) == if n == name then Preimage(bindings, n) + {combo} else Preimage(bindings, n)
    {
    }
  }

  lemma NamesOnAfterRemove(bindings: Bindings, combo: KeyCombo, k: KeySym)
    requires combo in bindings && OneComboPerKeysym(bindings)
    ensures NamesOn(bindings - {combo}, k)
         == if k == combo.key then NamesOn(bindings, k) - {bindings[combo]} else NamesOn(bindings, k)
  {
    var b := bindings - {combo};
    forall x | x in NamesOn(bindings, k) && (k == combo.key ==> x != bindings[combo])
      ensures x in NamesOn(b, k)
    {
      var c :| c in bindings && c.key == k && bindings[c] == x;
      assert c in b && b[c] == x;
    }
  }

  /** RemoveBinding's update of the index by keysym is what the new bindings determine. */
  lemma KeysymIndexAfterRemove(bindings: Bindings, combo: KeyCombo)
    requires combo in bindings && OneComboPerKeysym(bindings)
    ensures combo.key in NamesByKeysym(bindings)
    ensures bindings[combo] in NamesByKeysym(bindings)[combo.key]
    ensures var names := NamesByKeysym(bindings)[combo.key] - {bindings[combo]};
            NamesByKeysym(bindings - {combo})
            == if names == {} then NamesByKeysym(bindings) - {combo.key}
               else NamesByKeysym(bindings)[combo.key := names]
  {
    assert bindings[combo] in NamesOn(bindings, combo.key);
    KeysymIndexEntry(bindings, combo.key);
    hide NamesOn, NamesByKeysym, OneComboPerKeysym;
    var b := bindings - {combo};
    var names := NamesByKeysym(bindings)[combo.key] - {bindings[combo]};
    var expected := if names == {} then NamesByKeysym(bindings) - {combo.key}
                    else NamesByKeysym(bindings)[combo.key := names];
    forall k
      ensures k in NamesByKeysym(b) <==> k in expected
      ensures k in expected ==> NamesByKeysym(b)[k] == expected[k]
    {
      NamesOnAfterRemove(bindings, combo, k);
      KeysymIndexEntry(b, k);
      KeysymIndexEntry(bindings, k);
    }
  }

  lemma OwnIndexesAfterRemove(bindings: Bindings, combo: KeyCombo, names: set<string>)
    requires combo in bindings && bindings[combo] in names
    ensures OwnIndexes(bindings - {combo}, names)
         == OwnIndexes(bindings, names)[bindings[combo] := Preimage(bindings, bindings[combo]) - {combo}]
  {
    var b := bindings - {combo};
    forall n | n in names
      ensures Preimage(b, n)
           == if n == bindings[combo] then Preimage(bindings, n) - {combo} else Preimage(bindings, n)
    {
    }
  }

  /** The running actions are those whose history is open; each has a binding. */
  ghost predicate RunningMatches(running: set<string>, bindings: Bindings, log: seq<Event>) {
    && running <= bindings.Values
    && (forall n :: n in running <==> Open(History(log, n)))
    && (forall n :: WellBracketed(History(log, n)))
  }

  lemma HistoryAfterEvent(log: seq<Event>, e: Event, name: string)
    requires WellBracketed(History(log, name))
    requires name == e.name ==> (e.kind.Begin? <==> !Open(History(log, name)))
    ensures History(log + [e], name) == History(log, name) + if name == e.name then [e.kind] else []
    ensures WellBracketed(History(log + [e], name))
    ensures Open(History(log + [e], name))
         == if name == e.name then e.kind.Begin? || e.kind.Repeat? else Open(History(log, name))
  {
    HistorySnoc(log, e, name);
    var h := History(log, name);
    assert (h + [e.kind])[..|h|] == h && h + [] == h;
  }

  /** An event of one action leaves the histories of the others alone. */
  lemma RunningAfterEvent(running: set<string>, bindings: Bindings, log: seq<Event>, e: Event)
    requires RunningMatches(running, bindings, log)
    requires e.kind.Begin? <==> e.name !in running
    requires e.kind.Begin? ==> e.name in bindings.Values
    ensures RunningMatches(if e.kind.Begin? || e.kind.Repeat? then running + {e.name} else running - {e.name},
                           bindings, log + [e])
    ensures forall n :: History(log + [e], n) == History(log, n) + if n == e.name then [e.kind] else []
  {
    hide Open, WellBracketed, History;
    forall n
      ensures History(log + [e], n) == History(log, n) + if n == e.name then [e.kind] else []
      ensures WellBracketed(History(log + [e], n))
      ensures Open(History(log + [e], n))
           == if n == e.name then e.kind.Begin? || e.kind.Repeat? else Open(History(log, n))
    {
      HistoryAfterEvent(log, e, n);
    }
  }

  /** The action has no combo on the keysym yet. */
  ghost predicate FreeOnKeysym(bindings: Bindings, combo: KeyCombo, name: string) {
    forall d | d in bindings && d.key == combo.key :: bindings[d] != name
  }

  lemma MoreBindings(bindings: Bindings, combo: KeyCombo, name: string, running: set<string>, log: seq<Event>)
    requires combo !in bindings && FreeOnKeysym(bindings, combo, name)
    requires OneComboPerKeysym(bindings) && RunningMatches(running, bindings, log)
    ensures OneComboPerKeysym(bindings[combo := name])
    ensures bindings[combo := name].Values == bindings.Values + {name}
    ensures RunningMatches(running, bindings[combo := name], log)
  {
    var b := bindings[combo := name];
    assert combo in b && forall c | c in bindings :: c in b && b[c] == bindings[c];
  }

  /** Without the combo, its action must not be running; the rest is as before. */
  lemma FewerBindings(bindings: Bindings, combo: KeyCombo, running: set<string>, log: seq<Event>)
    requires combo in bindings && OneComboPerKeysym(bindings)
    requires RunningMatches(running, bindings, log) && bindings[combo] !in running
    ensures OneComboPerKeysym(bindings - {combo})
    ensures (bindings - {combo}).Values <= bindings.Values
    ensures RunningMatches(running, bindings - {combo}, log)
  {
    var b := bindings - {combo};
    forall n | n in running
      ensures n in b.Values
    {
      var c :| c in bindings && bindings[c] == n;
      assert c in b;
    }
  }

  // ----- The state, and what each call does to it

  /** An installed action; a has field says whether the closure is there. */
  datatype Action = Action(running: bool, hasBegin: bool, hasRepeat: bool, hasEnd: bool, bindings: set<KeyCombo>)

  /** The three maps of the class, and the log of what has happened to the actions. */
  datatype State = State(actions: map<string, Action>, bindings: Bindings,
                         index: map<KeySym, set<string>>, log: seq<Event>)

  const EMPTY: State := State(map[], map[], map[], [])

  function OwnSets(actions: map<string, Action>): map<string, set<KeyCombo>> {
    map n | n in actions :: actions[n].bindings
  }

  function RunningSet(actions: map<string, Action>): set<string> {
    set n | n in actions && actions[n].running
  }

  /** The three indexes agree, and the running flags are what the log says. */
  ghost predicate Agrees(s: State) {
    && s.bindings.Values <= s.actions.Keys
    && OneComboPerKeysym(s.bindings)
    && s.index == NamesByKeysym(s.bindings)
    && OwnSets(s.actions) == OwnIndexes(s.bindings, s.actions.Keys)
    && RunningMatches(RunningSet(s.actions), s.bindings, s.log)
  }

  function ActionAdded(s: State, name: string, hasBegin: bool, hasRepeat: bool, hasEnd: bool): State {
    if name in s.actions then s
    else s.(actions := s.actions[name := Action(false, hasBegin, hasRepeat, hasEnd, {})])
  }

  function BindingAdded(s: State, combo: KeyCombo, name: string): State {
    if combo in s.bindings || name !in s.actions then s
    else
      var action := s.actions[name];
      var listed := if combo.key in s.index then s.index[combo.key] else {};
      State(s.actions[name := action.(bindings := action.bindings + {combo})],
            s.bindings[combo := name],
            s.index[combo.key := listed + {name}],
            s.log)
  }

  function BindingRemoved(s: State, combo: KeyCombo): State {
    if combo !in s.bindings || s.bindings[combo] !in s.actions || combo.key !in s.index then s
    else
      var name := s.bindings[combo];
      var action := s.actions[name];
      var listed := s.index[combo.key] - {name};
      State(s.actions[name := action.(running := false, bindings := action.bindings - {combo})],
            s.bindings - {combo},
            if listed == {} then s.index - {combo.key} else s.index[combo.key := listed],
            s.log + if action.running then [Event(name, Unbind, false)] else [])
  }

  function Pressed(s: State, combo: KeyCombo): State {
    if combo !in s.bindings || s.bindings[combo] !in s.actions then s
    else
      var name := s.bindings[combo];
      var action := s.actions[name];
      s.(actions := s.actions[name := action.(running := true)],
         log := s.log + [if action.running then Event(name, Repeat, action.hasRepeat)
                         else Event(name, Begin, action.hasBegin)])
  }

  /** One action of a released keysym. */
  function Ended(s: State, name: string): State {
    if name !in s.actions || !s.actions[name].running then s
    else s.(actions := s.actions[name := s.actions[name].(running := false)],
            log := s.log + [Event(name, End, s.actions[name].hasEnd)])
  }

  lemma SetAction(actions: map<string, Action>, name: string, action: Action)
    ensures OwnSets(actions[name := action]) == OwnSets(actions)[name := action.bindings]
    ensures RunningSet(actions[name := action])
         == if action.running then RunningSet(actions) + {name} else RunningSet(actions) - {name}
  {
  }

  lemma OwnSet(s: State, name: string)
    requires Agrees(s) && name in s.actions
    ensures s.actions[name].bindings == Preimage(s.bindings, name)
    ensures name in RunningSet(s.actions) <==> s.actions[name].running
  {
    assert OwnSets(s.actions)[name] == OwnIndexes(s.bindings, s.actions.Keys)[name];
  }

  lemma AddActionAgrees(s: State, name: string, hasBegin: bool, hasRepeat: bool, hasEnd: bool)
    requires Agrees(s)
    ensures Agrees(ActionAdded(s, name, hasBegin, hasRepeat, hasEnd))
  {
    if name !in s.actions {
      assert Preimage(s.bindings, name) == {};
      SetAction(s.actions, name, Action(false, hasBegin, hasRepeat, hasEnd, {}));
      hide OwnSets, RunningSet, RunningMatches, OneComboPerKeysym, NamesByKeysym;
    }
  }

  /** The CHECK of AddBinding, where it is reached: that the name is not listed yet under the
      keysym. */
  ghost predicate CheckHolds(s: State, combo: KeyCombo, name: string) {
    combo !in s.bindings && name in s.actions ==> name !in ListedOn(s, combo.key)
  }

  /** The CHECK fails exactly if the action has another combo with the same keysym. */
  lemma CheckFailsExactly(s: State, combo: KeyCombo, name: string)
    requires Agrees(s)
    ensures CheckHolds(s, combo, name)
       <==> (combo !in s.bindings && name in s.actions ==> FreeOnKeysym(s.bindings, combo, name))
  {
    KeysymIndexEntry(s.bindings, combo.key);
    hide OwnSets, OwnIndexes, RunningMatches, OneComboPerKeysym;
  }

  lemma NotYetOwn(s: State, combo: KeyCombo, name: string)
    requires Agrees(s) && combo !in s.bindings && name in s.actions
    ensures combo !in s.actions[name].bindings
  {
    OwnSet(s, name);
    hide OwnSets, OwnIndexes, RunningMatches, OneComboPerKeysym;
  }

  lemma ListedAreActions(s: State, k: KeySym)
    requires Agrees(s)
    ensures ListedOn(s, k) <= s.actions.Keys
  {
    KeysymIndexEntry(s.bindings, k);
    hide OwnSets, OwnIndexes, RunningMatches, OneComboPerKeysym, NamesByKeysym;
  }

  lemma AddBindingAgrees(s: State, combo: KeyCombo, name: string)
    requires Agrees(s) && CheckHolds(s, combo, name)
    ensures Agrees(BindingAdded(s, combo, name))
  {
    if combo !in s.bindings && name in s.actions {
      var t := BindingAdded(s, combo, name);
      CheckFailsExactly(s, combo, name);
      hide ListedOn;
      MoreBindings(s.bindings, combo, name, RunningSet(s.actions), s.log);
      assert t.index == NamesByKeysym(t.bindings) by {
        KeysymIndexAfterAdd(s.bindings, combo, name);
        KeysymIndexEntry(s.bindings, combo.key);
      }
      assert OwnSets(t.actions) == OwnIndexes(t.bindings, t.actions.Keys) by {
        OwnSet(s, name);
        OwnIndexesAfterAdd(s.bindings, combo, name, s.actions.Keys);
        SetAction(s.actions, name, t.actions[name]);
        assert t.actions.Keys == s.actions.Keys;
      }
      assert RunningSet(t.actions) == RunningSet(s.actions);
      hide OwnSets, RunningSet, RunningMatches, OneComboPerKeysym, NamesByKeysym, OwnIndexes, FreeOnKeysym;
    }
  }

  /** Losing a binding stops its action. */
  lemma RunningAfterRemove(s: State, combo: KeyCombo, name: string)
    requires Agrees(s) && combo in s.bindings && s.bindings[combo] == name && name in s.actions
    ensures var log := s.log + if s.actions[name].running then [Event(name, Unbind, false)] else [];
            RunningMatches(RunningSet(s.actions) - {name}, s.bindings - {combo}, log)
    ensures OneComboPerKeysym(s.bindings - {combo}) && (s.bindings - {combo}).Values <= s.bindings.Values
  {
    OwnSet(s, name);
    var running := RunningSet(s.actions);
    var log := s.log + if s.actions[name].running then [Event(name, Unbind, false)] else [];
    hide OwnSets, RunningSet, RunningMatches, OneComboPerKeysym, NamesByKeysym, OwnIndexes;
    if s.actions[name].running {
      RunningAfterEvent(running, s.bindings, s.log, Event(name, Unbind, false));
    } else {
      assert running - {name} == running && log == s.log;
    }
    FewerBindings(s.bindings, combo, running - {name}, log);
  }

  lemma RemoveBindingAgrees(s: State, combo: KeyCombo)
    requires Agrees(s)
    ensures Agrees(BindingRemoved(s, combo))
    ensures combo in s.bindings ==>
              var name := s.bindings[combo];
              && name in s.actions && combo in s.actions[name].bindings
              && combo.key in s.index && name in s.index[combo.key]
  {
    hide OwnSets, RunningSet, RunningMatches, OneComboPerKeysym, NamesByKeysym, OwnIndexes;
    if combo in s.bindings {
      var name := s.bindings[combo];
      assert name in s.bindings.Values;
      var action := s.actions[name];
      OwnSet(s, name);
      KeysymIndexAfterRemove(s.bindings, combo);
      OwnIndexesAfterRemove(s.bindings, combo, s.actions.Keys);
      SetAction(s.actions, name, action.(running := false, bindings := action.bindings - {combo}));
      RunningAfterRemove(s, combo, name);
      assert BindingRemoved(s, combo).actions.Keys == s.actions.Keys;
    }
  }

  /** An event of an action that changes its running flag to match keeps the agreement. */
  lemma EventAgrees(s: State, e: Event)
    requires Agrees(s) && e.name in s.actions
    requires e.kind.Begin? <==> !s.actions[e.name].running
    requires e.kind.Begin? ==> e.name in s.bindings.Values
    ensures Agrees(s.(actions := s.actions[e.name := s.actions[e.name].(running := e.kind.Begin? || e.kind.Repeat?)],
                      log := s.log + [e]))
  {
    var action := s.actions[e.name].(running := e.kind.Begin? || e.kind.Repeat?);
    var actions := s.actions[e.name := action];
    assert OwnSets(actions) == OwnSets(s.actions) && actions.Keys == s.actions.Keys;
    assert RunningMatches(RunningSet(actions), s.bindings, s.log + [e]) by {
      SetAction(s.actions, e.name, action);
      hide RunningMatches, OneComboPerKeysym, NamesByKeysym, OwnIndexes;
      RunningAfterEvent(RunningSet(s.actions), s.bindings, s.log, e);
    }
    hide OwnSets, RunningSet, RunningMatches, OneComboPerKeysym, NamesByKeysym, OwnIndexes;
  }

  lemma PressAgrees(s: State, combo: KeyCombo)
    requires Agrees(s)
    ensures Agrees(Pressed(s, combo))
    ensures combo in s.bindings ==> s.bindings[combo] in s.actions
  {
    if combo in s.bindings {
      var name := s.bindings[combo];
      assert name in s.bindings.Values && name in s.actions;
      hide Agrees;
      var action := s.actions[name];
      EventAgrees(s, if action.running then Event(name, Repeat, action.hasRepeat)
                     else Event(name, Begin, action.hasBegin));
    }
  }

  lemma EndAgrees(s: State, name: string)
    requires Agrees(s)
    ensures Agrees(Ended(s, name))
  {
    hide Agrees;
    if name in s.actions && s.actions[name].running {
      EventAgrees(s, Event(name, End, s.actions[name].hasEnd));
    }
  }

  /** A release ends the actions of the keysym one after the other. */
  function EndedAll(s: State, names: seq<string>): State {
    if names == [] then s else Ended(EndedAll(s, names[..|names| - 1]), names[|names| - 1])
  }

  ghost predicate IsListing(order: seq<string>, names: set<string>) {
    && (forall i, j | 0 <= i < j < |order| :: order[i] != order[j])
    && (set n | n in order) == names
  }

  /** The names that a release of a keysym visits. */
  function ListedOn(s: State, k: KeySym): set<string> {
    if k in s.index then s.index[k] else {}
  }

  lemma {:induction false} EndedAllKeeps(s: State, order: seq<string>)
    requires Agrees(s)
    ensures var t := EndedAll(s, order);
            Agrees(t) && t.bindings == s.bindings && t.index == s.index && t.actions.Keys == s.actions.Keys
  {
    if order != [] {
      hide Agrees;
      EndedAllKeeps(s, order[..|order| - 1]);
      EndAgrees(EndedAll(s, order[..|order| - 1]), order[|order| - 1]);
    }
  }

  lemma EndedOne(s: State, last: string, name: string)
    ensures var t := Ended(s, last);
            && t.actions.Keys == s.actions.Keys
            && (name in s.actions ==>
                  t.actions[name] == s.actions[name].(running := s.actions[name].running && name != last))
            && History(t.log, name) == History(s.log, name) +
                 if name == last && name in s.actions && s.actions[name].running then [End] else []
  {
    if last in s.actions {
      HistorySnoc(s.log, Event(last, End, s.actions[last].hasEnd), name);
    }
  }

  /** However the names are ordered, a release ends exactly the running actions among them,
      once each. */
  lemma {:induction false} EndedAllMeaning(s: State, order: seq<string>, name: string)
    requires forall i, j | 0 <= i < j < |order| :: order[i] != order[j]
    ensures var t := EndedAll(s, order);
            && t.actions.Keys == s.actions.Keys
            && (name in s.actions ==>
                  t.actions[name] == s.actions[name].(running := s.actions[name].running && name !in order))
            && History(t.log, name) == History(s.log, name) +
                 if name in order && name in s.actions && s.actions[name].running then [End] else []
  {
    if order != [] {
      hide Ended, History;
      var init, last := order[..|order| - 1], order[|order| - 1];
      assert name in order <==> name in init || name == last;
      assert last !in init;
      EndedAllMeaning(s, init, name);
      EndedOne(EndedAll(s, init), last, name);
    }
  }

  lemma NoneListed(s: State)
    ensures IsListing([], {}) && EndedAll(s, []) == s
    ensures forall all: set<string> :: all - all == {}
  {
  }

  /** One more of the names of a release. */
  lemma ListingGoesOn(s: State, order: seq<string>, left: set<string>, all: set<string>, name: string)
    requires name in left && left <= all && IsListing(order, all - left)
    ensures IsListing(order + [name], all - (left - {name}))
    ensures EndedAll(s, order + [name]) == Ended(EndedAll(s, order), name)
    ensures name in s.actions ==> name in EndedAll(s, order).actions && EndedAll(s, order).actions[name] == s.actions[name]
  {
    assert name !in (set n | n in order);
    assert (order + [name])[..|order|] == order;
    EndedAllMeaning(s, order, name);
    hide Ended, History, EndedAll;
    assert (set n | n in order + [name]) == (set n | n in order) + {name};
  }

  // ----- What the calls come to

  /** A press with this keysym and these modifiers is meant for a combo. */
  predicate Meets(lower: KeySym -> KeySym, c: KeyCombo, k: KeySym, m: bv32) {
    c.key == lower(k) && WithCapsLock(c.modifiers) == WithCapsLock(m)
  }

  /** What a press tells an action: to begin, or to repeat if it is running. */
  function PressEvent(name: string, action: Action): Event {
    if action.running then Event(name, Repeat, action.hasRepeat) else Event(name, Begin, action.hasBegin)
  }

  /** A press begins or repeats exactly the action whose combo it is meant for. */
  lemma PressMeaning(s: State, lower: KeySym -> KeySym, k: KeySym, m: bv32, c: KeyCombo)
    requires Agrees(s) && c in s.bindings && !HasCapsLock(c.modifiers) && Meets(lower, c, k, m)
    ensures var name, t := s.bindings[c], Pressed(s, MakeCombo(lower, k, m));
            && name in s.actions && t.log == s.log + [PressEvent(name, s.actions[name])]
            && t.actions == s.actions[name := s.actions[name].(running := true)]
            && t.bindings == s.bindings && t.index == s.index
  {
    EventFindsCombo(lower, c, k, m);
    PressAgrees(s, c);
    hide Agrees, MakeCombo;
  }

  lemma PressMeans(s: State, lower: KeySym -> KeySym, k: KeySym, m: bv32)
    requires Agrees(s)
    ensures forall c | c in s.bindings && !HasCapsLock(c.modifiers) && Meets(lower, c, k, m) ::
              var name, t := s.bindings[c], Pressed(s, MakeCombo(lower, k, m));
              && name in s.actions && name in t.actions && t.actions[name].running
              && t.log == s.log + [PressEvent(name, s.actions[name])]
    ensures (forall c | c in s.bindings :: !HasCapsLock(c.modifiers) && !Meets(lower, c, k, m)) ==>
              Pressed(s, MakeCombo(lower, k, m)) == s
  {
    hide Agrees, MakeCombo, Meets, HasCapsLock, PressEvent, Pressed;
    forall c | c in s.bindings && !HasCapsLock(c.modifiers) && Meets(lower, c, k, m)
      ensures var name, t := s.bindings[c], Pressed(s, MakeCombo(lower, k, m));
              && name in s.actions && name in t.actions && t.actions[name].running
              && t.log == s.log + [PressEvent(name, s.actions[name])]
    {
      PressMeaning(s, lower, k, m, c);
    }
    if forall c | c in s.bindings :: !HasCapsLock(c.modifiers) && !Meets(lower, c, k, m) {
      PressMisses(s, lower, k, m);
    }
  }

  /** A press that is meant for no combo does nothing. */
  lemma PressMisses(s: State, lower: KeySym -> KeySym, k: KeySym, m: bv32)
    requires forall c | c in s.bindings :: !HasCapsLock(c.modifiers) && !Meets(lower, c, k, m)
    ensures Pressed(s, MakeCombo(lower, k, m)) == s
  {
    var c := MakeCombo(lower, k, m);
    if c in s.bindings {
      EventFindsCombo(lower, c, k, m);
    }
    hide MakeCombo;
  }

  lemma ComboIsUnlocked(lower: KeySym -> KeySym, k: KeySym, m: bv32)
    ensures !HasCapsLock(MakeCombo(lower, k, m).modifiers)
    ensures Meets(lower, MakeCombo(lower, k, m), k, m)
  {
    ClearedHasNone(m);
    hide *;
    ComboIs(lower, k, m);
    SetAfterClear(m);
    MeetsIs(lower, MakeCombo(lower, k, m), k, m);
    ClearedIsUnlocked(m);
  }

  lemma ClearedHasNone(m: bv32)
    ensures (m & !LOCK_MASK) & LOCK_MASK == 0
  {
  }

  lemma ClearedIsUnlocked(m: bv32)
    ensures !HasCapsLock(WithoutCapsLock(m))
  {
    ClearedHasNone(m);
  }

  lemma MeetsIs(lower: KeySym -> KeySym, c: KeyCombo, k: KeySym, m: bv32)
    ensures Meets(lower, c, k, m) <==> c.key == lower(k) && WithCapsLock(c.modifiers) == WithCapsLock(m)
  {
    hide WithCapsLock;
  }

  /** A new action with a new binding: the first press begins it, the second repeats it, the release
      ends it, each time running the closure if there is one of that kind, whatever Caps Lock is. */
  lemma SessionOfCalls(s: State, name: string, hasBegin: bool, hasRepeat: bool, hasEnd: bool,
                       lower: KeySym -> KeySym, k: KeySym, m: bv32, n: bv32)
    requires Agrees(s) && name !in s.actions && MakeCombo(lower, k, m) !in s.bindings
    requires WithCapsLock(m) == WithCapsLock(n)
    ensures var bound := BindingAdded(ActionAdded(s, name, hasBegin, hasRepeat, hasEnd), MakeCombo(lower, k, m), name);
            var pressed := Pressed(Pressed(bound, MakeCombo(lower, k, n)), MakeCombo(lower, k, n));
            && pressed.log == s.log + [Event(name, Begin, hasBegin), Event(name, Repeat, hasRepeat)]
            && name in ListedOn(pressed, lower(k))
            && Ended(pressed, name).log == pressed.log + [Event(name, End, hasEnd)]
  {
    var c := MakeCombo(lower, k, m);
    ComboIs(lower, k, m);
    ComboIs(lower, k, n);
    MaskedAlike(m, n);
    hide Agrees, MakeCombo, WithCapsLock, WithoutCapsLock;
    var added := ActionAdded(s, name, hasBegin, hasRepeat, hasEnd);
    var bound := BindingAdded(added, c, name);
    var once := Pressed(bound, c);
    assert once.log == s.log + [Event(name, Begin, hasBegin)];
    assert Pressed(once, c).log == once.log + [Event(name, Repeat, hasRepeat)];
  }

  /** Removing a binding takes away just that, and stops its action. */
  lemma BindingRemovedMeaning(s: State, combo: KeyCombo)
    requires Agrees(s) && combo in s.bindings
    ensures var name, t := s.bindings[combo], BindingRemoved(s, combo);
            && (forall c :: c in t.bindings <==> c in s.bindings && c != combo)
            && (forall c | c in t.bindings :: t.bindings[c] == s.bindings[c])
            && t.actions.Keys == s.actions.Keys && name in t.actions && !t.actions[name].running
            && (forall n | n in t.actions && n != name :: t.actions[n] == s.actions[n])
            && t.log == s.log + if s.actions[name].running then [Event(name, Unbind, false)] else []
  {
    RemoveBindingAgrees(s, combo);
    BindingRemovedIs(s, combo);
    hide Agrees, BindingRemoved;
  }

  /** Removing an action takes away just that and what is bound to it. */
  lemma ActionRemovedMeaning(s: State, name: string)
    requires name in s.actions
    ensures var t := ActionRemoved(s, name);
            && (forall c :: c in t.bindings <==> c in s.bindings && s.bindings[c] != name)
            && (forall c | c in t.bindings :: t.bindings[c] == s.bindings[c])
            && t.actions == s.actions - {name}
            && t.log == s.log + if s.actions[name].running then [Event(name, Unbind, false)] else []
  {
  }

  /** After a release of a keysym, whatever the modifiers, no action bound on it is running. */
  lemma NothingRunsAfterRelease(s: State, k: KeySym, order: seq<string>, combo: KeyCombo)
    requires Agrees(s) && IsListing(order, ListedOn(s, k))
    requires combo in s.bindings && combo.key == k
    ensures var t := EndedAll(s, order);
            s.bindings[combo] in t.actions && !t.actions[s.bindings[combo]].running
  {
    var name := s.bindings[combo];
    assert name in s.bindings.Values;
    KeysymIndexEntry(s.bindings, k);
    assert name in NamesOn(s.bindings, k);
    assert name in (set n | n in order);
    EndedAllMeaning(s, order, name);
  }

  /** RemoveAction takes exactly the action and its bindings away. */
  function ActionRemoved(s: State, name: string): State {
    if name !in s.actions then s
    else
      var bindings := s.bindings - Preimage(s.bindings, name);
      State(s.actions - {name}, bindings, NamesByKeysym(bindings),
            s.log + if s.actions[name].running then [Event(name, Unbind, false)] else [])
  }

  lemma RemoveActionAgrees(s: State, name: string)
    requires Agrees(s)
    ensures Agrees(ActionRemoved(s, name))
  {
    if name in s.actions {
      var t := ActionRemoved(s, name);
      OwnSet(s, name);
      assert t.bindings.Values <= t.actions.Keys && OneComboPerKeysym(t.bindings);
      assert OwnSets(t.actions) == OwnIndexes(t.bindings, t.actions.Keys) by {
        assert OwnSets(t.actions) == OwnSets(s.actions) - {name};
        forall n | n in t.actions
          ensures Preimage(t.bindings, n) == Preimage(s.bindings, n)
        {
        }
        assert OwnIndexes(t.bindings, t.actions.Keys) == OwnIndexes(s.bindings, s.actions.Keys) - {name};
      }
      var running := RunningSet(s.actions);
      assert RunningSet(t.actions) == running - {name};
      assert RunningMatches(running - {name}, s.bindings, t.log) by {
        if name in running {
          RunningAfterEvent(running, s.bindings, s.log, Event(name, Unbind, false));
        } else {
          assert running - {name} == running && t.log == s.log;
        }
      }
      hide OwnSets, RunningSet, OneComboPerKeysym, NamesByKeysym, OwnIndexes;
      OtherActionsStayBound(s.bindings, name, running - {name});
    }
  }

  lemma OtherActionsStayBound(bindings: Bindings, name: string, running: set<string>)
    requires running <= bindings.Values && name !in running
    ensures running <= (bindings - Preimage(bindings, name)).Values
  {
    var b := bindings - Preimage(bindings, name);
    forall n | n in running
      ensures n in b.Values
    {
      var c :| c in bindings && bindings[c] == n;
      assert c in b;
    }
  }

  // ----- Runs

  datatype Call =
    | CallAddAction(name: string, hasBegin: bool, hasRepeat: bool, hasEnd: bool)
    | CallRemoveAction(name: string)
    | CallAddBinding(combo: KeyCombo, name: string)
    | CallRemoveBinding(combo: KeyCombo)
    | CallPress(combo: KeyCombo)
    | CallRelease(key: KeySym)

  /** One call takes s to t; a call of AddBinding meets the CHECK. */
  ghost predicate Step(s: State, call: Call, t: State) {
    match call
    case CallAddAction(name, b, r, e) => t == ActionAdded(s, name, b, r, e)
    case CallRemoveAction(name) => t == ActionRemoved(s, name)
    case CallAddBinding(combo, name) => CheckHolds(s, combo, name) && t == BindingAdded(s, combo, name)
    case CallRemoveBinding(combo) => t == BindingRemoved(s, combo)
    case CallPress(combo) => t == Pressed(s, combo)
    case CallRelease(k) => exists order :: IsListing(order, ListedOn(s, k)) && t == EndedAll(s, order)
  }

  /** In every state of every run the indexes agree, every action's history is a prefix of
      (begin repeat* (end | unbind))*, and a running action has a binding. */
  lemma {:induction false} RunAgrees(states: seq<State>, calls: seq<Call>, i: nat)
    requires |states| == |calls| + 1 && states[0] == EMPTY
    requires forall k | 0 <= k < |calls| :: Step(states[k], calls[k], states[k + 1])
    requires i < |states|
    ensures Agrees(states[i])
    ensures forall n :: WellBracketed(History(states[i].log, n))
    ensures RunningSet(states[i].actions) <= states[i].bindings.Values
  {
    if i == 0 {
      EmptyAgrees();
    } else {
      RunAgrees(states, calls, i - 1);
      var s, t := states[i - 1], states[i];
      assert Step(s, calls[i - 1], t);
      StepAgrees(s, calls[i - 1], t);
    }
  }

  lemma EmptyAgrees()
    ensures Agrees(EMPTY)
  {
    assert OwnSets(EMPTY.actions) == OwnIndexes(EMPTY.bindings, EMPTY.actions.Keys);
  }

  lemma StepAgrees(s: State, call: Call, t: State)
    requires Agrees(s) && Step(s, call, t)
    ensures Agrees(t)
  {
    hide Agrees;
    match call
    case CallAddAction(name, b, r, e) => AddActionAgrees(s, name, b, r, e);
    case CallRemoveAction(name) => RemoveActionAgrees(s, name);
    case CallAddBinding(combo, name) => AddBindingAgrees(s, combo, name);
    case CallRemoveBinding(combo) => RemoveBindingAgrees(s, combo);
    case CallPress(combo) => PressAgrees(s, combo);
    case CallRelease(k) =>
      var order :| IsListing(order, ListedOn(s, k)) && t == EndedAll(s, order);
      EndedAllKeeps(s, order);
  }

  lemma NoValuesNoKeys<K, V>(m: map<K, V>)
    ensures m != map[] ==> m.Values != {}
  {
    if m != map[] {
      var k :| k in m;
      assert m[k] in m.Values;
    }
  }

  lemma LastUpdateWins<K, V>(m: map<K, V>, k: K, v: V, w: V)
    ensures m[k := v][k := w] == m[k := w]
  {
  }

  // ----- The class

  class KeyBindings {
    const lower: KeySym -> KeySym
    var actions: map<string, Action>
    var bindings: Bindings
    var actionNamesByKeysym: map<KeySym, set<string>>
    ghost var log: seq<Event>

    ghost function Abs(): State
      reads this
    {
      State(actions, bindings, actionNamesByKeysym, log)
    }

    ghost predicate Valid()
      reads this
    {
      Agrees(Abs())
    }

    constructor (lower: KeySym -> KeySym)
      ensures Valid() && Abs() == EMPTY && this.lower == lower
    {
      this.lower := lower;
      actions, bindings, actionNamesByKeysym, log := map[], map[], map[], [];
      new;
      EmptyAgrees();
    }

    method AddAction(name: string, hasBegin: bool, hasRepeat: bool, hasEnd: bool) returns (ok: bool)
      requires Valid() && name != ""
      modifies this
      ensures Valid() && Abs() == ActionAdded(old(Abs()), name, hasBegin, hasRepeat, hasEnd)
      ensures ok <==> name !in old(actions)
    {
      AddActionAgrees(Abs(), name, hasBegin, hasRepeat, hasEnd);
      hide Agrees;
      if name in actions {
        return false;
      }
      actions := actions[name := Action(false, hasBegin, hasRepeat, hasEnd, {})];
      return true;
    }

    /** The source's CHECK demands that the action has no other combo on the same keysym. */
    method AddBinding(combo: KeyCombo, name: string) returns (ok: bool)
      requires Valid() && CheckHolds(Abs(), combo, name)
      modifies this
      ensures Valid() && Abs() == BindingAdded(old(Abs()), combo, name)
      ensures ok <==> combo !in old(bindings) && name in old(actions)
    {
      hide Agrees;
      if combo in bindings {
        return false;
      }
      if name !in actions {
        return false;
      }
      AddBindingAgrees(Abs(), combo, name);
      var action := actions[name];
      assert combo !in action.bindings by {
        NotYetOwn(Abs(), combo, name);
      }
      actions := actions[name := action.(bindings := action.bindings + {combo})];
      assert combo !in bindings;
      bindings := bindings[combo := name];
      var listed := if combo.key in actionNamesByKeysym then actionNamesByKeysym[combo.key] else {};
      assert name !in listed;
      actionNamesByKeysym := actionNamesByKeysym[combo.key := listed + {name}];
      return true;
    }

    /** Removing a combo closes its action if it is running, whatever keys are held. */
    method RemoveBinding(combo: KeyCombo) returns (ok: bool)
      requires Valid()
      modifies this
      ensures Valid() && Abs() == BindingRemoved(old(Abs()), combo)
      ensures ok <==> combo in old(bindings)
    {
      hide Agrees;
      RemoveBindingAgrees(Abs(), combo);
      if combo !in bindings {
        assert bindings - {combo} == bindings;
        return false;
      }
      var name := bindings[combo];
      assert name in actions;
      var action := actions[name];
      assert combo in action.bindings;
      LastUpdateWins(actions, name, action.(bindings := action.bindings - {combo}),
                     action.(running := false, bindings := action.bindings - {combo}));
      actions := actions[name := action.(bindings := action.bindings - {combo})];
      assert combo.key in actionNamesByKeysym && name in actionNamesByKeysym[combo.key];
      var listed := actionNamesByKeysym[combo.key] - {name};
      if listed == {} {
        actionNamesByKeysym := actionNamesByKeysym - {combo.key};
      } else {
        actionNamesByKeysym := actionNamesByKeysym[combo.key := listed];
      }
      bindings := bindings - {combo};
      log := log + if action.running then [Event(name, Unbind, false)] else [];
      actions := actions[name := actions[name].(running := false)];
      return true;
    }

    /** Returns whether a closure was run. */
    method HandleKeyPress(keysym: KeySym, modifiers: bv32) returns (ran: bool)
      requires Valid()
      modifies this
      ensures Valid() && Abs() == Pressed(old(Abs()), MakeCombo(lower, keysym, modifiers))
      ensures forall c | c in old(bindings) && !HasCapsLock(c.modifiers) && Meets(lower, c, keysym, modifiers) ::
                var name := old(bindings)[c];
                && name in old(actions) && name in actions && actions[name].running
                && log == old(log) + [PressEvent(name, old(actions)[name])]
      ensures (forall c | c in old(bindings) :: !HasCapsLock(c.modifiers) && !Meets(lower, c, keysym, modifiers)) ==>
                Abs() == old(Abs()) && !ran
      ensures ran <==> |log| > |old(log)| && log[|old(log)|].ran
    {
      hide Agrees, MakeCombo, Meets, HasCapsLock, PressEvent;
      var combo := MakeCombo(lower, keysym, modifiers);
      PressAgrees(Abs(), combo);
      PressMeans(Abs(), lower, keysym, modifiers);
      if combo !in bindings {
        return false;
      }
      var name := bindings[combo];
      assert name in actions;
      var action := actions[name];
      if action.running {
        assert actions[name := action.(running := true)] == actions;
        log := log + [Event(name, Repeat, action.hasRepeat)];
        if action.hasRepeat {
          return true;
        }
      } else {
        actions := actions[name := action.(running := true)];
        log := log + [Event(name, Begin, action.hasBegin)];
        if action.hasBegin {
          return true;
        }
      }
      return false;
    }

    /** Ends every running action of the keysym, whatever the modifiers of the release are. */
    method HandleKeyRelease(keysym: KeySym, modifiers: bv32) returns (ranEndClosure: bool)
      requires Valid()
      modifies this
      ensures Valid()
      ensures exists order ::
                IsListing(order, ListedOn(old(Abs()), lower(keysym))) && Abs() == EndedAll(old(Abs()), order)
      ensures ranEndClosure <==>
                exists n | n in ListedOn(old(Abs()), lower(keysym)) ::
                  n in old(actions) && old(actions)[n].running && old(actions)[n].hasEnd
    {
      hide Agrees, IsListing, EndedAll;
      var combo := MakeCombo(lower, keysym, modifiers);
      ghost var before := Abs();
      ghost var order: seq<string> := [];
      ghost var all := ListedOn(before, combo.key);
      NoneListed(before);
      if combo.key !in actionNamesByKeysym {
        return false;
      }
      ranEndClosure := false;
      var left := actionNamesByKeysym[combo.key];
      ListedAreActions(before, combo.key);
      while left != {}
        invariant Valid() && Abs() == EndedAll(before, order)
        invariant left <= all && IsListing(order, all - left)
        invariant actions.Keys == before.actions.Keys
        invariant ranEndClosure <==>
          exists n | n in all - left :: n in before.actions && before.actions[n].running && before.actions[n].hasEnd
        decreases left
      {
        var name :| name in left;
        ListingGoesOn(before, order, left, all, name);
        left := left - {name};
        EndAgrees(Abs(), name);
        order := order + [name];
        assert name in actions.Keys;
        var action := actions[name];
        if action.running {
          actions := actions[name := action.(running := false)];
          log := log + [Event(name, End, action.hasEnd)];
          if action.hasEnd {
            ranEndClosure := true;
          }
        }
      }
      assert all - left == all;
    }

    /** Takes the action away with exactly its own bindings. */
    method RemoveAction(name: string) returns (ok: bool)
      requires Valid()
      modifies this
      ensures Valid() && Abs() == ActionRemoved(old(Abs()), name)
      ensures ok <==> name in old(actions)
    {
      if name !in actions {
        return false;
      }
      ghost var before := Abs();
      ghost var removed: set<KeyCombo> := {};
      RemovalStarts(before, name);
      hide Agrees, RemovedSoFar;
      while actions[name].bindings != {}
        invariant Valid() && name in actions
        invariant RemovedSoFar(before, name, removed, Abs())
        decreases |actions[name].bindings|
      {
        var combo :| combo in actions[name].bindings;
        RemovalGoesOn(before, name, removed, Abs(), combo);
        var done := RemoveBinding(combo);
        assert done;
        removed := removed + {combo};
      }
      RemovalEnds(before, name, removed, Abs());
      RemoveActionAgrees(before, name);
      assert actions[name].bindings == {};
      actions := actions - {name};
      return true;
    }

    /** The destructor: with the actions gone, no binding is left. */
    method Destroy()
      requires Valid()
      modifies this
      ensures Valid() && actions == map[] && bindings == map[]
    {
      while actions != map[]
        invariant Valid()
        decreases |actions|
      {
        var name :| name in actions;
        var ok := RemoveAction(name);
      }
      NoValuesNoKeys(bindings);
    }
  }

  /** In the middle of RemoveAction: some of the action's bindings are gone, nothing else. */
  ghost predicate RemovedSoFar(before: State, name: string, removed: set<KeyCombo>, s: State) {
    && name in before.actions && name in s.actions
    && removed <= Preimage(before.bindings, name)
    && s.bindings == before.bindings - removed
    && s.actions == before.actions[name := s.actions[name]]
    && s.actions[name].running == (before.actions[name].running && removed == {})
    && s.log == before.log + if before.actions[name].running && removed != {} then [Event(name, Unbind, false)] else []
  }

  lemma RemovalStarts(s: State, name: string)
    requires name in s.actions
    ensures RemovedSoFar(s, name, {}, s)
  {
    assert s.bindings - {} == s.bindings;
    assert s.actions[name := s.actions[name]] == s.actions;
  }

  lemma BindingRemovedIs(s: State, combo: KeyCombo)
    requires combo in s.bindings && s.bindings[combo] in s.actions && combo.key in s.index
    ensures var t, name := BindingRemoved(s, combo), s.bindings[combo];
            var action := s.actions[name];
            && t.bindings == s.bindings - {combo}
            && t.actions == s.actions[name := action.(running := false, bindings := action.bindings - {combo})]
            && t.log == s.log + if action.running then [Event(name, Unbind, false)] else []
  {
  }

  lemma PreimageHas(bindings: Bindings, name: string, combo: KeyCombo)
    ensures combo in Preimage(bindings, name) <==> combo in bindings && bindings[combo] == name
  {
  }

  lemma RemovalGoesOn(before: State, name: string, removed: set<KeyCombo>, s: State, combo: KeyCombo)
    requires Agrees(s) && RemovedSoFar(before, name, removed, s)
    requires combo in s.actions[name].bindings
    ensures RemovedSoFar(before, name, removed + {combo}, BindingRemoved(s, combo))
    ensures name in BindingRemoved(s, combo).actions
    ensures |BindingRemoved(s, combo).actions[name].bindings| < |s.actions[name].bindings|
  {
    hide Agrees, BindingRemoved, Preimage;
    OwnSet(s, name);
    PreimageHas(s.bindings, name, combo);
    RemoveBindingAgrees(s, combo);
    assert s.bindings[combo] == name && before.bindings[combo] == name;
    var t := BindingRemoved(s, combo);
    BindingRemovedIs(s, combo);
    PreimageHas(before.bindings, name, combo);
    LastUpdateWins(before.actions, name, s.actions[name], t.actions[name]);
    assert t.bindings == before.bindings - (removed + {combo});
    assert t.actions[name].bindings == s.actions[name].bindings - {combo};
  }

  lemma RemovalEnds(before: State, name: string, removed: set<KeyCombo>, s: State)
    requires Agrees(before) && Agrees(s) && RemovedSoFar(before, name, removed, s)
    requires s.actions[name].bindings == {}
    ensures s.(actions := s.actions - {name}) == ActionRemoved(before, name)
  {
    OwnSet(before, name);
    OwnSet(s, name);
    assert forall c | c in Preimage(before.bindings, name) && c !in removed :: c in Preimage(s.bindings, name);
    assert removed == Preimage(before.bindings, name);
    assert before.actions[name].running ==> removed != {};
    assert s.actions - {name} == before.actions - {name};
  }
}

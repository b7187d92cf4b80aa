/** Inputs at which the code fails what it is meant to do.  Each of them meets what the theorem on
    the exact condition asks for, and can come up in the source. */
module FailingInputs {
  import opened Options
  import opened Sequences
  import A = ActionProcessors
  import C = FilesystemCopiers
  import E = Extents
  import K = KeyBindingIndexes
  import L = LayoutManagers
  import O = OverviewLayout
  import R = ScriptRunners
  import S = SourceTree
  import T = Transients

  // ----- Extents

  /** A sparse hole followed by block 0: the run of the hole grows. */
  lemma HoleBeforeBlockZero()
    ensures E.Compress([E.SPARSE_HOLE, 0]) == [E.Extent(E.SPARSE_HOLE, 2)]
    ensures E.Expand(E.Compress([E.SPARSE_HOLE, 0])) != [E.SPARSE_HOLE, 0]
  {
    var hole := [E.Extent(E.SPARSE_HOLE, 1)];
    assert Front([E.SPARSE_HOLE, 0]) == [E.SPARSE_HOLE] && Front([E.SPARSE_HOLE]) == [];
    assert E.AppendedAll([], [E.SPARSE_HOLE]) == E.Appended([], E.SPARSE_HOLE) == [] + hole == hole;
    assert E.Expand(hole) == [E.SPARSE_HOLE];
    E.AppendMeaning(hole, 0);
  }

  // ----- The copy

  function File(dev: nat, ino: nat, nlink: nat, content: seq<bv8>): S.Node {
    S.Node(S.Stat(S.Regular, dev, ino, nlink, |content|, 0), content, S.End)
  }

  function Root(entries: S.Stream): S.Node {
    S.Node(S.Stat(S.Directory, 1, 2, 2, 4096, 0), [], entries)
  }

  function TwoFiles(x: string, a: S.Node, y: string, b: S.Node): S.Node {
    Root(S.Entry(x, a, S.Entry(y, b, S.End)))
  }

  /** An ordinary name, and one that the copy does not exclude. */
  predicate Plain(name: string) {
    name != "" && '/' !in name && !S.IsDot(name) && name[0] != 'l'
  }

  /** The listing of a directory that begins with a file. */
  lemma FileListed(dev: nat, name: string, file: S.Node, rest: S.Stream)
    requires file.stat.kind.Regular? && !S.IsDot(name)
    ensures S.Listing(dev, [], S.Entry(name, file, rest)) == [S.Visit([name], file)] + S.Listing(dev, [], rest)
  {
    hide S.WellFormed, S.IsDot;
    assert [] + [name] == [name];
    assert S.Preorder(dev, [name], file) == [S.Visit([name], file)] + [];
  }

  lemma VisitKept(name: string, file: S.Node, rest: seq<S.Visit>)
    requires name != "" && name[0] != 'l'
    ensures S.Kept([S.Visit([name], file)] + rest, {C.COPY_EXCLUSION_PREFIX})
         == [S.Visit([name], file)] + S.Kept(rest, {C.COPY_EXCLUSION_PREFIX})
  {
    assert Front([name]) == [] && Last([name]) == name;
    assert S.PartialPath([name]) == "" + "/" + name;
    assert S.PartialPath([name])[1] != C.COPY_EXCLUSION_PREFIX[1];
    assert ([S.Visit([name], file)] + rest)[1..] == rest;
  }

  /** The walk of a root that has only files. */
  lemma RootKept(root: S.Node, rest: seq<S.Visit>)
    ensures S.Kept([S.Visit([], root)] + rest, {C.COPY_EXCLUSION_PREFIX})
         == [S.Visit([], root)] + S.Kept(rest, {C.COPY_EXCLUSION_PREFIX})
  {
    assert S.PartialPath([]) == "";
    assert ([S.Visit([], root)] + rest)[1..] == rest;
  }

  lemma WalkOfOne(name: string, file: S.Node)
    requires file.stat.kind.Regular? && file.entries.End?
    requires Plain(name)
    ensures var source := Root(S.Entry(name, file, S.End));
            && S.WellFormed(source)
            && C.SourceWalk(source) == [S.Visit([], source), S.Visit([name], file)]
            && C.CopyAll(C.SourceWalk(source)).Some?
  {
    hide S.Kept, C.Walked, C.CopyAll;
    var source := Root(S.Entry(name, file, S.End));
    assert S.WellFormed(file);
    FileListed(1, name, file, S.End);
    var first, last := S.Visit([], source), S.Visit([name], file);
    assert S.Preorder(1, [], source) == [first] + ([last] + []);
    hide S.WellFormed, S.Preorder;
    RootKept(source, [last] + []);
    VisitKept(name, file, []);
    NothingKept();
    C.WalkCanBeCopied(source);
    NoneIsTooLong(C.SourceWalk(source));
  }

  lemma TwoAreWellFormed(x: string, a: S.Node, y: string, b: S.Node)
    requires Plain(x) && Plain(y) && x != y && a.entries.End? && b.entries.End?
    ensures S.WellFormed(TwoFiles(x, a, y, b))
  {
    assert S.WellFormed(a) && S.WellFormed(b);
    assert S.WellFormedStream(S.Entry(y, b, S.End)) && !S.Names(S.Entry(y, b, S.End), x);
    assert S.WellFormedStream(TwoFiles(x, a, y, b).entries);
  }

  lemma TwoListed(x: string, a: S.Node, y: string, b: S.Node)
    requires Plain(x) && Plain(y) && a.stat.kind.Regular? && b.stat.kind.Regular?
    ensures S.Preorder(1, [], TwoFiles(x, a, y, b))
         == [S.Visit([], TwoFiles(x, a, y, b))] + ([S.Visit([x], a)] + ([S.Visit([y], b)] + []))
  {
    hide S.WellFormed, S.IsDot;
    FileListed(1, x, a, S.Entry(y, b, S.End));
    FileListed(1, y, b, S.End);
  }

  lemma NoneIsTooLong(vs: seq<S.Visit>)
    requires vs != [] && C.Walked(vs) && forall i | 0 <= i < |vs| :: !vs[i].node.stat.kind.SymLink?
    ensures C.CopyAll(vs).Some?
  {
    C.CopyKeepsInvariant(vs, |vs|);
  }

  lemma WalkOfTwo(x: string, a: S.Node, y: string, b: S.Node)
    requires Plain(x) && Plain(y) && x != y
    requires a.stat.kind.Regular? && b.stat.kind.Regular? && a.entries.End? && b.entries.End?
    ensures var source := TwoFiles(x, a, y, b);
            && S.WellFormed(source)
            && C.SourceWalk(source) == [S.Visit([], source), S.Visit([x], a), S.Visit([y], b)]
            && C.CopyAll(C.SourceWalk(source)).Some?
  {
    hide S.WellFormed, S.Preorder, S.Kept, C.Walked, C.CopyAll;
    var source := TwoFiles(x, a, y, b);
    TwoAreWellFormed(x, a, y, b);
    TwoListed(x, a, y, b);
    var first, second, third := S.Visit([], source), S.Visit([x], a), S.Visit([y], b);
    RootKept(source, [second] + ([third] + []));
    VisitKept(x, a, [third] + []);
    VisitKept(y, b, []);
    NothingKept();
    C.WalkCanBeCopied(source);
    NoneIsTooLong(C.SourceWalk(source));
  }

  lemma AAndB()
    ensures Plain("a") && Plain("b") && "a" != "b"
  {
    assert "a"[0] != "b"[0] && "a"[0] != "."[0] && "b"[0] != "."[0];
  }

  lemma NothingKept()
    ensures S.Kept([], {C.COPY_EXCLUSION_PREFIX}) == []
  {
  }

  /** Two linked files of different devices with one inode number: the second one is lost. */
  lemma ClashIsUnfaithful()
    ensures var source := TwoFiles("a", File(1, 5, 2, [1]), "b", File(2, 5, 2, [2]));
            var vs := C.SourceWalk(source);
            && S.WellFormed(source) && C.SameStat(vs) && C.NamesAreLinks(vs) && !C.NoInodeClash(vs)
            && C.CopyAll(vs).Some? && !C.Faithful(vs, C.CopyAll(vs).value.fs)
  {
    var source := TwoFiles("a", File(1, 5, 2, [1]), "b", File(2, 5, 2, [2]));
    AAndB();
    WalkOfTwo("a", File(1, 5, 2, [1]), "b", File(2, 5, 2, [2]));
    hide S.WellFormed, C.SourceWalk, C.CopyAll, C.Faithful;
    var vs := C.SourceWalk(source);
    assert C.SameKey(vs[1].node, vs[2].node) && vs[1].node.stat.dev != vs[2].node.stat.dev;
    C.CopyOfSource(source);
  }

  /** A file with a single link on a device that is mounted at two places: it is copied twice. */
  lemma MountedTwiceIsUnfaithful()
    ensures var source := TwoFiles("a", File(2, 5, 1, [7]), "b", File(2, 5, 1, [7]));
            var vs := C.SourceWalk(source);
            && S.WellFormed(source) && C.SameStat(vs) && C.NoInodeClash(vs) && !C.NamesAreLinks(vs)
            && C.CopyAll(vs).Some? && !C.Faithful(vs, C.CopyAll(vs).value.fs)
  {
    var source := TwoFiles("a", File(2, 5, 1, [7]), "b", File(2, 5, 1, [7]));
    AAndB();
    WalkOfTwo("a", File(2, 5, 1, [7]), "b", File(2, 5, 1, [7]));
    hide S.WellFormed, C.SourceWalk, C.CopyAll, C.Faithful;
    var vs := C.SourceWalk(source);
    assert C.SameFile(vs[1].node, vs[2].node) && vs[1].node.stat.nlink <= 1;
    C.CopyOfSource(source);
  }

  const MARKER_NAME: string := C.MARKER[0]

  lemma MarkerNameIsPlain()
    ensures Plain(MARKER_NAME) && Plain("vmlinuz") && MARKER_NAME != "vmlinuz"
  {
    assert MARKER_NAME[0] == 'u';
  }

  /** A source that is itself a copy has an empty marker.  Anything that is copied after it is
      missing while the destination has the marker already. */
  lemma MarkerOfSourceIsExposed()
    ensures var source := TwoFiles(MARKER_NAME, File(1, 5, 1, []), "vmlinuz", File(1, 6, 1, [7]));
            && S.WellFormed(source) && C.CopyAll(C.SourceWalk(source)).Some?
            && C.MarkerExposed(C.SourceWalk(source))
  {
    MarkerNameIsPlain();
    var source := TwoFiles(MARKER_NAME, File(1, 5, 1, []), "vmlinuz", File(1, 6, 1, [7]));
    WalkOfTwo(MARKER_NAME, File(1, 5, 1, []), "vmlinuz", File(1, 6, 1, [7]));
    hide S.WellFormed, C.SourceWalk, C.CopyAll;
    assert C.ExposedBy(C.SourceWalk(source), 1);
  }

  /** A marker that is copied last is safe if it is empty, but not if it has content. */
  lemma WrittenMarkerIsExposed(content: seq<bv8>)
    ensures var source := Root(S.Entry(MARKER_NAME, File(1, 5, 1, content), S.End));
            && S.WellFormed(source) && C.CopyAll(C.SourceWalk(source)).Some?
            && (C.MarkerExposed(C.SourceWalk(source)) <==> content != [])
  {
    MarkerNameIsPlain();
    var source := Root(S.Entry(MARKER_NAME, File(1, 5, 1, content), S.End));
    WalkOfOne(MARKER_NAME, File(1, 5, 1, content));
    hide S.WellFormed, C.SourceWalk, C.CopyAll;
    var vs := C.SourceWalk(source);
    if content != [] {
      assert C.ExposedBy(vs, 1);
    }
  }

  // ----- Key bindings

  const CTRL_A := K.KeyCombo(97, 4)
  const ALT_A := K.KeyCombo(97, 8)

  /** An action with two combos of the same keysym: the CHECK of AddBinding aborts. */
  lemma TwoCombosOfOneKeysym()
    ensures var s1 := K.ActionAdded(K.EMPTY, "zoom", true, false, false);
            var s2 := K.BindingAdded(s1, CTRL_A, "zoom");
            && K.Step(K.EMPTY, K.CallAddAction("zoom", true, false, false), s1)
            && K.Step(s1, K.CallAddBinding(CTRL_A, "zoom"), s2)
            && ALT_A !in s2.bindings && "zoom" in s2.actions && !K.CheckHolds(s2, ALT_A, "zoom")
  {
    var s1 := K.ActionAdded(K.EMPTY, "zoom", true, false, false);
    var s2 := K.BindingAdded(s1, CTRL_A, "zoom");
    assert "zoom" in s1.actions && s2 == K.State(s2.actions, map[CTRL_A := "zoom"], map[97 := {} + {"zoom"}], []);
  }

  // ----- Typing

  const XK_A: R.KeySym := 0x41
  const XK_SMALL_A: R.KeySym := 0x61

  function Lower(s: R.KeySym): R.KeySym {
    if s == XK_A then XK_SMALL_A else s
  }

  function Upper(s: R.KeySym): R.KeySym {
    if s == XK_SMALL_A then XK_A else s
  }

  /** A keyboard whose letter key has only the capital letter on it. */
  const CAPITALS: R.Keyboard :=
    R.Keyboard(R.Mapping(8, 2, [[XK_A, R.NO_SYMBOL], [R.XK_SHIFT_L, R.NO_SYMBOL]]), {9}, Lower, Upper)

  const CAPITALS_TABLE: R.Table := map[XK_A := (8, false), R.XK_SHIFT_L := (9, false)]

  lemma CapitalsInverted()
    ensures CAPITALS.mapping.Valid() && R.Inverts(CAPITALS.mapping, CAPITALS_TABLE)
  {
    var m := CAPITALS.mapping;
    forall s: R.KeySym
      ensures R.EntryIs(m, 2, 2, CAPITALS_TABLE, s)
    {
      assert m.FirstRow(0, 1, s) == if s == XK_A then Some(0) else None;
      assert m.FirstRow(0, 2, s) == if s == XK_A then Some(0) else if s == R.XK_SHIFT_L then Some(1) else None;
      assert s != R.NO_SYMBOL ==> m.FirstRow(1, 1, s).None? && m.FirstRow(1, 2, s).None?;
    }
  }

  lemma LetterIsRead()
    ensures R.Scan(map["A" := XK_A], "A") == Some([XK_A])
  {
    var names := map["A" := XK_A];
    assert ['A'] == "A" && "A"[1..] == "";
    assert R.First(names, "A") == Some((XK_A, 1));
    assert R.Scan(names, "") == Some([]);
    assert [XK_A] + [] == [XK_A];
  }

  /** The text of that letter is accepted, and something else is typed. */
  lemma CapitalTypesAnother()
    ensures R.Scan(map["A" := XK_A], "A") == Some([XK_A])
    ensures CAPITALS.mapping.Valid() && R.Inverts(CAPITALS.mapping, CAPITALS_TABLE)
    ensures R.ShiftLShifts(CAPITALS) && R.AllIn(CAPITALS_TABLE, [XK_A])
    ensures var events := R.EventsForAll(CAPITALS_TABLE, CAPITALS_TABLE[R.XK_SHIFT_L].0, [XK_A]);
            && (forall i | 0 <= i < |events| :: CAPITALS.HasKey(events[i].key))
            && CAPITALS.Types({}, events) != [XK_A]
  {
    LetterIsRead();
    CapitalsInverted();
    var m := CAPITALS.mapping;
    assert m.FirstRow(0, 1, XK_A) == Some(0) && m.FirstRow(0, 2, XK_A) == Some(0);
    assert R.BareCapital(CAPITALS, [XK_A][0]);
    R.AcceptedTextTypesItself(CAPITALS, CAPITALS_TABLE, [XK_A]);
  }

  // ----- Overview mode

  function Window(width: int, height: int): O.Toplevel {
    O.Toplevel(width, height, 0, 0, 0, 0, 1.0)
  }

  lemma OverviewHeightOf768()
    ensures O.OverviewHeight(768) == 230
  {
  }

  /** A hundred and twenty maximized windows on a screen of 1024 by 768 pixels get negative
      widths, and there is no warning. */
  lemma TooManyWindows(i: nat)
    requires i < 120
    ensures var screen, ts := O.Screen(1024, 768, O.OverviewHeight(768), None, None), seq(120, _ => Window(1024, 768));
            screen.Valid(ts) && screen.Width(ts, i) < 0 && !screen.Overflows(ts)
  {
    OverviewHeightOf768();
    hide O.OverviewHeight;
    var screen, ts := O.Screen(1024, 768, O.OverviewHeight(768), None, None), seq(120, _ => Window(1024, 768));
    screen.WidthsNegativeExactly(ts, i);
    screen.OverflowsExactly(ts);
    hide O.Screen.Width, O.Screen.Overflows;
  }

  /** A window that has resized itself to the height of the overview area is not scaled down when
      it is magnified; there is no room for the create-browser window beside it. */
  lemma MagnifiedAndCreateBrowser()
    ensures var screen, ts := O.Screen(1024, 768, O.OverviewHeight(768), Some(0), Some(30)), [Window(1024, 230)];
            screen.Valid(ts) && screen.Overflows(ts)
  {
    OverviewHeightOf768();
    hide O.OverviewHeight;
    var screen, ts := O.Screen(1024, 768, O.OverviewHeight(768), Some(0), Some(30)), [Window(1024, 230)];
    assert O.Scale(ts[0], 1024, 230) == 1.0;
    screen.OverflowsExactly(ts);
    hide O.Screen.Overflows;
  }

  // ----- Transients

  /** A modal transient in the layer for transients, and a window that is not modal. */
  const WITH_MODAL: T.Stage :=
    T.Stage(T.Toplevel(map[3 := T.Transient(T.Window(3, true, false), true)], [3], Some(3)), 1, 2, [2, 3, 4, 1])

  /** The window becomes a transient; it belongs below the modal one and is put above it. */
  lemma AddedBelowModal()
    ensures WITH_MODAL.Valid() && WITH_MODAL.Mapped(4) && WITH_MODAL.Agrees()
    ensures !WITH_MODAL.Added(T.Window(4, false, false), false).Agrees()
  {
    var w := T.Window(4, false, false);
    assert WITH_MODAL.Valid();
    assert WITH_MODAL.Agrees();
    assert WITH_MODAL.top.AddTarget(w, 0).None?;
    assert WITH_MODAL.BelowAnchor(false)[0] == 3;
    hide T.Stage.Valid, T.Stage.Agrees, T.Stage.Added;
    WITH_MODAL.AddedAgreesExactly(w, false);
  }

  // ----- Modes

  /** One toplevel, 1, in active mode, with the input window 11. */
  const ONE_TOPLEVEL: L.State :=
    L.State(L.ActiveMode, [1], map[1 := L.Toplevel(11, true, L.OnScreen, L.Stayed)],
            Some(1), None, None, map[11 := 1], map[])

  lemma OneToplevelIsValid()
    ensures ONE_TOPLEVEL.Valid() && ONE_TOPLEVEL.MagnifiedShown()
  {
    assert ONE_TOPLEVEL.tops.Keys == {1};
  }

  lemma MagnifiedUnseen()
    ensures ONE_TOPLEVEL.Valid() && ONE_TOPLEVEL.MagnifiedShown()
    ensures !ONE_TOPLEVEL.SwitchedByMessage(1).MagnifiedShown()
  {
    OneToplevelIsValid();
    hide L.State.Valid;
    ONE_TOPLEVEL.SwitchedByMessageKeeps(1);
  }

  /** The toplevel gets a transient, 2, and is unmapped before it. */
  lemma TransientOrphaned()
    ensures var s := ONE_TOPLEVEL.(owners := map[2 := 1]);
            s.Valid() && !s.Unmapped(1).Valid()
  {
    var s := ONE_TOPLEVEL.(owners := map[2 := 1]);
    OneToplevelIsValid();
    assert s.Valid() by {
      assert s.tops.Keys == {1};
    }
    hide L.State.Valid;
    assert 2 in s.owners && s.owners[2] == 1;
    s.UnmappedKeepsExactly(1);
  }

  // ----- Actions

  const NOTHING: A.Processor := A.Processor([], None, {}, {}, [])

  /** The second of two actions, dropped because the first one fails, cannot be queued again. */
  lemma DroppedForGood(w: A.World)
    requires !w.atOnce(1)
    ensures var started := NOTHING.Enqueued(1).Enqueued(2).Started(w);
            && NOTHING.Valid() && NOTHING.Allows(A.Enqueue(1)) && NOTHING.Enqueued(1).Allows(A.Enqueue(2))
            && started.IsRunning()
            && var failed := started.Completed(w, false);
            && !failed.IsRunning() && failed.queue == [] && !failed.Allows(A.Enqueue(2))
  {
    var queued := NOTHING.Enqueued(1).Enqueued(2);
    assert queued.queue == [1, 2] && queued.queue[1..] == [2];
    assert 2 in [2];
  }
}

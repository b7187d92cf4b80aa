/** The resumable walk of a filesystem: a stack of open directory streams and the names that
    lead to the current file. */
module FilesystemIterators {
  import opened Options
  import opened Sequences
  import opened SourceTree

  /** What is left of the walk below the current file, deepest open directory first. */
  function Pending(dev: nat, dirs: seq<Stream>, names: Path): seq<Visit>
    requires |dirs| <= |names| + 1
  {
    if dirs == [] then []
    else
      var n := |dirs| - 1;
      Listing(dev, names[..n], dirs[n]) + Pending(dev, dirs[..n], names)
  }

  lemma {:induction false} PendingIgnoresLast(dev: nat, dirs: seq<Stream>, names: Path, other: Path)
    requires |dirs| <= |names| + 1 && |dirs| <= |other| + 1
    requires forall i | 0 <= i < |dirs| - 1 :: names[i] == other[i]
    ensures Pending(dev, dirs, names) == Pending(dev, dirs, other)
  {
    if dirs != [] {
      var n := |dirs| - 1;
      assert names[..n] == other[..n];
      PendingIgnoresLast(dev, dirs[..n], names, other);
    }
  }

  // ----- Work left, the reason why the walk ends

  function NodeSize(node: Node): nat
    decreases node, 1
  {
    1 + StreamSize(node.entries)
  }

  function StreamSize(s: Stream): nat
    decreases s, 0
  {
    match s
    case End => 1
    case Entry(_, node, rest) => 1 + NodeSize(node) + StreamSize(rest)
  }

  function StackSize(dirs: seq<Stream>): nat {
    if dirs == [] then 0 else StackSize(dirs[..|dirs| - 1]) + StreamSize(dirs[|dirs| - 1])
  }

  // ----- Open streams match the tree

  /** Every entry of a stream is the one that its name resolves to in the full directory. */
  predicate StreamOf(s: Stream, full: Stream) {
    s.Entry? ==> Find(full, s.name) == Some(s.node) && StreamOf(s.rest, full)
  }

  lemma {:induction false} StreamOfGrows(s: Stream, full: Stream, name: string, node: Node)
    requires StreamOf(s, full) && !Names(s, name)
    ensures StreamOf(s, Entry(name, node, full))
  {
    if s.Entry? {
      StreamOfGrows(s.rest, full, name, node);
    }
  }

  lemma {:induction false} WholeStream(s: Stream)
    requires WellFormedStream(s)
    ensures StreamOf(s, s)
  {
    if s.Entry? {
      WholeStream(s.rest);
      StreamOfGrows(s.rest, s.rest, s.name, s.node);
    }
  }

  /** The names lead to a file, through directories whose streams are open. */
  ghost predicate OnPath(root: Node, dirs: seq<Stream>, names: Path) {
    && (forall i | 0 <= i < |names| :: !IsDot(names[i]))
    && (forall i | 0 <= i < |dirs| && i <= |names| :: OpenAt(root, dirs[i], names[..i]))
  }

  ghost predicate OpenAt(root: Node, s: Stream, path: Path) {
    && Lookup(root, path).Some?
    && Lookup(root, path).value.stat.kind.Directory?
    && WellFormed(Lookup(root, path).value)
    && WellFormedStream(s)
    && StreamOf(s, Lookup(root, path).value.entries)
  }

  /** Reading an entry keeps the stack matched to the tree; a real one becomes the current file. */
  lemma EntryKeepsPath(root: Node, dirs: seq<Stream>, names: Path, s: Stream)
    requires |dirs| == |names| + 1 && OnPath(root, dirs, names)
    requires s == dirs[|names|] && s.Entry?
    ensures OnPath(root, dirs[|names| := s.rest], names)
    ensures !IsDot(s.name) ==>
              && OnPath(root, dirs[|names| := s.rest], names + [s.name])
              && Lookup(root, names + [s.name]) == Some(s.node) && WellFormed(s.node)
  {
    hide Lookup, WellFormed;
    var n := |names|;
    var dirs', names' := dirs[n := s.rest], names + [s.name];
    assert names[..n] == names;
    assert OpenAt(root, s, names[..n]);
    assert OpenAt(root, s.rest, names[..n]);
    assert forall i | 0 <= i < n :: OpenAt(root, dirs[i], names[..i]);
    if !IsDot(s.name) {
      assert forall i | 0 <= i <= n :: names'[..i] == names[..i];
      ChildLookup(root, names, s.name);
      FoundIsClean(Lookup(root, names).value.entries, s.name);
    }
  }

  lemma ChildLookup(root: Node, path: Path, name: string)
    requires Lookup(root, path).Some? && Lookup(root, path).value.stat.kind.Directory?
    ensures Lookup(root, path + [name]) == Find(Lookup(root, path).value.entries, name)
    ensures WellFormed(Lookup(root, path).value) ==> WellFormedStream(Lookup(root, path).value.entries)
  {
    assert Front(path + [name]) == path;
  }

  lemma PreorderStarts(dev: nat, path: Path, node: Node, rest: seq<Visit>)
    ensures Preorder(dev, path, node) + rest == [Visit(path, node)] + (Below(dev, path, node) + rest)
  {
  }

  /** Reading an entry takes it off the listing. */
  lemma EntryLeavesListing(dev: nat, dirs: seq<Stream>, names: Path, s: Stream)
    requires |dirs| == |names| + 1 && s == dirs[|names|] && s.Entry?
    ensures var dirs' := dirs[|names| := s.rest];
            && StackSize(dirs') + 1 + NodeSize(s.node) == StackSize(dirs)
            && Pending(dev, dirs, names)
               == if IsDot(s.name) then Pending(dev, dirs', names)
                  else Preorder(dev, names + [s.name], s.node) + Pending(dev, dirs', names + [s.name])
  {
    hide Preorder;
    var n := |names|;
    var dirs', names' := dirs[n := s.rest], names + [s.name];
    assert dirs'[..n] == dirs[..n] && names[..n] == names == names'[..n];
    assert Pending(dev, dirs', names) == Listing(dev, names, s.rest) + Pending(dev, dirs[..n], names);
    PendingIgnoresLast(dev, dirs', names, names');
  }

  /** An exhausted stream is closed and the walk goes up. */
  lemma StreamDone(root: Node, dev: nat, dirs: seq<Stream>, names: Path)
    requires |dirs| == |names| + 1 && OnPath(root, dirs, names)
    requires dirs[|names|].End?
    ensures StackSize(dirs[..|names|]) < StackSize(dirs)
    ensures names == [] ==> Pending(dev, dirs, names) == [] && OnPath(root, [], [])
    ensures names != [] ==> OnPath(root, dirs[..|names|], Front(names))
    ensures names != [] ==> Pending(dev, dirs, names) == Pending(dev, dirs[..|names|], Front(names))
  {
    var n := |names|;
    assert dirs[..n + 1] == dirs;
    assert Pending(dev, dirs, names) == Pending(dev, dirs[..n], names);
    if names != [] {
      forall i | 0 <= i < n
        ensures OpenAt(root, dirs[i], Front(names)[..i])
      {
        assert Front(names)[..i] == names[..i];
        assert OpenAt(root, dirs[i], names[..i]);
      }
      PendingIgnoresLast(dev, dirs[..n], names, Front(names));
    }
  }

  /** In the middle of a step: one open stream more than names, all still to be visited. */
  ghost predicate Searching(root: Node, dev: nat, dirs: seq<Stream>, names: Path, all: seq<Visit>) {
    |dirs| == |names| + 1 && OnPath(root, dirs, names) && Pending(dev, dirs, names) == all
  }

  /** An entry that is read is the next visit, unless it is "." or "..". */
  lemma EntryStep(root: Node, dev: nat, dirs: seq<Stream>, names: Path, all: seq<Visit>)
    requires |dirs| == |names| + 1 && Searching(root, dev, dirs, names, all) && dirs[|names|].Entry?
    ensures var s := dirs[|names|];
            var dirs', names' := dirs[|names| := s.rest], names + [s.name];
            && (IsDot(s.name) ==> Searching(root, dev, dirs', names, all) && StackSize(dirs') < StackSize(dirs))
            && (!IsDot(s.name) ==>
                  && OnPath(root, dirs', names') && Lookup(root, names') == Some(s.node) && WellFormed(s.node)
                  && all == [Visit(names', s.node)] + (Below(dev, names', s.node) + Pending(dev, dirs', names'))
                  && StackSize(dirs') + StreamSize(s.node.entries) < StackSize(dirs))
  {
    hide OnPath, Pending, StackSize, WellFormed, Lookup, Preorder, Below, StreamSize;
    var s := dirs[|names|];
    EntryKeepsPath(root, dirs, names, s);
    EntryLeavesListing(dev, dirs, names, s);
    PreorderStarts(dev, names + [s.name], s.node, Pending(dev, dirs[|names| := s.rest], names + [s.name]));
  }

  /** An exhausted stream is left behind; the last one is the end of the walk. */
  lemma DoneStep(root: Node, dev: nat, dirs: seq<Stream>, names: Path, all: seq<Visit>)
    requires |dirs| == |names| + 1 && Searching(root, dev, dirs, names, all) && dirs[|names|].End?
    ensures StackSize(dirs[..|names|]) < StackSize(dirs)
    ensures names == [] ==> all == [] && OnPath(root, [], []) && dirs[..|names|] == [] && StackSize([]) == 0
    ensures names != [] ==> Searching(root, dev, dirs[..|names|], names[..|names| - 1], all)
  {
    StreamDone(root, dev, dirs, names);
    hide OnPath, Pending;
  }

  /** Opening the current directory puts its listing in front of what is pending. */
  lemma DirectoryOpened(root: Node, dev: nat, dirs: seq<Stream>, names: Path)
    requires |dirs| == |names| && OnPath(root, dirs, names)
    requires Lookup(root, names).Some? && WellFormed(Lookup(root, names).value)
    requires Lookup(root, names).value.stat.kind.Directory?
    ensures var s := Lookup(root, names).value.entries;
            && OnPath(root, dirs + [s], names)
            && Pending(dev, dirs + [s], names) == Listing(dev, names, s) + Pending(dev, dirs, names)
            && StackSize(dirs + [s]) == StackSize(dirs) + StreamSize(s)
  {
    var s := Lookup(root, names).value.entries;
    WholeStream(s);
    var all := dirs + [s];
    assert names[..|names|] == names && all[..|dirs|] == dirs;
    forall i | 0 <= i < |all|
      ensures OpenAt(root, all[i], names[..i])
    {
      assert i < |dirs| ==> OpenAt(root, dirs[i], names[..i]);
    }
  }

  lemma NothingOpen(dev: nat, names: Path, prefixes: set<string>)
    ensures Pending(dev, [], names) == [] && StackSize([]) == 0 && Kept([], prefixes) == []
  {
  }

  lemma NameDropped(root: Node, dev: nat, dirs: seq<Stream>, names: Path)
    requires |dirs| == |names| && names != [] && OnPath(root, dirs, names)
    ensures OnPath(root, dirs, Front(names))
    ensures Pending(dev, dirs, Front(names)) == Pending(dev, dirs, names)
  {
    forall i | 0 <= i < |dirs|
      ensures OpenAt(root, dirs[i], Front(names)[..i])
    {
      assert Front(names)[..i] == names[..i];
      assert OpenAt(root, dirs[i], names[..i]);
    }
    PendingIgnoresLast(dev, dirs, names, Front(names));
  }

  /** What remains, according to whether the current file is excluded. */
  lemma KeptFirst(it: FilesystemIterator)
    requires it.Valid()
    ensures !it.isEnd ==>
              Kept([Visit(it.names, it.Current())] + it.Rest(), it.exclPrefixes)
              == if Excluded(it.names, it.exclPrefixes) then Kept(it.Rest(), it.exclPrefixes) else it.Remaining()
    ensures it.isEnd ==> Kept([], it.exclPrefixes) == it.Remaining() && !Excluded(it.names, it.exclPrefixes)
  {
    if !it.isEnd {
      var v := Visit(it.names, it.Current());
      KeptConcat([v], it.Rest(), it.exclPrefixes);
      assert [v][1..] == [];
    }
  }

  class FilesystemIterator {
    const root: Node
    const exclPrefixes: set<string>
    const rootDev: nat
    var dirs: seq<Stream>
    var names: Path
    var stbuf: Stat
    var isEnd: bool
    var isErr: bool

    /** Between calls: one open stream per name, and stbuf describes the file that the names
        lead to.  At the end, nothing is open. */
    ghost predicate Valid()
      reads this
    {
      && WellFormed(root) && "" !in exclPrefixes && rootDev == root.stat.dev
      && !isErr
      && |dirs| == |names|
      && OnPath(root, dirs, names)
      && (if isEnd then names == []
          else Lookup(root, names).Some? && WellFormed(Current()) && stbuf == Current().stat)
    }

    ghost function Current(): Node
      requires Lookup(root, names).Some?
      reads this
    {
      Lookup(root, names).value
    }

    /** The visits still to come, the current one excluded. */
    ghost function Rest(): seq<Visit>
      requires |dirs| <= |names| + 1 && Lookup(root, names).Some?
      reads this
    {
      Below(rootDev, names, Current()) + Pending(rootDev, dirs, names)
    }

    /** The visits still to come, the current one included. */
    ghost function Remaining(): seq<Visit>
      requires Valid()
      reads this
    {
      if isEnd then [] else [Visit(names, Current())] + Kept(Rest(), exclPrefixes)
    }

    /** Entries not yet read, in open directories and below the current file. */
    ghost function Unread(): nat
      requires !isEnd ==> Lookup(root, names).Some?
      reads this
    {
      StackSize(dirs) + if isEnd then 0 else StreamSize(Current().entries)
    }

    /** The walk starts on the root with everything still to come. */
    constructor (root: Node, exclPrefixes: set<string>)
      requires WellFormed(root) && "" !in exclPrefixes
      ensures Valid() && !isEnd && names == []
      ensures this.root == root && this.exclPrefixes == exclPrefixes
      ensures Remaining() == Walk(root, exclPrefixes)
    {
      this.root, this.exclPrefixes, rootDev := root, exclPrefixes, root.stat.dev;
      dirs, names := [], [];
      stbuf := root.stat;
      isEnd, isErr := false, false;
      new;
      var first := Visit([], root);
      assert Pending(rootDev, [], []) == [];
      assert Rest() == Below(rootDev, [], root);
      KeptConcat([first], Below(rootDev, [], root), exclPrefixes);
      assert Kept([first], exclPrefixes) == [first] + Kept([], exclPrefixes);
    }

    /** The file that the iterator shows is the first of those to come. */
    lemma ShowsFirst()
      requires Valid()
      ensures isEnd <==> Remaining() == []
      ensures !isEnd ==> Lookup(root, names).Some? && Remaining()[0] == Visit(names, Lookup(root, names).value)
    {
    }

    /** opendir on the current path.  No I/O error occurs, so it only fails when the path does
        not name a directory. */
    function OpenDir(): Option<Stream>
      reads this
    {
      match Lookup(root, names)
      case None => None
      case Some(node) => if node.stat.kind.Directory? then Some(node.entries) else None
    }

    function GetPartialPath(): string
      reads this
    {
      PartialPath(names)
    }

    /** Moves to the next file of the walk; the CHECKs of the source never fire. */
    method Increment()
      requires Valid() && !isEnd
      modifies this
      ensures Valid()
      ensures Remaining() == old(Remaining())[1..]
      ensures !isEnd ==> !Excluded(names, exclPrefixes)
      decreases Unread()
    {
      hide OnPath, Pending, Listing, StackSize, StreamSize, WellFormed, Kept, Lookup;
      NothingOpen(rootDev, names, exclPrefixes);
      var enteringDir := false;
      if stbuf.kind.Directory? && stbuf.dev == rootDev {
        var dir := OpenDir();
        if dir.Some? {
          DirectoryOpened(root, rootDev, dirs, names);
          enteringDir := true;
          dirs := dirs + [dir.value];
        }
      }
      if !enteringDir && names == [] {
        assert dirs == [] && Rest() == [];
        isEnd := true;
        return;
      }
      if !enteringDir {
        NameDropped(root, rootDev, dirs, names);
        names := names[..|names| - 1];
      }
      assert Pending(rootDev, dirs, names) == old(Rest());
      IncrementInternal();
      KeptFirst(this);
      if Excluded(names, exclPrefixes) {
        Increment();
      }
    }

    /** Reads on in the innermost open directory, or in the ones above it. */
    method IncrementInternal()
      requires WellFormed(root) && "" !in exclPrefixes && rootDev == root.stat.dev && !isErr && !isEnd
      requires |dirs| == |names| + 1 && OnPath(root, dirs, names)
      modifies this
      ensures Valid()
      ensures if isEnd then old(Pending(rootDev, dirs, names)) == []
              else old(Pending(rootDev, dirs, names)) == [Visit(names, Current())] + Rest()
      ensures Unread() < old(StackSize(dirs))
    {
      hide OnPath, Pending, Below, StackSize, StreamSize, WellFormed, Lookup, Searching;
      ghost var all, size := Pending(rootDev, dirs, names), StackSize(dirs);
      StartSearching(root, rootDev, dirs, names);
      assert |dirs| == |names| + 1;
      while true
        invariant !isErr && !isEnd
        invariant |dirs| == |names| + 1 && Searching(root, rootDev, dirs, names, all)
        invariant StackSize(dirs) <= size
        decreases StackSize(dirs)
      {
        var n := |names|;
        if dirs[n].Entry? {
          EntryStep(root, rootDev, dirs, names, all);
          var s := dirs[n];
          dirs := dirs[n := s.rest];
          names := names + [s.name];
          stbuf := s.node.stat;
          if s.name != "." && s.name != ".." {
            assert |dirs| == |names|;
            return;
          }
          names := names[..n];
        } else {
          DoneStep(root, rootDev, dirs, names, all);
          dirs := dirs[..n];
          if dirs == [] {
            assert names == [];
            isEnd := true;
            return;
          }
          assert names != [];
          names := names[..n - 1];
        }
      }
    }
  }

  /** The class used as a whole, as a client does.  It shows each file once, every directory before
      what is in it; and it shows a file exactly if its path leads only through directories of the
      root's device, and not through "." or "..", and has none of the prefixes. */
  method ShowAll(root: Node, prefixes: set<string>) returns (shown: seq<Visit>)
    requires WellFormed(root) && "" !in prefixes
    ensures DistinctPaths(shown) && ParentsFirst(shown)
    ensures forall v :: v in shown
                   <==> && Lookup(root, v.path) == Some(v.node)
                        && (forall p | p in prefixes :: !(p <= PartialPath(v.path)))
                        && forall k | 0 <= k < |v.path| :: WalksThrough(root, v.path, k)
  {
    hide *;
    var iter := new FilesystemIterator(root, prefixes);
    ghost var all := Walk(root, prefixes);
    shown := [];
    assert all[0..] == all;
    iter.ShowsFirst();
    while !iter.isEnd
      invariant iter.Valid() && iter.root == root && fresh(iter)
      invariant |shown| <= |all| && shown == all[..|shown|] && iter.Remaining() == all[|shown|..]
      invariant iter.isEnd <==> iter.Remaining() == []
      decreases |all| - |shown|
    {
      iter.ShowsFirst();
      shown := shown + [Visit(iter.names, Lookup(root, iter.names).value)];
      iter.Increment();
      iter.ShowsFirst();
    }
    assert shown == all;
    forall v: Visit
    {
      WalkMeaning(root, prefixes, v);
    }
    WalkExact(root, prefixes, Visit([], root));
  }

  lemma StartSearching(root: Node, dev: nat, dirs: seq<Stream>, names: Path)
    requires |dirs| == |names| + 1 && OnPath(root, dirs, names)
    ensures Searching(root, dev, dirs, names, Pending(dev, dirs, names))
  {
  }
}

/** A static, finite file tree as the system calls show it, and the listing that a walk of one
    device should produce. */
module SourceTree {
  import opened Options
  import opened Sequences

  type Path = seq<string>

  datatype Kind = Directory | Regular | SymLink | Fifo | CharDevice | BlockDevice | Socket

  /** The fields of struct stat that the walk and the copy look at. */
  datatype Stat = Stat(kind: Kind, dev: nat, ino: nat, nlink: nat, size: nat, rdev: nat)

  /** A file: content is a regular file's bytes or a symlink's target; entries is what
      readdir_r delivers for a directory. */
  datatype Node = Node(stat: Stat, content: seq<bv8>, entries: Stream)

  /** A directory stream, or what is left of one.  The nodes of "." and ".." only stand for
      the stat that lstat gives for them. */
  datatype Stream = End | Entry(name: string, node: Node, rest: Stream)

  predicate IsDot(name: string) {
    name == "." || name == ".."
  }

  // ----- Name resolution

  function Find(s: Stream, name: string): Option<Node> {
    match s
    case End => None
    case Entry(n, node, rest) => if n == name then Some(node) else Find(rest, name)
  }

  /** The file that a path below root names. */
  function Lookup(root: Node, path: Path): Option<Node> {
    if path == [] then Some(root)
    else
      match Lookup(root, Front(path))
      case None => None
      case Some(parent) => if parent.stat.kind.Directory? then Find(parent.entries, Last(path)) else None
  }

  // ----- Well-formed trees

  predicate Names(s: Stream, name: string) {
    s.Entry? && (s.name == name || Names(s.rest, name))
  }

  /** Names in a directory are distinct and free of slashes, at every level. */
  predicate WellFormed(node: Node)
    decreases node, 1
  {
    WellFormedStream(node.entries)
  }

  predicate WellFormedStream(s: Stream)
    decreases s, 0
  {
    s.Entry? ==>
      && '/' !in s.name
      && !Names(s.rest, s.name)
      && (!IsDot(s.name) ==> WellFormed(s.node))
      && WellFormedStream(s.rest)
  }

  // ----- The listing of one device

  datatype Visit = Visit(path: Path, node: Node)

  /** A walk goes below a directory only on the device it started on. */
  predicate Descends(node: Node, dev: nat) {
    node.stat.kind.Directory? && node.stat.dev == dev
  }

  function Preorder(dev: nat, path: Path, node: Node): seq<Visit>
    decreases node, 1
  {
    [Visit(path, node)] + Below(dev, path, node)
  }

  function Below(dev: nat, path: Path, node: Node): seq<Visit>
    decreases node, 0
  {
    if Descends(node, dev) then Listing(dev, path, node.entries) else []
  }

  function Listing(dev: nat, path: Path, s: Stream): seq<Visit>
    decreases s, 2
  {
    match s
    case End => []
    case Entry(name, node, rest) =>
      (if IsDot(name) then [] else Preorder(dev, path + [name], node)) + Listing(dev, path, rest)
  }

  /** GetPartialPath: every component with a slash before it. */
  function PartialPath(path: Path): string {
    if path == [] then "" else PartialPath(Front(path)) + "/" + Last(path)
  }

  predicate Excluded(path: Path, prefixes: set<string>) {
    exists p | p in prefixes :: p <= PartialPath(path)
  }

  function Kept(vs: seq<Visit>, prefixes: set<string>): seq<Visit> {
    if vs == [] then []
    else (if Excluded(vs[0].path, prefixes) then [] else [vs[0]]) + Kept(vs[1..], prefixes)
  }

  lemma {:induction false} KeptConcat(a: seq<Visit>, b: seq<Visit>, prefixes: set<string>)
    ensures Kept(a + b, prefixes) == Kept(a, prefixes) + Kept(b, prefixes)
  {
    if a == [] {
      assert a + b == b;
    } else {
      assert (a + b)[1..] == a[1..] + b;
      hide Kept, Excluded;
      KeptConcat(a[1..], b, prefixes);
      KeptSplit(a, prefixes);
      KeptSplit(a + b, prefixes);
      SeqAssociative(if Excluded(a[0].path, prefixes) then [] else [a[0]], Kept(a[1..], prefixes), Kept(b, prefixes));
    }
  }

  lemma KeptSplit(vs: seq<Visit>, prefixes: set<string>)
    requires vs != []
    ensures Kept(vs, prefixes) == (if Excluded(vs[0].path, prefixes) then [] else [vs[0]]) + Kept(vs[1..], prefixes)
  {
  }

  // ----- What the listing means

  /** Resolution along a walk: through directories of the device, never through "." or "..". */
  function Reached(dev: nat, node: Node, path: Path): Option<Node>
    decreases |path|
  {
    if path == [] then Some(node)
    else if !Descends(node, dev) || IsDot(path[0]) then None
    else
      match Find(node.entries, path[0])
      case None => None
      case Some(child) => Reached(dev, child, path[1..])
  }

  /** The listing holds exactly the files that can be reached, each under its path. */
  lemma {:induction false} PreorderExact(dev: nat, base: Path, node: Node, v: Visit)
    requires WellFormed(node)
    ensures v in Preorder(dev, base, node)
       <==> base <= v.path && Reached(dev, node, v.path[|base|..]) == Some(v.node)
    decreases node, 1
  {
    if Descends(node, dev) {
      ListingExact(dev, base, node.entries, v);
      if base < v.path {
        var p := v.path[|base|..];
        assert p[1..] == v.path[|base| + 1..] && p[0] == v.path[|base|];
      }
    }
    assert base == v.path ==> v.path[|base|..] == [];
  }

  /** The same for what is left of a directory stream. */
  lemma {:induction false} ListingExact(dev: nat, base: Path, s: Stream, v: Visit)
    requires WellFormedStream(s)
    ensures v in Listing(dev, base, s)
       <==> base < v.path && !IsDot(v.path[|base|])
            && Find(s, v.path[|base|]).Some?
            && Reached(dev, Find(s, v.path[|base|]).value, v.path[|base| + 1..]) == Some(v.node)
    decreases s, 0
  {
    if s.Entry? {
      ListingExact(dev, base, s.rest, v);
      FindNamed(s.rest, s.name);
      if !IsDot(s.name) {
        PreorderExact(dev, base + [s.name], s.node, v);
        assert |base| < |v.path| && base < v.path && v.path[|base|] == s.name ==> base + [s.name] <= v.path;
        assert base + [s.name] <= v.path ==> base < v.path && v.path[|base|] == s.name by {
          if base + [s.name] <= v.path {
            assert v.path[..|base| + 1] == base + [s.name];
            assert v.path[..|base|] == base;
          }
        }
      }
    }
  }

  lemma {:induction false} FindNamed(s: Stream, name: string)
    ensures Find(s, name).Some? <==> Names(s, name)
  {
    if s.Entry? {
      FindNamed(s.rest, name);
    }
  }

  /** No path is listed twice. */
  ghost predicate DistinctPaths(vs: seq<Visit>) {
    forall i, j | 0 <= i < j < |vs| :: vs[i].path != vs[j].path
  }

  lemma {:induction false} PreorderDistinct(dev: nat, base: Path, node: Node)
    requires WellFormed(node)
    ensures DistinctPaths(Preorder(dev, base, node))
    decreases node, 1
  {
    if Descends(node, dev) {
      ListingDistinct(dev, base, node.entries);
      forall v | v in Listing(dev, base, node.entries)
        ensures v.path != base
      {
        ListingExact(dev, base, node.entries, v);
      }
    }
  }

  lemma {:induction false} ListingDistinct(dev: nat, base: Path, s: Stream)
    requires WellFormedStream(s)
    ensures DistinctPaths(Listing(dev, base, s))
    decreases s, 0
  {
    if s.Entry? {
      ListingDistinct(dev, base, s.rest);
      if !IsDot(s.name) {
        var first, rest := Preorder(dev, base + [s.name], s.node), Listing(dev, base, s.rest);
        PreorderDistinct(dev, base + [s.name], s.node);
        FindNamed(s.rest, s.name);
        forall v, w | v in first && w in rest
          ensures v.path != w.path
        {
          PreorderExact(dev, base + [s.name], s.node, v);
          ListingExact(dev, base, s.rest, w);
          assert v.path[|base|] == (base + [s.name])[|base|];
        }
        DistinctConcat(first, rest);
      }
    }
  }

  lemma DistinctConcat(a: seq<Visit>, b: seq<Visit>)
    requires DistinctPaths(a) && DistinctPaths(b)
    requires forall v, w | v in a && w in b :: v.path != w.path
    ensures DistinctPaths(a + b)
  {
    forall i, j | 0 <= i < j < |a + b|
      ensures (a + b)[i].path != (a + b)[j].path
    {
      if i < |a| <= j {
        assert (a + b)[i] in a && (a + b)[j] in b;
      }
    }
  }

  /** Every file but the first comes after its parent, which is a directory. */
  ghost predicate ParentsFirst(vs: seq<Visit>) {
    forall j | 0 <= j < |vs| && vs[j].path != [] :: HasParentBefore(vs, j)
  }

  ghost predicate HasParentBefore(vs: seq<Visit>, j: nat)
    requires j < |vs| && vs[j].path != []
  {
    exists i | 0 <= i < j :: vs[i].path == Front(vs[j].path) && vs[i].node.stat.kind.Directory?
  }

  lemma HasParentBeforeIn(a: seq<Visit>, b: seq<Visit>, j: nat)
    requires j < |b| && b[j].path != []
    requires HasParentBefore(b, j)
    ensures HasParentBefore(a + b, |a| + j)
  {
    var i :| 0 <= i < j && b[i].path == Front(b[j].path) && b[i].node.stat.kind.Directory?;
    assert (a + b)[|a| + i] == b[i] && (a + b)[|a| + j] == b[j];
  }

  lemma HasParentBeforeExtend(a: seq<Visit>, b: seq<Visit>, j: nat)
    requires j < |a| && a[j].path != []
    requires HasParentBefore(a, j)
    ensures HasParentBefore(a + b, j)
  {
    var i :| 0 <= i < j && a[i].path == Front(a[j].path) && a[i].node.stat.kind.Directory?;
    assert (a + b)[i] == a[i] && (a + b)[j] == a[j];
  }

  lemma {:induction false} PreorderParents(dev: nat, base: Path, node: Node)
    ensures forall j | 0 < j < |Preorder(dev, base, node)| ::
              Preorder(dev, base, node)[j].path != [] && HasParentBefore(Preorder(dev, base, node), j)
    decreases node, 1
  {
    if Descends(node, dev) {
      ListingParents(dev, base, node.entries);
      ParentsBelow(Visit(base, node), Listing(dev, base, node.entries));
    }
  }

  lemma ParentIsAt(vs: seq<Visit>, i: nat, j: nat)
    requires i < j < |vs| && vs[j].path != []
    requires vs[i].path == Front(vs[j].path) && vs[i].node.stat.kind.Directory?
    ensures HasParentBefore(vs, j)
  {
  }

  lemma ParentsBelow(v: Visit, below: seq<Visit>)
    requires v.node.stat.kind.Directory? && ParentedBelow(v.path, below)
    ensures forall j | 0 < j < |[v] + below| ::
              ([v] + below)[j].path != [] && HasParentBefore([v] + below, j)
  {
    hide HasParentBefore;
    var vs := [v] + below;
    forall j | 0 < j < |vs|
      ensures vs[j].path != [] && HasParentBefore(vs, j)
    {
      assert vs[j] == below[j - 1] && vs[0] == v;
      assert ParentedAt(v.path, below, j - 1);
      if HasParentBefore(below, j - 1) {
        HasParentBeforeIn([v], below, j - 1);
      } else {
        ParentIsAt(vs, 0, j);
      }
    }
  }

  /** Every file is in the directory base, or comes after its parent. */
  ghost predicate ParentedBelow(base: Path, vs: seq<Visit>) {
    forall j | 0 <= j < |vs| :: ParentedAt(base, vs, j)
  }

  ghost predicate ParentedAt(base: Path, vs: seq<Visit>, j: nat)
    requires j < |vs|
  {
    vs[j].path != [] && (Front(vs[j].path) == base || HasParentBefore(vs, j))
  }

  lemma ParentedConcat(base: Path, a: seq<Visit>, b: seq<Visit>)
    requires ParentedBelow(base, a) && ParentedBelow(base, b)
    ensures ParentedBelow(base, a + b)
  {
    hide HasParentBefore;
    forall j | 0 <= j < |a + b|
      ensures ParentedAt(base, a + b, j)
    {
      if j < |a| {
        assert ParentedAt(base, a, j);
        if HasParentBefore(a, j) {
          HasParentBeforeExtend(a, b, j);
        }
      } else {
        assert ParentedAt(base, b, j - |a|);
        if HasParentBefore(b, j - |a|) {
          HasParentBeforeIn(a, b, j - |a|);
        }
      }
    }
  }

  /** A subtree of the directory base. */
  lemma ParentedSubtree(base: Path, name: string, vs: seq<Visit>)
    requires vs != [] && vs[0].path == base + [name]
    requires forall j | 0 < j < |vs| :: vs[j].path != [] && HasParentBefore(vs, j)
    ensures ParentedBelow(base, vs)
  {
    hide HasParentBefore;
    assert Front(base + [name]) == base;
  }

  lemma {:induction false} ListingParents(dev: nat, base: Path, s: Stream)
    ensures ParentedBelow(base, Listing(dev, base, s))
    decreases s, 0
  {
    hide ParentedBelow;
    if s.End? {
      NothingParented(base);
    } else {
      ListingParents(dev, base, s.rest);
      var rest := Listing(dev, base, s.rest);
      if IsDot(s.name) {
        assert Listing(dev, base, s) == rest;
      } else {
        var first := Preorder(dev, base + [s.name], s.node);
        PreorderParents(dev, base + [s.name], s.node);
        ParentedSubtree(base, s.name, first);
        ParentedConcat(base, first, rest);
        assert Listing(dev, base, s) == first + rest;
      }
    }
  }

  lemma NothingParented(base: Path)
    ensures ParentedBelow(base, [])
  {
  }

  // ----- What exclusion keeps of the listing

  lemma {:induction false} KeptMembers(vs: seq<Visit>, prefixes: set<string>, v: Visit)
    ensures v in Kept(vs, prefixes) <==> v in vs && !Excluded(v.path, prefixes)
  {
    if vs != [] {
      KeptMembers(vs[1..], prefixes, v);
    }
  }

  lemma KeptSnoc(vs: seq<Visit>, v: Visit, prefixes: set<string>)
    ensures Kept(vs + [v], prefixes)
         == Kept(vs, prefixes) + if Excluded(v.path, prefixes) then [] else [v]
  {
    KeptConcat(vs, [v], prefixes);
    assert [v][1..] == [];
  }

  /** A file below an excluded path is itself excluded. */
  lemma ExclusionIsInherited(path: Path, prefixes: set<string>)
    requires path != [] && Excluded(Front(path), prefixes)
    ensures Excluded(path, prefixes)
  {
    var p :| p in prefixes && p <= PartialPath(Front(path));
    assert p <= PartialPath(path);
  }

  lemma {:induction false} KeptDistinct(vs: seq<Visit>, prefixes: set<string>)
    requires DistinctPaths(vs)
    ensures DistinctPaths(Kept(vs, prefixes))
  {
    if vs != [] {
      KeptDistinct(vs[1..], prefixes);
      var rest := Kept(vs[1..], prefixes);
      forall w | w in rest
        ensures w.path != vs[0].path
      {
        KeptMembers(vs[1..], prefixes, w);
      }
      DistinctConcat([vs[0]], rest);
    }
  }

  lemma ParentsFirstPrefix(vs: seq<Visit>, v: Visit)
    requires ParentsFirst(vs + [v])
    ensures ParentsFirst(vs)
    ensures v.path != [] ==>
              exists w | w in vs :: w.path == Front(v.path) && w.node.stat.kind.Directory?
  {
    var all := vs + [v];
    forall j | 0 <= j < |vs| && vs[j].path != []
      ensures HasParentBefore(vs, j)
    {
      assert all[j] == vs[j] && HasParentBefore(all, j);
      var i :| 0 <= i < j && all[i].path == Front(all[j].path) && all[i].node.stat.kind.Directory?;
      assert vs[i] == all[i];
    }
    if v.path != [] {
      assert all[|vs|] == v && HasParentBefore(all, |vs|);
      var i :| 0 <= i < |vs| && all[i].path == Front(v.path) && all[i].node.stat.kind.Directory?;
      assert all[i] in vs;
    }
  }

  lemma ParentsFirstSnoc(vs: seq<Visit>, v: Visit)
    requires ParentsFirst(vs)
    requires v.path != [] ==>
               exists w | w in vs :: w.path == Front(v.path) && w.node.stat.kind.Directory?
    ensures ParentsFirst(vs + [v])
  {
    forall j | 0 <= j < |vs + [v]| && (vs + [v])[j].path != []
      ensures HasParentBefore(vs + [v], j)
    {
      if j < |vs| {
        HasParentBeforeExtend(vs, [v], j);
      } else {
        var w :| w in vs && w.path == Front(v.path) && w.node.stat.kind.Directory?;
        var k :| 0 <= k < |vs| && vs[k] == w;
        assert (vs + [v])[k] == w;
      }
    }
  }

  /** A file that is kept keeps its parent. */
  lemma {:induction false} KeptParents(vs: seq<Visit>, prefixes: set<string>)
    requires ParentsFirst(vs)
    ensures ParentsFirst(Kept(vs, prefixes))
    decreases |vs|
  {
    if vs != [] {
      var init, v := vs[..|vs| - 1], vs[|vs| - 1];
      assert vs == init + [v];
      ParentsFirstPrefix(init, v);
      KeptParents(init, prefixes);
      KeptSnoc(init, v, prefixes);
      if !Excluded(v.path, prefixes) {
        if v.path != [] {
          var w :| w in init && w.path == Front(v.path) && w.node.stat.kind.Directory?;
          if Excluded(w.path, prefixes) {
            ExclusionIsInherited(v.path, prefixes);
          }
          KeptMembers(init, prefixes, w);
        }
        ParentsFirstSnoc(Kept(init, prefixes), v);
      } else {
        assert Kept(vs, prefixes) == Kept(init, prefixes);
      }
    }
  }

  /** The whole walk: what the iterator is to visit, in order. */
  function Walk(root: Node, prefixes: set<string>): seq<Visit> {
    Kept(Preorder(root.stat.dev, [], root), prefixes)
  }

  /** A walk lists exactly the files that can be reached and are not excluded, each once, and
      every directory before what is in it. */
  lemma WalkExact(root: Node, prefixes: set<string>, v: Visit)
    requires WellFormed(root)
    ensures v in Walk(root, prefixes)
       <==> Reached(root.stat.dev, root, v.path) == Some(v.node) && !Excluded(v.path, prefixes)
    ensures DistinctPaths(Walk(root, prefixes)) && ParentsFirst(Walk(root, prefixes))
  {
    var vs := Preorder(root.stat.dev, [], root);
    KeptMembers(vs, prefixes, v);
    PreorderExact(root.stat.dev, [], root, v);
    assert v.path[0..] == v.path;
    PreorderDistinct(root.stat.dev, [], root);
    PreorderParents(root.stat.dev, [], root);
    KeptDistinct(vs, prefixes);
    KeptParents(vs, prefixes);
  }

  /** Directory k on the way to a path is a directory of the device, and the name that follows is
      an ordinary one. */
  ghost predicate WalksThrough(root: Node, path: Path, k: nat)
    requires k < |path|
  {
    && Lookup(root, path[..k]).Some?
    && Lookup(root, path[..k]).value.stat.kind == Directory
    && Lookup(root, path[..k]).value.stat.dev == root.stat.dev
    && path[k] != "." && path[k] != ".."
  }

  /** What a walk shows, in terms of name resolution: the files whose path string has none of the
      prefixes, and whose path leads only through directories of the root's device and not through
      "." or "..". */
  lemma WalkMeaning(root: Node, prefixes: set<string>, v: Visit)
    requires WellFormed(root)
    ensures v in Walk(root, prefixes)
       <==> && Lookup(root, v.path) == Some(v.node)
            && (forall p | p in prefixes :: !(p <= PartialPath(v.path)))
            && forall k | 0 <= k < |v.path| :: WalksThrough(root, v.path, k)
  {
    WalkExact(root, prefixes, v);
    ReachedMeaning(root, v.path);
    hide Walk, WellFormed, Reached, Lookup, WalksThrough, PartialPath;
  }

  lemma {:induction false} ReachedMeaning(root: Node, path: Path)
    ensures var reached := Reached(root.stat.dev, root, path);
            reached == if forall k | 0 <= k < |path| :: WalksThrough(root, path, k) then Lookup(root, path) else None
    decreases |path|
  {
    if path != [] {
      var init, name := Front(path), Last(path);
      assert path == init + [name] && path[..|init|] == init;
      ReachedMeaning(root, init);
      ReachedSnoc(root.stat.dev, root, init, name);
      forall k | 0 <= k < |init|
        ensures WalksThrough(root, path, k) <==> WalksThrough(root, init, k)
      {
        assert path[..k] == init[..k] && path[k] == init[k];
      }
      LastStep(root, path);
      hide WalksThrough, Lookup, Reached;
      assert (forall k | 0 <= k < |path| :: WalksThrough(root, path, k))
         <==> (forall k | 0 <= k < |init| :: WalksThrough(root, init, k)) && WalksThrough(root, path, |init|);
    }
  }

  lemma LastStep(root: Node, path: Path)
    requires path != []
    ensures var dir := Lookup(root, Front(path));
            && (WalksThrough(root, path, |path| - 1) ==> dir.Some? && Lookup(root, path) == Find(dir.value.entries, Last(path)))
            && (dir.Some? ==> (WalksThrough(root, path, |path| - 1)
                               <==> Descends(dir.value, root.stat.dev) && !IsDot(Last(path))))
  {
    assert path[..|path| - 1] == Front(path);
  }

  /** One more name at the end of a path. */
  lemma {:induction false} ReachedSnoc(dev: nat, node: Node, path: Path, name: string)
    ensures Reached(dev, node, path + [name])
         == match Reached(dev, node, path)
            case None => None
            case Some(dir) => if Descends(dir, dev) && !IsDot(name) then Find(dir.entries, name) else None
    decreases |path|
  {
    var longer := path + [name];
    if path == [] {
      assert longer == [name] && longer[1..] == [];
    } else {
      assert longer[1..] == path[1..] + [name] && longer[0] == path[0];
      if Descends(node, dev) && !IsDot(path[0]) && Find(node.entries, path[0]).Some? {
        ReachedSnoc(dev, Find(node.entries, path[0]).value, path[1..], name);
      }
    }
  }

  lemma LastSlash(a: string, x: string, b: string, y: string)
    requires '/' !in x && '/' !in y
    requires a + "/" + x == b + "/" + y
    ensures a == b && x == y
  {
    var s, t := a + "/" + x, b + "/" + y;
    assert forall k | |a| < k < |s| :: s[k] == x[k - |a| - 1];
    assert forall k | |b| < k < |t| :: t[k] == y[k - |b| - 1];
    assert s[|a|] == '/' && t[|b|] == '/';
    assert |a| == |b|;
    assert s[..|a|] == a && t[..|b|] == b && s[|a| + 1..] == x && t[|b| + 1..] == y;
  }

  /** Different paths without slashes in their names have different strings, so that a file's
      path string identifies it. */
  lemma {:induction false} PartialPathInjective(p: Path, q: Path)
    requires forall i | 0 <= i < |p| :: '/' !in p[i]
    requires forall i | 0 <= i < |q| :: '/' !in q[i]
    requires PartialPath(p) == PartialPath(q)
    ensures p == q
    decreases |p|
  {
    if p == [] || q == [] {
      assert PartialPath([]) == "";
    } else {
      LastSlash(PartialPath(Front(p)), Last(p), PartialPath(Front(q)), Last(q));
      PartialPathInjective(Front(p), Front(q));
      assert p == Front(p) + [Last(p)] && q == Front(q) + [Last(q)];
    }
  }

  lemma {:induction false} ReachedIsClean(dev: nat, node: Node, path: Path)
    requires WellFormed(node) && Reached(dev, node, path).Some?
    ensures forall i | 0 <= i < |path| :: '/' !in path[i]
    decreases |path|
  {
    if path != [] {
      FoundIsClean(node.entries, path[0]);
      ReachedIsClean(dev, Find(node.entries, path[0]).value, path[1..]);
      assert forall i | 0 < i < |path| :: path[i] == path[1..][i - 1];
    }
  }

  lemma {:induction false} FoundIsClean(s: Stream, name: string)
    requires WellFormedStream(s) && Find(s, name).Some?
    ensures '/' !in name
    ensures !IsDot(name) ==> WellFormed(Find(s, name).value)
  {
    if s.name != name {
      FoundIsClean(s.rest, name);
    }
  }

  /** The walk shows no path string twice. */
  lemma WalkStringsDistinct(root: Node, prefixes: set<string>, i: nat, j: nat)
    requires WellFormed(root) && i < j < |Walk(root, prefixes)|
    ensures PartialPath(Walk(root, prefixes)[i].path) != PartialPath(Walk(root, prefixes)[j].path)
  {
    var vs := Walk(root, prefixes);
    var p, q := vs[i].path, vs[j].path;
    WalkExact(root, prefixes, vs[i]);
    WalkExact(root, prefixes, vs[j]);
    ReachedIsClean(root.stat.dev, root, p);
    ReachedIsClean(root.stat.dev, root, q);
    if PartialPath(p) == PartialPath(q) {
      PartialPathInjective(p, q);
    }
  }
}

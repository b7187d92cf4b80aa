/** Rebuilding the walked tree on a freshly formatted device, hard links included, and the
    marker file that says a copy is complete. */
module FilesystemCopiers {
  import opened Options
  import opened Sequences
  import opened SourceTree
  import opened FilesystemIterators

  const COPY_EXCLUSION_PREFIX: string := "/lost+found"
  const COPY_FILE_BUFFER_SIZE: nat := 4 * 1024 * 1024
  const PATH_MAX: nat := 4096
  const LOST_FOUND: Path := ["lost+found"]
  const MARKER: Path := ["update_engine_copy_success"]

  // ----- The destination filesystem

  datatype Inode =
    | DirInode
    | FileInode(content: seq<bv8>)
    | SymLinkInode(target: seq<bv8>)
    | DeviceInode(kind: Kind, rdev: nat)

  datatype DestFs = DestFs(links: map<Path, nat>, inodes: map<nat, Inode>, next: nat) {

    ghost predicate Valid() {
      && (forall p | p in links :: links[p] in inodes)
      && (forall i | i in inodes :: i < next)
    }

    predicate IsDir(p: Path)
      requires Valid()
    {
      p in links && inodes[links[p]].DirInode?
    }

    predicate CanAdd(p: Path)
      requires Valid()
    {
      p != [] && p !in links && IsDir(Front(p))
    }

    function Created(p: Path, inode: Inode): DestFs {
      DestFs(links[p := next], inodes[next := inode], next + 1)
    }

    predicate CanLink(old_: Path, p: Path)
      requires Valid()
    {
      old_ in links && !IsDir(old_) && CanAdd(p)
    }

    function Linked(old_: Path, p: Path): DestFs
      requires old_ in links
    {
      this.(links := links[p := links[old_]])
    }
  }

  /** What mkfs.ext3 leaves: the root and lost+found. */
  const FORMATTED: DestFs := DestFs(map[[] := 0, LOST_FOUND := 1], map[0 := DirInode, 1 := DirInode], 2)

  /** The inode that the copy of a file gets. */
  function InodeFor(node: Node): Inode {
    match node.stat.kind
    case Directory => DirInode
    case Regular => FileInode(node.content)
    case SymLink => SymLinkInode(node.content)
    case _ => DeviceInode(node.stat.kind, node.stat.rdev)
  }

  // ----- Specification of the copy, one visit at a time

  datatype CopyState = CopyState(fs: DestFs, hardLinks: map<nat, Path>)

  predicate Linkable(node: Node) {
    !node.stat.kind.Directory? && node.stat.nlink > 1
  }

  function CopyOne(st: CopyState, v: Visit): Option<CopyState>
    requires st.fs.Valid()
  {
    var fs, node, ino := st.fs, v.node, v.node.stat.ino;
    if v.path == [] then Some(st)
    else if Linkable(node) && ino in st.hardLinks then
      var first := st.hardLinks[ino];
      if fs.CanLink(first, v.path) then Some(CopyState(fs.Linked(first, v.path), st.hardLinks)) else None
    else if !fs.CanAdd(v.path) || (node.stat.kind.SymLink? && |node.content| > PATH_MAX) then None
    else
      var hardLinks := if Linkable(node) then st.hardLinks[ino := v.path] else st.hardLinks;
      Some(CopyState(fs.Created(v.path, InodeFor(node)), hardLinks))
  }

  /** The copy after the first n visits. */
  function CopyFirst(vs: seq<Visit>, n: nat): (r: Option<CopyState>)
    requires n <= |vs|
    ensures r.Some? ==> r.value.fs.Valid()
  {
    if n == 0 then Some(CopyState(FORMATTED, map[]))
    else
      match CopyFirst(vs, n - 1)
      case None => None
      case Some(st) => CopyOne(st, vs[n - 1])
  }

  function CopyAll(vs: seq<Visit>): (r: Option<CopyState>)
    ensures r.Some? ==> r.value.fs.Valid()
  {
    CopyFirst(vs, |vs|)
  }

  // ----- What a copy should be

  /** An inode of the destination holds what a file of the source is: read off the inode. */
  predicate Holds(inode: Inode, node: Node) {
    match inode
    case DirInode => node.stat.kind == Directory
    case FileInode(content) => node.stat.kind == Regular && content == node.content
    case SymLinkInode(target) => node.stat.kind == SymLink && target == node.content
    case DeviceInode(kind, rdev) =>
      kind == node.stat.kind && kind !in {Directory, Regular, SymLink} && rdev == node.stat.rdev
  }

  /** Two visits of one file of the source. */
  predicate SameFile(a: Node, b: Node) {
    && !a.stat.kind.Directory? && !b.stat.kind.Directory?
    && a.stat.dev == b.stat.dev && a.stat.ino == b.stat.ino
  }

  /** What the copy's map takes for one file: it is keyed by st_ino alone. */
  predicate SameKey(a: Node, b: Node) {
    Linkable(a) && Linkable(b) && a.stat.ino == b.stat.ino
  }

  /** The kernel shows a file with two names with the same stat and content under both. */
  ghost predicate SameStat(vs: seq<Visit>) {
    forall i, j | 0 <= i < j < |vs| && SameFile(vs[i].node, vs[j].node) ::
      vs[i].node.stat == vs[j].node.stat && vs[i].node.content == vs[j].node.content
  }

  /** No file is seen under two names without having two links.  A file on a device that is
      mounted twice can be. */
  ghost predicate NamesAreLinks(vs: seq<Visit>) {
    forall i, j | 0 <= i < j < |vs| && SameFile(vs[i].node, vs[j].node) :: vs[i].node.stat.nlink > 1
  }

  /** No two multiply-linked files on different devices have the same inode number. */
  ghost predicate NoInodeClash(vs: seq<Visit>) {
    forall i, j | 0 <= i < j < |vs| ::
      && vs[i].node.stat.kind != Directory && vs[i].node.stat.nlink > 1
      && vs[j].node.stat.kind != Directory && vs[j].node.stat.nlink > 1
      && vs[i].node.stat.ino == vs[j].node.stat.ino
      ==> vs[i].node.stat.dev == vs[j].node.stat.dev
  }

  /** The destination is isomorphic to what was visited: the same paths besides lost+found, the
      same kinds and contents, and a shared inode exactly for two names of one file. */
  ghost predicate Faithful(vs: seq<Visit>, fs: DestFs) {
    && fs.Valid()
    && (forall p :: p in fs.links <==> p == LOST_FOUND || exists i | 0 <= i < |vs| :: vs[i].path == p)
    && (forall i | 0 <= i < |vs| :: Holds(fs.inodes[fs.links[vs[i].path]], vs[i].node))
    && (forall i, j | 0 <= i < j < |vs| ::
          fs.links[vs[i].path] == fs.links[vs[j].path] <==> SameFile(vs[i].node, vs[j].node))
  }

  // ----- The invariant of the copy

  ghost predicate Walked(vs: seq<Visit>) {
    && vs != [] && vs[0].path == [] && vs[0].node.stat.kind.Directory?
    && DistinctPaths(vs) && ParentsFirst(vs)
    && forall i | 0 <= i < |vs| :: vs[i].path != LOST_FOUND
  }

  /** Which visit's content the i-th visit shows in the destination. */
  ghost predicate ShownFrom(vs: seq<Visit>, i: nat, fs: DestFs)
    requires i < |vs| && fs.Valid() && vs[i].path in fs.links
  {
    exists j | 0 <= j <= i ::
      && (j == i || SameKey(vs[j].node, vs[i].node))
      && Holds(fs.inodes[fs.links[vs[i].path]], vs[j].node)
  }

  ghost predicate PathsMatch(vs: seq<Visit>, n: nat, fs: DestFs)
    requires n <= |vs|
  {
    && LOST_FOUND in fs.links
    && (forall i | 0 <= i < n :: vs[i].path in fs.links)
    && (forall p | p in fs.links :: p == LOST_FOUND || exists i | 0 <= i < n :: vs[i].path == p)
  }

  ghost predicate AllShown(vs: seq<Visit>, n: nat, fs: DestFs)
    requires n <= |vs| && fs.Valid() && PathsMatch(vs, n, fs)
  {
    forall i | 0 <= i < n :: ShownFrom(vs, i, fs)
  }

  ghost predicate SharingByKey(vs: seq<Visit>, n: nat, fs: DestFs)
    requires n <= |vs| && PathsMatch(vs, n, fs)
  {
    forall i, j | 0 <= i < j < n ::
      fs.links[vs[i].path] == fs.links[vs[j].path] <==> SameKey(vs[i].node, vs[j].node)
  }

  /** hard_links leads from the number of a linked file to a destination path of that file. */
  ghost predicate MapComplete(vs: seq<Visit>, n: nat, st: CopyState)
    requires n <= |vs| && PathsMatch(vs, n, st.fs)
  {
    forall i | 0 <= i < n && Linkable(vs[i].node) ::
      && vs[i].node.stat.ino in st.hardLinks
      && st.hardLinks[vs[i].node.stat.ino] in st.fs.links
      && st.fs.links[st.hardLinks[vs[i].node.stat.ino]] == st.fs.links[vs[i].path]
  }

  ghost predicate MapBacked(vs: seq<Visit>, n: nat, hardLinks: map<nat, Path>)
    requires n <= |vs|
  {
    forall ino | ino in hardLinks :: Backed(vs, n, ino, hardLinks[ino])
  }

  ghost predicate Backed(vs: seq<Visit>, n: nat, ino: nat, p: Path)
    requires n <= |vs|
  {
    exists i | 0 <= i < n :: Linkable(vs[i].node) && vs[i].node.stat.ino == ino && vs[i].path == p
  }

  ghost predicate CopyInvariant(vs: seq<Visit>, n: nat, st: CopyState)
    requires n <= |vs|
  {
    && st.fs.Valid() && PathsMatch(vs, n, st.fs)
    && AllShown(vs, n, st.fs) && SharingByKey(vs, n, st.fs)
    && MapComplete(vs, n, st) && MapBacked(vs, n, st.hardLinks)
  }

  /** The next file can be added: its name is new and its directory is there. */
  lemma ParentIsThere(vs: seq<Visit>, n: nat, fs: DestFs)
    requires Walked(vs) && 0 < n < |vs|
    requires fs.Valid() && PathsMatch(vs, n, fs) && AllShown(vs, n, fs)
    ensures fs.CanAdd(vs[n].path)
  {
    assert vs[0].path != vs[n].path;
    assert HasParentBefore(vs, n);
    var i :| 0 <= i < n && vs[i].path == Front(vs[n].path) && vs[i].node.stat.kind.Directory?;
    assert ShownFrom(vs, i, fs);
    hide AllShown, ShownFrom, ParentsFirst, HasParentBefore;
    DirectoryShown(vs, i, fs);
  }

  lemma DirectoryShown(vs: seq<Visit>, i: nat, fs: DestFs)
    requires i < |vs| && vs[i].node.stat.kind.Directory?
    requires fs.Valid() && vs[i].path in fs.links && ShownFrom(vs, i, fs)
    ensures fs.IsDir(vs[i].path)
  {
  }

  lemma FirstLinkIsThere(vs: seq<Visit>, n: nat, st: CopyState)
    requires Walked(vs) && 0 < n < |vs| && CopyInvariant(vs, n, st)
    requires Linkable(vs[n].node) && vs[n].node.stat.ino in st.hardLinks
    ensures st.fs.CanLink(st.hardLinks[vs[n].node.stat.ino], vs[n].path)
  {
    ParentIsThere(vs, n, st.fs);
    hide Walked, AllShown, SharingByKey, MapComplete;
    assert forall i | 0 <= i < n :: ShownFrom(vs, i, st.fs);
    var first := st.hardLinks[vs[n].node.stat.ino];
    assert Backed(vs, n, vs[n].node.stat.ino, first);
    var i :| 0 <= i < n && Linkable(vs[i].node) && vs[i].path == first;
    assert ShownFrom(vs, i, st.fs);
    LinkableIsNoDirectory(vs, i, st.fs);
  }

  lemma LinkableIsNoDirectory(vs: seq<Visit>, i: nat, fs: DestFs)
    requires i < |vs| && Linkable(vs[i].node)
    requires fs.Valid() && vs[i].path in fs.links && ShownFrom(vs, i, fs)
    ensures !fs.IsDir(vs[i].path)
  {
  }

  /** Files keep their inodes, and inodes their contents. */
  ghost predicate Extends(vs: seq<Visit>, n: nat, fs: DestFs, fs': DestFs)
    requires n <= |vs|
  {
    && (forall i | 0 <= i < n :: vs[i].path in fs.links && vs[i].path in fs'.links
                                 && fs'.links[vs[i].path] == fs.links[vs[i].path])
    && (forall i | i in fs.inodes :: i in fs'.inodes && fs'.inodes[i] == fs.inodes[i])
  }

  lemma AllShownExtends(vs: seq<Visit>, n: nat, fs: DestFs, fs': DestFs)
    requires n < |vs|
    requires fs.Valid() && PathsMatch(vs, n, fs) && AllShown(vs, n, fs)
    requires fs'.Valid() && PathsMatch(vs, n + 1, fs') && Extends(vs, n, fs, fs')
    requires ShownFrom(vs, n, fs')
    ensures AllShown(vs, n + 1, fs')
  {
    forall i | 0 <= i < n
      ensures ShownFrom(vs, i, fs')
    {
      assert ShownFrom(vs, i, fs);
    }
  }

  /** Adding a path keeps who shares with whom, if the new path shares exactly by key. */
  lemma SharingExtends(vs: seq<Visit>, n: nat, fs: DestFs, fs': DestFs)
    requires n < |vs|
    requires PathsMatch(vs, n, fs) && SharingByKey(vs, n, fs)
    requires PathsMatch(vs, n + 1, fs') && Extends(vs, n, fs, fs')
    requires forall i | 0 <= i < n ::
               fs.links[vs[i].path] == fs'.links[vs[n].path] <==> SameKey(vs[i].node, vs[n].node)
    ensures SharingByKey(vs, n + 1, fs')
  {
  }

  lemma MapBackedExtends(vs: seq<Visit>, n: nat, hardLinks: map<nat, Path>)
    requires n < |vs| && MapBacked(vs, n, hardLinks)
    ensures MapBacked(vs, n + 1, hardLinks)
    ensures Linkable(vs[n].node) ==> MapBacked(vs, n + 1, hardLinks[vs[n].node.stat.ino := vs[n].path])
  {
    forall ino | ino in hardLinks
      ensures Backed(vs, n + 1, ino, hardLinks[ino])
    {
      assert Backed(vs, n, ino, hardLinks[ino]);
    }
  }

  /** Creating a file that no earlier visit shares keeps the invariant. */
  lemma CreateKeepsInvariant(vs: seq<Visit>, n: nat, st: CopyState)
    requires n < |vs| && CopyInvariant(vs, n, st) && st.fs.CanAdd(vs[n].path)
    requires Linkable(vs[n].node) ==> vs[n].node.stat.ino !in st.hardLinks
    ensures CopyInvariant(vs, n + 1,
              CopyState(st.fs.Created(vs[n].path, InodeFor(vs[n].node)),
                        if Linkable(vs[n].node) then st.hardLinks[vs[n].node.stat.ino := vs[n].path]
                        else st.hardLinks))
  {
    CreatedExtends(vs, n, st);
    MapBackedExtends(vs, n, st.hardLinks);
    hide DestFs.Created, PathsMatch, Extends, AllShown, ShownFrom, SharingByKey, MapBacked, Linkable, SameKey;
    var fs' := st.fs.Created(vs[n].path, InodeFor(vs[n].node));
    AllShownExtends(vs, n, st.fs, fs');
    SharingExtends(vs, n, st.fs, fs');
  }

  lemma CreatedExtends(vs: seq<Visit>, n: nat, st: CopyState)
    requires n < |vs| && CopyInvariant(vs, n, st) && st.fs.CanAdd(vs[n].path)
    requires Linkable(vs[n].node) ==> vs[n].node.stat.ino !in st.hardLinks
    ensures var fs := st.fs.Created(vs[n].path, InodeFor(vs[n].node));
            && fs.Valid() && PathsMatch(vs, n + 1, fs) && Extends(vs, n, st.fs, fs) && ShownFrom(vs, n, fs)
            && forall i | 0 <= i < n :: st.fs.links[vs[i].path] == fs.links[vs[n].path] <==> SameKey(vs[i].node, vs[n].node)
  {
    hide SharingByKey, AllShown;
  }

  /** So does linking to the path that the map gives. */
  lemma LinkKeepsInvariant(vs: seq<Visit>, n: nat, st: CopyState)
    requires n < |vs| && CopyInvariant(vs, n, st)
    requires Linkable(vs[n].node) && vs[n].node.stat.ino in st.hardLinks
    requires st.fs.CanLink(st.hardLinks[vs[n].node.stat.ino], vs[n].path)
    ensures CopyInvariant(vs, n + 1,
              CopyState(st.fs.Linked(st.hardLinks[vs[n].node.stat.ino], vs[n].path), st.hardLinks))
  {
    LinkedExtends(vs, n, st);
    MapBackedExtends(vs, n, st.hardLinks);
    LinkSharesByKey(vs, n, st);
    hide DestFs.Linked, PathsMatch, Extends, AllShown, ShownFrom, SharingByKey, MapBacked, Linkable, SameKey;
    var fs' := st.fs.Linked(st.hardLinks[vs[n].node.stat.ino], vs[n].path);
    AllShownExtends(vs, n, st.fs, fs');
    SharingExtends(vs, n, st.fs, fs');
  }

  lemma LinkedExtends(vs: seq<Visit>, n: nat, st: CopyState)
    requires n < |vs| && CopyInvariant(vs, n, st)
    requires Linkable(vs[n].node) && vs[n].node.stat.ino in st.hardLinks
    requires st.fs.CanLink(st.hardLinks[vs[n].node.stat.ino], vs[n].path)
    ensures var fs := st.fs.Linked(st.hardLinks[vs[n].node.stat.ino], vs[n].path);
            fs.Valid() && PathsMatch(vs, n + 1, fs) && Extends(vs, n, st.fs, fs)
  {
    hide SharingByKey, AllShown, MapBacked;
  }

  /** The path in the map shares with exactly the files of its number, and shows one of them. */
  lemma LinkSharesByKey(vs: seq<Visit>, n: nat, st: CopyState)
    requires n < |vs| && CopyInvariant(vs, n, st)
    requires Linkable(vs[n].node) && vs[n].node.stat.ino in st.hardLinks
    requires st.fs.CanLink(st.hardLinks[vs[n].node.stat.ino], vs[n].path)
    ensures var first := st.hardLinks[vs[n].node.stat.ino];
            && (forall i | 0 <= i < n ::
                  st.fs.links[vs[i].path] == st.fs.links[first] <==> SameKey(vs[i].node, vs[n].node))
            && ShownFrom(vs, n, st.fs.Linked(first, vs[n].path))
  {
    var fs, first, ino := st.fs, st.hardLinks[vs[n].node.stat.ino], vs[n].node.stat.ino;
    assert Backed(vs, n, ino, first);
    var k :| 0 <= k < n && Linkable(vs[k].node) && vs[k].node.stat.ino == ino && vs[k].path == first;
    forall i | 0 <= i < n
      ensures fs.links[vs[i].path] == fs.links[first] <==> SameKey(vs[i].node, vs[n].node)
    {
      assert i < k ==> SameKey(vs[i].node, vs[k].node) == (fs.links[vs[i].path] == fs.links[vs[k].path]);
      assert k < i ==> SameKey(vs[k].node, vs[i].node) == (fs.links[vs[k].path] == fs.links[vs[i].path]);
    }
    assert ShownFrom(vs, k, fs);
    var j :| 0 <= j <= k && (j == k || SameKey(vs[j].node, vs[k].node))
          && Holds(fs.inodes[fs.links[vs[k].path]], vs[j].node);
    assert SameKey(vs[j].node, vs[n].node);
  }

  /** A symlink that the copy has to create, with a target that does not fit its buffer. */
  ghost predicate TooLong(vs: seq<Visit>, i: nat)
    requires i < |vs|
  {
    && vs[i].path != [] && vs[i].node.stat.kind.SymLink? && |vs[i].node.content| > PATH_MAX
    && forall j | 0 <= j < i :: !SameKey(vs[j].node, vs[i].node)
  }

  /** The copy of a walk: it can only fail at a symlink whose target is too long, and what it
      builds satisfies the invariant. */
  lemma {:induction false} CopyKeepsInvariant(vs: seq<Visit>, n: nat)
    requires Walked(vs) && 0 < n <= |vs|
    ensures CopyFirst(vs, n).Some? <==> forall i | 0 <= i < n :: !TooLong(vs, i)
    ensures CopyFirst(vs, n).Some? ==> CopyInvariant(vs, n, CopyFirst(vs, n).value)
  {
    hide Walked, CopyInvariant, CopyOne, TooLong;
    if n == 1 {
      RootInvariant(vs);
    } else {
      CopyKeepsInvariant(vs, n - 1);
      if CopyFirst(vs, n - 1).Some? {
        CopyStep(vs, n - 1, CopyFirst(vs, n - 1).value);
      }
    }
  }

  lemma RootInvariant(vs: seq<Visit>)
    requires Walked(vs)
    ensures CopyFirst(vs, 1) == Some(CopyState(FORMATTED, map[]))
    ensures CopyInvariant(vs, 1, CopyState(FORMATTED, map[]))
    ensures !TooLong(vs, 0)
  {
    assert CopyFirst(vs, 0) == Some(CopyState(FORMATTED, map[]));
    assert ShownFrom(vs, 0, FORMATTED);
  }

  lemma CopyStep(vs: seq<Visit>, n: nat, st: CopyState)
    requires Walked(vs) && 0 < n < |vs| && CopyInvariant(vs, n, st)
    ensures CopyOne(st, vs[n]).Some? <==> !TooLong(vs, n)
    ensures CopyOne(st, vs[n]).Some? ==> CopyInvariant(vs, n + 1, CopyOne(st, vs[n]).value)
  {
    ParentIsThere(vs, n, st.fs);
    KeyIsMapped(vs, n, st);
    assert vs[n].path != [];
    hide Walked, TooLong, SameKey, CopyInvariant;
    if Linkable(vs[n].node) && vs[n].node.stat.ino in st.hardLinks {
      FirstLinkIsThere(vs, n, st);
      LinkKeepsInvariant(vs, n, st);
    } else {
      CreateKeepsInvariant(vs, n, st);
    }
  }

  /** A number is in the map exactly when an earlier visit has it. */
  lemma KeyIsMapped(vs: seq<Visit>, n: nat, st: CopyState)
    requires n < |vs| && CopyInvariant(vs, n, st)
    ensures TooLong(vs, n)
       <==> vs[n].path != [] && vs[n].node.stat.kind.SymLink? && |vs[n].node.content| > PATH_MAX
            && !(Linkable(vs[n].node) && vs[n].node.stat.ino in st.hardLinks)
  {
    if Linkable(vs[n].node) && vs[n].node.stat.ino in st.hardLinks {
      assert Backed(vs, n, vs[n].node.stat.ino, st.hardLinks[vs[n].node.stat.ino]);
      var k :| 0 <= k < n && Linkable(vs[k].node) && vs[k].node.stat.ino == vs[n].node.stat.ino;
      assert SameKey(vs[k].node, vs[n].node);
    }
  }

  /** Without a clash, sharing by key is sharing by file. */
  lemma KeysAreFiles(vs: seq<Visit>, i: nat, j: nat)
    requires SameStat(vs) && NoInodeClash(vs) && NamesAreLinks(vs) && i < j < |vs|
    ensures SameFile(vs[i].node, vs[j].node) <==> SameKey(vs[i].node, vs[j].node)
    ensures SameKey(vs[i].node, vs[j].node) ==> forall inode :: Holds(inode, vs[i].node) <==> Holds(inode, vs[j].node)
  {
  }

  lemma ShownWithoutClash(vs: seq<Visit>, fs: DestFs, i: nat)
    requires SameStat(vs) && NoInodeClash(vs) && NamesAreLinks(vs) && i < |vs|
    requires fs.Valid() && vs[i].path in fs.links && ShownFrom(vs, i, fs)
    ensures Holds(fs.inodes[fs.links[vs[i].path]], vs[i].node)
  {
    var j :| 0 <= j <= i && (j == i || SameKey(vs[j].node, vs[i].node))
          && Holds(fs.inodes[fs.links[vs[i].path]], vs[j].node);
    if j < i {
      KeysAreFiles(vs, j, i);
    }
  }

  lemma FaithfulWithoutClash(vs: seq<Visit>, fs: DestFs)
    requires SameStat(vs) && NoInodeClash(vs) && NamesAreLinks(vs)
    requires fs.Valid() && PathsMatch(vs, |vs|, fs) && AllShown(vs, |vs|, fs) && SharingByKey(vs, |vs|, fs)
    ensures Faithful(vs, fs)
  {
    hide SameStat, NoInodeClash, NamesAreLinks, Holds, SameKey, SameFile, ShownFrom;
    forall i | 0 <= i < |vs|
      ensures Holds(fs.inodes[fs.links[vs[i].path]], vs[i].node)
    {
      ShownWithoutClash(vs, fs, i);
    }
    forall i, j | 0 <= i < j < |vs|
      ensures fs.links[vs[i].path] == fs.links[vs[j].path] <==> SameFile(vs[i].node, vs[j].node)
    {
      KeysAreFiles(vs, i, j);
    }
  }

  /** Two names that the copy's map takes for one file while they are not, or the other way
      round, are linked wrongly. */
  lemma UnfaithfulWithClash(vs: seq<Visit>, fs: DestFs, i: nat, j: nat)
    requires PathsMatch(vs, |vs|, fs) && SharingByKey(vs, |vs|, fs)
    requires i < j < |vs| && (SameKey(vs[i].node, vs[j].node) <==> !SameFile(vs[i].node, vs[j].node))
    ensures !Faithful(vs, fs)
  {
    assert fs.links[vs[i].path] == fs.links[vs[j].path] <==> SameKey(vs[i].node, vs[j].node);
  }

  /** The copy is faithful exactly when no two linked files clash on their inode number, and no
      file with a single link is seen twice. */
  lemma CopyFaithful(vs: seq<Visit>)
    requires Walked(vs) && SameStat(vs) && CopyAll(vs).Some?
    ensures Faithful(vs, CopyAll(vs).value.fs) <==> NoInodeClash(vs) && NamesAreLinks(vs)
  {
    CopyKeepsInvariant(vs, |vs|);
    var fs := CopyAll(vs).value.fs;
    hide Walked, CopyAll, CopyFirst, SameStat, Faithful, AllShown, SharingByKey, NoInodeClash, NamesAreLinks;
    if !NoInodeClash(vs) || !NamesAreLinks(vs) {
      var i, j := WrongPair(vs);
      UnfaithfulWithClash(vs, fs, i, j);
    } else {
      FaithfulWithoutClash(vs, fs);
    }
  }

  /** Two visits that the copy takes for one file although they are two, or the other way round. */
  lemma WrongPair(vs: seq<Visit>) returns (i: nat, j: nat)
    requires !NoInodeClash(vs) || !NamesAreLinks(vs)
    ensures i < j < |vs| && (SameKey(vs[i].node, vs[j].node) <==> !SameFile(vs[i].node, vs[j].node))
  {
    if !NoInodeClash(vs) {
      i, j :| 0 <= i < j < |vs| && SameKey(vs[i].node, vs[j].node) && vs[i].node.stat.dev != vs[j].node.stat.dev;
    } else {
      i, j :| 0 <= i < j < |vs| && SameFile(vs[i].node, vs[j].node) && vs[i].node.stat.nlink <= 1;
    }
  }

  // ----- The walk of the source is one that can be copied

  function SourceWalk(source: Node): seq<Visit> {
    Walk(source, {COPY_EXCLUSION_PREFIX})
  }

  lemma WalkCanBeCopied(source: Node)
    requires WellFormed(source) && source.stat.kind.Directory?
    ensures Walked(SourceWalk(source))
  {
    var vs := SourceWalk(source);
    var first := Visit([], source);
    WalkExact(source, {COPY_EXCLUSION_PREFIX}, first);
    KeptConcat([first], Below(source.stat.dev, [], source), {COPY_EXCLUSION_PREFIX});
    assert Kept([first], {COPY_EXCLUSION_PREFIX}) == [first] + Kept([], {COPY_EXCLUSION_PREFIX});
    forall i | 0 <= i < |vs|
      ensures vs[i].path != LOST_FOUND
    {
      WalkExact(source, {COPY_EXCLUSION_PREFIX}, vs[i]);
      LostFoundIsExcluded(vs[i].path);
    }
  }

  /** The copy of a source: it fails only at a symlink whose target is too long, and otherwise is
      faithful exactly when no two linked files of the walk clash on their inode number and no
      file with a single link is seen twice. */
  lemma CopyOfSource(source: Node)
    requires WellFormed(source) && source.stat.kind.Directory?
    ensures var vs := SourceWalk(source);
            && (CopyAll(vs).Some? <==> forall i | 0 <= i < |vs| :: !TooLong(vs, i))
            && (CopyAll(vs).Some? && SameStat(vs) ==>
                  (Faithful(vs, CopyAll(vs).value.fs) <==> NoInodeClash(vs) && NamesAreLinks(vs)))
  {
    var vs := SourceWalk(source);
    WalkCanBeCopied(source);
    CopyKeepsInvariant(vs, |vs|);
    if CopyAll(vs).Some? && SameStat(vs) {
      hide SourceWalk, Walked, CopyInvariant;
      CopyFaithful(vs);
    }
  }

  /** Kind by kind, what a faithful copy of a source has under the path of a visit. */
  lemma CopiedByKind(source: Node, v: Visit)
    requires WellFormed(source) && source.stat.kind.Directory? && v in SourceWalk(source)
    requires var vs := SourceWalk(source); SameStat(vs) && NoInodeClash(vs) && NamesAreLinks(vs)
    requires CopyAll(SourceWalk(source)).Some?
    ensures var fs := CopyAll(SourceWalk(source)).value.fs;
            && v.path in fs.links && fs.links[v.path] in fs.inodes
            && var inode := fs.inodes[fs.links[v.path]];
            && (v.node.stat.kind == Directory ==> inode == DirInode)
            && (v.node.stat.kind == Regular ==> inode == FileInode(v.node.content))
            && (v.node.stat.kind == SymLink ==> inode == SymLinkInode(v.node.content))
            && (v.node.stat.kind !in {Directory, Regular, SymLink} ==>
                  inode == DeviceInode(v.node.stat.kind, v.node.stat.rdev))
  {
    CopyOfSource(source);
    var vs := SourceWalk(source);
    hide WellFormed, SourceWalk, CopyAll, SameStat, NoInodeClash, NamesAreLinks;
    var i :| 0 <= i < |vs| && vs[i] == v;
    assert Holds(CopyAll(vs).value.fs.inodes[CopyAll(vs).value.fs.links[vs[i].path]], vs[i].node);
  }

  lemma LostFoundIsExcluded(p: Path)
    ensures p == LOST_FOUND ==> Excluded(p, {COPY_EXCLUSION_PREFIX})
    ensures PartialPath(p) == COPY_EXCLUSION_PREFIX ==> Excluded(p, {COPY_EXCLUSION_PREFIX})
  {
    if p == LOST_FOUND {
      assert Front(p) == [] && Last(p) == "lost+found";
      assert PartialPath(p) == "" + "/" + "lost+found";
    }
  }

  lemma WalkShowsNoLostFound(source: Node, v: Visit)
    requires WellFormed(source) && v in SourceWalk(source)
    ensures PartialPath(v.path) != COPY_EXCLUSION_PREFIX
  {
    WalkExact(source, {COPY_EXCLUSION_PREFIX}, v);
    LostFoundIsExcluded(v.path);
  }

  lemma NothingCopied(vs: seq<Visit>)
    ensures vs[0..] == vs
    ensures CopyFirst(vs, 0) == Some(CopyState(FORMATTED, map[]))
    ensures MARKER !in FORMATTED.links && FORMATTED.Valid()
  {
    assert MARKER[0] != LOST_FOUND[0];
  }

  /** A copy that has failed stays failed. */
  lemma {:induction false} CopyStops(vs: seq<Visit>, n: nat)
    requires n <= |vs| && CopyFirst(vs, n).None?
    ensures CopyAll(vs).None?
    decreases |vs| - n
  {
    if n < |vs| {
      CopyStops(vs, n + 1);
    }
  }

  lemma CopyOneAddsPath(st: CopyState, v: Visit)
    requires st.fs.Valid()
    ensures CopyOne(st, v).Some? ==> CopyOne(st, v).value.fs.links.Keys <= st.fs.links.Keys + {v.path}
  {
  }

  // ----- System calls on the destination

  /** The install device.  log records the contents after every system call that changed them:
      the states in which a crash can leave the device. */
  class Device {
    var formatted: bool
    var fs: DestFs
    ghost var log: seq<DestFs>

    ghost predicate Valid()
      reads this
    {
      formatted ==> fs.Valid()
    }

    /** What is on the device, if it holds a file system at all. */
    function Contents(): Option<DestFs>
      reads this
    {
      if formatted then Some(fs) else None
    }

    method Format()
      modifies this
      ensures formatted && fs == FORMATTED && log == old(log) + [FORMATTED]
    {
      formatted, fs := true, FORMATTED;
      log := log + [fs];
    }

    /** mkdir, mknod, symlink, and open with O_CREAT | O_EXCL. */
    method Create(p: Path, inode: Inode) returns (ok: bool)
      requires formatted && fs.Valid()
      modifies this`fs, this`log
      ensures fs.Valid() && (ok <==> old(fs.CanAdd(p)))
      ensures fs == if ok then old(fs.Created(p, inode)) else old(fs)
      ensures log == if ok then old(log) + [fs] else old(log)
    {
      ok := fs.CanAdd(p);
      if ok {
        fs := fs.Created(p, inode);
        log := log + [fs];
      }
    }

    method Link(old_: Path, p: Path) returns (ok: bool)
      requires formatted && fs.Valid()
      modifies this`fs, this`log
      ensures fs.Valid() && (ok <==> old(fs.CanLink(old_, p)))
      ensures fs == if ok then old(fs.Linked(old_, p)) else old(fs)
      ensures log == if ok then old(log) + [fs] else old(log)
    {
      ok := fs.CanLink(old_, p);
      if ok {
        fs := fs.Linked(old_, p);
        log := log + [fs];
      }
    }

    /** write at the end of an open file: it may be short, but it makes progress. */
    method Append(fd: nat, buf: seq<bv8>) returns (written: nat)
      requires formatted && fs.Valid() && fd in fs.inodes && fs.inodes[fd].FileInode? && buf != []
      modifies this`fs, this`log
      ensures fs.Valid() && 1 <= written <= |buf|
      ensures fs == old(fs).(inodes := old(fs).inodes[fd := FileInode(old(fs).inodes[fd].content + buf[..written])])
      ensures log == old(log) + [fs]
    {
      written :| 1 <= written <= |buf|;
      fs := fs.(inodes := fs.inodes[fd := FileInode(fs.inodes[fd].content + buf[..written])]);
      log := log + [fs];
    }
  }

  /** Whether a visit makes a new regular file, which is created empty and then written. */
  predicate WritesFile(st: CopyState, v: Visit) {
    v.node.stat.kind.Regular? && !(Linkable(v.node) && v.node.stat.ino in st.hardLinks)
  }

  /** The states that one visit takes the device through. */
  ghost predicate VisitStates(st: CopyState, v: Visit, states: seq<DestFs>)
    requires st.fs.Valid()
  {
    var r := CopyOne(st, v);
    if r.None? || v.path == [] then states == []
    else
      && states != [] && states[|states| - 1] == r.value.fs
      && (forall k | 0 <= k < |states| :: states[k].links == r.value.fs.links)
      && (WritesFile(st, v) ==> states[0] == st.fs.Created(v.path, FileInode([])))
      && (!WritesFile(st, v) || v.node.content == [] ==> states == [r.value.fs])
  }

  ghost predicate SizeMatches(node: Node) {
    node.stat.kind.Regular? ==> node.stat.size == |node.content|
  }

  // ----- FilesystemCopierAction

  class FilesystemCopierAction {
    const copySource: Node
    const device: Device
    var isMounted: bool
    var skippedCopy: bool

    constructor (copySource: Node, device: Device)
      ensures this.copySource == copySource && this.device == device && !isMounted && !skippedCopy
    {
      this.copySource, this.device, isMounted, skippedCopy := copySource, device, false, false;
    }

    /** The path names the file, and the file's size is what its stat says. */
    ghost predicate StatMatches(v: Visit) {
      Lookup(copySource, v.path) == Some(v.node) && SizeMatches(v.node)
    }

    /** Writes a whole buffer at the end of an open file, in as many writes as it takes. */
    method WriteBuffer(fd: nat, buf: seq<bv8>)
      requires device.formatted && device.fs.Valid() && fd in device.fs.inodes && device.fs.inodes[fd].FileInode?
      modifies device`fs, device`log
      ensures device.fs.Valid()
      ensures device.fs == old(device.fs).(inodes := old(device.fs).inodes[fd := FileInode(old(device.fs).inodes[fd].content + buf)])
      ensures old(device.log) <= device.log
      ensures forall k | |old(device.log)| <= k < |device.log| :: device.log[k].links == old(device.fs).links
      ensures buf != [] ==> |old(device.log)| < |device.log| && device.log[|device.log| - 1] == device.fs
    {
      ghost var before := device.fs;
      var content := device.fs.inodes[fd].content;
      var writeSize := 0;
      assert content + buf[..0] == content;
      while writeSize < |buf|
        invariant writeSize <= |buf|
        invariant device.fs.Valid()
        invariant device.fs == before.(inodes := before.inodes[fd := FileInode(content + buf[..writeSize])])
        invariant old(device.log) <= device.log
        invariant forall k | |old(device.log)| <= k < |device.log| :: device.log[k].links == before.links
        invariant writeSize > 0 ==> |old(device.log)| < |device.log| && device.log[|device.log| - 1] == device.fs
      {
        var r := device.Append(fd, buf[writeSize..]);
        assert buf[..writeSize] + buf[writeSize..][..r] == buf[..writeSize + r];
        assert content + buf[..writeSize] + buf[writeSize..][..r] == content + (buf[..writeSize] + buf[writeSize..][..r]);
        writeSize := writeSize + r;
      }
      assert writeSize == |buf|;
      assert buf[..writeSize] == buf;
    }

    /** Copies a whole regular file, however the reads and writes split it. */
    method CopyFileSynchronously(v: Visit) returns (ok: bool)
      requires StatMatches(v) && v.node.stat.kind.Regular?
      requires device.formatted && device.fs.Valid()
      modifies device`fs, device`log
      ensures device.fs.Valid() && (ok <==> old(device.fs.CanAdd(v.path)))
      ensures device.fs == if ok then old(device.fs.Created(v.path, FileInode(v.node.content))) else old(device.fs)
      ensures old(device.log) <= device.log
      ensures FileStates(old(device.fs), v, ok, device.log[|old(device.log)|..])
    {
      ghost var before, beforeLog := device.fs, device.log;
      var fdOut := device.fs.next;
      ok := device.Create(v.path, FileInode([]));
      if !ok {
        return;
      }
      var source := Lookup(copySource, v.path).value.content;
      var size := v.node.stat.size;
      var bufSize := if COPY_FILE_BUFFER_SIZE < size then COPY_FILE_BUFFER_SIZE else size;
      var bytesWritten := 0;
      while true
        invariant bytesWritten <= |source|
        invariant device.fs.Valid()
        invariant device.fs == before.Created(v.path, FileInode(source[..bytesWritten]))
        invariant beforeLog <= device.log && |beforeLog| < |device.log|
        invariant device.log[|beforeLog|] == before.Created(v.path, FileInode([]))
        invariant device.log[|device.log| - 1] == device.fs
        invariant forall k | |beforeLog| <= k < |device.log| :: device.log[k].links == device.fs.links
        invariant bytesWritten == 0 ==> |device.log| == |beforeLog| + 1
        decreases |source| - bytesWritten
      {
        // read: nothing at the end of the file, otherwise some bytes, at most a buffer
        var readSize := 0;
        if bytesWritten < |source| && bufSize > 0 {
          readSize :| 1 <= readSize <= bufSize && readSize <= |source| - bytesWritten;
        }
        if readSize == 0 {
          break;
        }
        var buf := source[bytesWritten..bytesWritten + readSize];
        WriteBuffer(fdOut, buf);
        assert bytesWritten + readSize <= size;
        assert source[..bytesWritten] + buf == source[..bytesWritten + readSize];
        bytesWritten := bytesWritten + readSize;
        if bytesWritten == size {
          break;
        }
      }
      assert bytesWritten == size;
      assert source[..bytesWritten] == source;
    }

    /** The states that the copy of a regular file takes the device through. */
    static ghost predicate FileStates(before: DestFs, v: Visit, ok: bool, states: seq<DestFs>) {
      if !ok then states == []
      else
        && states != []
        && states[0] == before.Created(v.path, FileInode([]))
        && states[|states| - 1] == before.Created(v.path, FileInode(v.node.content))
        && (forall k | 0 <= k < |states| :: states[k].links == before.links[v.path := before.next])
        && (v.node.content == [] ==> |states| == 1)
    }

    /** Copies one file of the walk to its place. */
    method CopyOneSynchronously(v: Visit, hardLinks: map<nat, Path>) returns (ok: bool, hardLinks': map<nat, Path>)
      requires StatMatches(v)
      requires device.formatted && device.fs.Valid()
      modifies device`fs, device`log
      ensures device.fs.Valid()
      ensures var r := CopyOne(CopyState(old(device.fs), hardLinks), v);
              && (ok <==> r.Some?)
              && (ok ==> r.value == CopyState(device.fs, hardLinks'))
      ensures !ok ==> device.fs == old(device.fs)
      ensures old(device.log) <= device.log
      ensures VisitStates(CopyState(old(device.fs), hardLinks), v, device.log[|old(device.log)|..])
    {
      hardLinks' := hardLinks;
      var stbuf := v.node.stat;
      if v.path == [] {
        ok := true;
      } else if stbuf.kind.Directory? {
        ok := device.Create(v.path, DirInode);
      } else if stbuf.nlink > 1 && stbuf.ino in hardLinks {
        ok := device.Link(hardLinks[stbuf.ino], v.path);
      } else {
        if stbuf.nlink > 1 {
          hardLinks' := hardLinks'[stbuf.ino := v.path];
        }
        if stbuf.kind.Regular? {
          ok := CopyFileSynchronously(v);
        } else if stbuf.kind.SymLink? {
          // readlink fills a buffer of PATH_MAX + 1 bytes; a full buffer means a cut target
          var target := v.node.content;
          if |target| < PATH_MAX + 1 {
            ok := device.Create(v.path, SymLinkInode(target));
          } else {
            ok := false;
          }
        } else {
          ok := device.Create(v.path, DeviceInode(stbuf.kind, stbuf.rdev));
        }
      }
    }

    /** The source tree as a whole: well formed, with stats that match. */
    ghost predicate SourceValid() {
      && WellFormed(copySource) && copySource.stat.kind.Directory?
      && forall v | v in SourceWalk(copySource) :: SizeMatches(v.node)
    }

    /** Copies everything that the walk of the source visits.  The source's CHECK that the
        iterator never shows lost+found holds. */
    method CopySynchronously() returns (ok: bool)
      requires SourceValid()
      requires device.formatted && device.fs == FORMATTED
      modifies device`fs, device`log
      ensures device.fs.Valid()
      ensures ok <==> CopyAll(SourceWalk(copySource)).Some?
      ensures ok ==> device.fs == CopyAll(SourceWalk(copySource)).value.fs
      ensures old(device.log) <= device.log
      ensures CopyStates(copySource, device.log[|old(device.log)|..])
      ensures SafeFrom(copySource, device.log, |old(device.log)|) <==> !MarkerExposed(SourceWalk(copySource))
    {
      hide CopyOne, Walk, WellFormed, Lookup, PartialPath, VisitStates, SafeFrom, MarkerExposed, Walked;
      hide LogsOfCopy, CopyStates, Joined, CopyFirst;
      hide FilesystemIterator.Valid, FilesystemIterator.Remaining;
      ghost var vs := SourceWalk(copySource);
      var hardLinks: map<nat, Path> := map[];
      var iter := new FilesystemIterator(copySource, {COPY_EXCLUSION_PREFIX});
      ghost var done := 0;
      ghost var states: seq<seq<DestFs>> := [];
      NothingCopied(vs);
      NothingLogged(vs, device.log);
      WalkCanBeCopied(copySource);
      iter.ShowsFirst();
      while !iter.isEnd
        invariant iter.Valid() && fresh(iter)
        invariant iter.root == copySource && iter.exclPrefixes == {COPY_EXCLUSION_PREFIX}
        invariant done <= |vs| && (done == |vs| ==> iter.isEnd) && iter.Remaining() == vs[done..]
        invariant device.formatted && device.fs.Valid()
        invariant CopyFirst(vs, done) == Some(CopyState(device.fs, hardLinks))
        invariant |states| == done && LogsOfCopy(vs, states) && device.log == old(device.log) + Joined(states)
        decreases |vs| - done
      {
        ghost var v := vs[done];
        iter.ShowsFirst();
        WalkShowsNoLostFound(copySource, v);
        assert iter.GetPartialPath() != COPY_EXCLUSION_PREFIX;
        var visit := Visit(iter.names, Lookup(copySource, iter.names).value);
        ghost var beforeLog := device.log;
        var success;
        CopyFirstStep(vs, done);
        success, hardLinks := CopyOneSynchronously(visit, hardLinks);
        ghost var added := device.log[|beforeLog|..];
        LogGrows(vs, states, added);
        SeqAssociative(old(device.log), Joined(states), added);
        states := states + [added];
        if !success {
          CopyStops(vs, done + 1);
          CopyEnds(copySource, states, old(device.log), device.log);
          return false;
        }
        done := done + 1;
        iter.Increment();
        iter.ShowsFirst();
      }
      iter.ShowsFirst();
      CopyEnds(copySource, states, old(device.log), device.log);
      return true;
    }

    method Mount() returns (ok: bool)
      requires !isMounted
      modifies this`isMounted
      ensures ok == isMounted == device.formatted
    {
      isMounted := device.formatted;
      ok := isMounted;
    }

    method Unmount()
      requires isMounted
      modifies this`isMounted
      ensures !isMounted
    {
      isMounted := false;
    }

    /** Format, mount, copy, mark, unmount.  A marker on the device means that the copy on it is
        complete, at every moment, exactly if the source's own marker, if it has one, is not
        exposed.  Opening a marker that is already there changes nothing. */
    method HelperThreadMain() returns (success: bool)
      requires SourceValid() && !isMounted
      modifies this`isMounted, device
      ensures !isMounted && device.formatted && device.fs.Valid()
      ensures success <==> CopyAll(SourceWalk(copySource)).Some?
      ensures success ==> MARKER in device.fs.links && HoldsCompleteCopy(copySource, device.fs)
      ensures old(device.log) <= device.log
      ensures HelperStates(copySource, device.log[|old(device.log)|..])
      ensures SafeFrom(copySource, device.log, |old(device.log)|) <==> !MarkerExposed(SourceWalk(copySource))
    {
      hide CopyAll, SourceWalk, MarkerExposed, HoldsCompleteCopy, CopyStates;
      ghost var vs := SourceWalk(copySource);
      device.Format();
      NothingCopied([]);
      ghost var formatted := device.log;
      var mounted := Mount();
      success := CopySynchronously();
      SafeExtends(copySource, formatted, device.log, |old(device.log)|);
      SafeEnd(copySource, formatted, device.log);
      ghost var copied := device.log;
      if success {
        // the open with O_CREAT that places the marker
        ghost var copy := device.fs;
        CopyWithMarker(copySource, copy);
        if MARKER !in device.fs.links {
          MarkerCanBeAdded(vs);
          var placed := device.Create(MARKER, FileInode([]));
          SafeExtends(copySource, copied, device.log, |old(device.log)|);
        }
      }
      HelperEnds(copySource, old(device.log), formatted, copied, device.log);
      Unmount();
    }

    /** The action skips the copy exactly if the device has a marker.  If it copies, then every
        state that a crash can leave is one in which a later action would be right to skip, exactly
        if the source's own marker is not exposed. */
    method PerformAction(hasInputObject: bool, isFullUpdate: bool) returns (success: bool)
      requires SourceValid() && device.Valid() && !isMounted && !skippedCopy
      modifies this`isMounted, this`skippedCopy, device
      ensures !isMounted && device.Valid()
      ensures !hasInputObject ==> !success
      ensures hasInputObject && isFullUpdate ==> success
      ensures skippedCopy <==> hasInputObject && !isFullUpdate && old(device.formatted && MARKER in device.fs.links)
      ensures skippedCopy ==> success
      ensures skippedCopy || !hasInputObject || isFullUpdate ==> device.fs == old(device.fs) && device.log == old(device.log)
      ensures hasInputObject && !isFullUpdate ==>
                && old(device.log) <= device.log
                && ActionStates(copySource, old(device.Contents()), device.log[|old(device.log)|..])
      ensures hasInputObject && !isFullUpdate && !skippedCopy ==>
                && (success <==> CopyAll(SourceWalk(copySource)).Some?)
                && (success ==> MARKER in device.fs.links && HoldsCompleteCopy(copySource, device.fs))
                && (SafeFrom(copySource, device.log, |old(device.log)|) <==> !MarkerExposed(SourceWalk(copySource)))
    {
      hide HoldsCompleteCopy, CopyAll, SourceWalk, MarkerExposed, SafeFrom, HelperStates;
      if !hasInputObject {
        return false;
      }
      if isFullUpdate {
        return true;
      }
      var mounted := Mount();
      if mounted {
        var doneEarly := false;
        if MARKER in device.fs.links {
          doneEarly := true;
          skippedCopy := true;
        }
        Unmount();
        if doneEarly {
          assert !isMounted;
          return true;
        }
      }
      success := HelperThreadMain();
      assert !isMounted;
    }
  }

  /** Every file of the copy is there, with the same inode. */
  ghost predicate HoldsCompleteCopy(source: Node, fs: DestFs) {
    && CopyAll(SourceWalk(source)).Some?
    && var copy := CopyAll(SourceWalk(source)).value.fs;
    && fs.Valid()
    && fs.links.Keys == copy.links.Keys + {MARKER}
    && forall p | p in copy.links ::
         fs.links[p] == copy.links[p] && fs.inodes[fs.links[p]] == copy.inodes[copy.links[p]]
  }

  ghost predicate MarkerMeansComplete(source: Node, fs: DestFs) {
    MARKER in fs.links ==> HoldsCompleteCopy(source, fs)
  }

  /** From the n-th logged state on, a marker always means a complete copy. */
  ghost predicate SafeFrom(source: Node, log: seq<DestFs>, n: nat) {
    forall k | n <= k < |log| :: MarkerMeansComplete(source, log[k])
  }

  /** Visit i is a marker that shows in a state that is not complete: because something comes
      after it, or because it is a new file whose content has still to be written. */
  ghost predicate ExposedBy(vs: seq<Visit>, i: nat)
    requires i < |vs|
  {
    && vs[i].path == MARKER
    && (forall j | 0 <= j <= i :: !TooLong(vs, j))
    && (i < |vs| - 1
        || (vs[i].node.stat.kind.Regular? && vs[i].node.content != []
            && forall j | 0 <= j < i :: !SameKey(vs[j].node, vs[i].node)))
  }

  ghost predicate ExposedBefore(vs: seq<Visit>, n: nat)
    requires n <= |vs|
  {
    exists i | 0 <= i < n :: ExposedBy(vs, i)
  }

  /** The source has a marker of its own, and the copy shows it before it is complete. */
  ghost predicate MarkerExposed(vs: seq<Visit>) {
    ExposedBefore(vs, |vs|)
  }

  lemma SafeExtends(source: Node, log: seq<DestFs>, log': seq<DestFs>, n: nat)
    requires log <= log' && n <= |log|
    ensures SafeFrom(source, log', n) <==> SafeFrom(source, log, n) && SafeFrom(source, log'[|log|..], 0)
  {
    hide MarkerMeansComplete;
    var added := log'[|log|..];
    assert forall k | 0 <= k < |added| :: added[k] == log'[|log| + k];
    assert forall k | |log| <= k < |log'| :: log'[k] == added[k - |log|];
    assert forall k | 0 <= k < |log| :: log'[k] == log[k];
  }

  lemma SafeEnd(source: Node, log: seq<DestFs>, log': seq<DestFs>)
    requires log <= log'
    ensures SafeFrom(source, log', |log|) <==> SafeFrom(source, log'[|log|..], 0)
  {
    SafeExtends(source, log, log', |log|);
  }

  lemma ExposedOneMore(vs: seq<Visit>, n: nat)
    requires n < |vs|
    ensures ExposedBefore(vs, n + 1) <==> ExposedBefore(vs, n) || ExposedBy(vs, n)
  {
    hide ExposedBy;
  }

  /** When the copy fails, neither that visit nor a later one exposes anything. */
  lemma StoppedExposed(vs: seq<Visit>, n: nat)
    requires Walked(vs) && n < |vs| && CopyFirst(vs, n + 1).None?
    ensures MarkerExposed(vs) <==> ExposedBefore(vs, n)
    ensures !ExposedBy(vs, n)
  {
    hide Walked, CopyFirst, CopyInvariant;
    CopyKeepsInvariant(vs, n + 1);
    hide TooLong;
    var j :| 0 <= j <= n && TooLong(vs, j);
    assert forall i | n <= i < |vs| :: !ExposedBy(vs, i);
  }

  /** Exactly a key of an earlier visit leads to a link. */
  lemma LinkedByKey(vs: seq<Visit>, n: nat, st: CopyState)
    requires n < |vs| && CopyInvariant(vs, n, st)
    ensures WritesFile(st, vs[n])
       <==> vs[n].node.stat.kind.Regular? && forall j | 0 <= j < n :: !SameKey(vs[j].node, vs[n].node)
  {
    hide AllShown, SharingByKey, PathsMatch;
    if Linkable(vs[n].node) && vs[n].node.stat.ino in st.hardLinks {
      assert Backed(vs, n, vs[n].node.stat.ino, st.hardLinks[vs[n].node.stat.ino]);
      var k :| 0 <= k < n && Linkable(vs[k].node) && vs[k].node.stat.ino == vs[n].node.stat.ino;
      assert SameKey(vs[k].node, vs[n].node);
    }
  }

  /** A state that has only the paths of the first n visits is not a complete copy. */
  lemma IncompleteBeforeEnd(source: Node, vs: seq<Visit>, n: nat, st: CopyState, fs: DestFs)
    requires vs == SourceWalk(source) && Walked(vs) && 0 < n < |vs|
    requires CopyInvariant(vs, n, st) && fs.links == st.fs.links
    ensures !HoldsCompleteCopy(source, fs)
  {
    if CopyAll(vs).Some? {
      hide CopyFirst, AllShown, SharingByKey, MapComplete, MapBacked, SourceWalk;
      CopyKeepsInvariant(vs, |vs|);
      var copy := CopyAll(vs).value.fs;
      assert vs[n].path in copy.links.Keys;
      assert vs[n].path !in st.fs.links.Keys;
    }
  }

  /** A marker whose content is still to be written does not mean that the copy is complete. */
  lemma IncompleteUnwritten(source: Node, vs: seq<Visit>, st: CopyState, r: CopyState)
    requires vs == SourceWalk(source) && vs != [] && st.fs.Valid()
    requires CopyAll(vs) == Some(r) && CopyOne(st, vs[|vs| - 1]) == Some(r)
    requires WritesFile(st, vs[|vs| - 1]) && vs[|vs| - 1].path != [] && vs[|vs| - 1].node.content != []
    ensures !HoldsCompleteCopy(source, st.fs.Created(vs[|vs| - 1].path, FileInode([])))
  {
    var v := vs[|vs| - 1];
    hide SourceWalk, CopyAll;
    assert r.fs == st.fs.Created(v.path, FileInode(v.node.content));
    assert v.path in r.fs.links && r.fs.inodes[r.fs.links[v.path]] == FileInode(v.node.content);
  }

  lemma MarkerFromBefore(vs: seq<Visit>, n: nat, fs: DestFs)
    requires n < |vs| && PathsMatch(vs, n, fs)
    requires forall j | 0 <= j < n :: !TooLong(vs, j)
    ensures MARKER in fs.links ==> ExposedBefore(vs, n)
  {
    hide TooLong;
    assert MARKER[0] != LOST_FOUND[0];
    if MARKER in fs.links {
      var i :| 0 <= i < n && vs[i].path == MARKER;
      assert ExposedBy(vs, i);
    }
  }

  /** The states of a visit are unsafe exactly if it exposes a marker. */
  lemma VisitExposes(source: Node, vs: seq<Visit>, n: nat, states: seq<DestFs>)
    requires vs == SourceWalk(source) && Walked(vs) && n < |vs| && CopyFirst(vs, n).Some?
    requires VisitStates(CopyFirst(vs, n).value, vs[n], states)
    requires !ExposedBefore(vs, n)
    ensures SafeFrom(source, states, 0) <==> !ExposedBy(vs, n)
  {
    hide *;
    var st := CopyFirst(vs, n).value;
    CopyFirstStep(vs, n);
    RootIsFirst(vs, n);
    if vs[n].path == [] || CopyOne(st, vs[n]).None? {
      NothingAdded(source, st, vs[n], states);
      if vs[n].path == [] {
        NotExposedByRoot(vs, n);
      } else {
        StoppedExposed(vs, n);
      }
    } else {
      CopyKeepsInvariant(vs, n);
      CopyKeepsInvariant(vs, n + 1);
      PathsOfCopy(vs, n, st);
      MarkerFromBefore(vs, n, st.fs);
      VisitExposesMarker(source, vs, n, st, CopyFirst(vs, n + 1).value, states);
    }
  }

  lemma CopyFirstStep(vs: seq<Visit>, n: nat)
    requires n < |vs| && CopyFirst(vs, n).Some?
    ensures CopyFirst(vs, n).value.fs.Valid()
    ensures CopyFirst(vs, n + 1) == CopyOne(CopyFirst(vs, n).value, vs[n])
  {
  }

  lemma RootIsFirst(vs: seq<Visit>, n: nat)
    requires Walked(vs) && n < |vs|
    ensures vs[n].path == [] <==> n == 0
  {
    assert n > 0 ==> vs[0].path != vs[n].path;
  }

  lemma NothingAdded(source: Node, st: CopyState, v: Visit, states: seq<DestFs>)
    requires st.fs.Valid() && VisitStates(st, v, states) && (v.path == [] || CopyOne(st, v).None?)
    ensures SafeFrom(source, states, 0)
  {
    hide CopyOne;
  }

  lemma NotExposedByRoot(vs: seq<Visit>, n: nat)
    requires n < |vs| && vs[n].path == []
    ensures !ExposedBy(vs, n)
  {
  }

  lemma PathsOfCopy(vs: seq<Visit>, n: nat, st: CopyState)
    requires n <= |vs| && CopyInvariant(vs, n, st)
    ensures st.fs.Valid() && PathsMatch(vs, n, st.fs)
  {
  }

  lemma VisitExposesMarker(source: Node, vs: seq<Visit>, n: nat, st: CopyState, r: CopyState, states: seq<DestFs>)
    requires vs == SourceWalk(source) && Walked(vs) && 0 < n < |vs| && vs[n].path != []
    requires CopyInvariant(vs, n, st) && CopyInvariant(vs, n + 1, r)
    requires CopyOne(st, vs[n]) == Some(r) && CopyFirst(vs, n + 1) == Some(r)
    requires st.fs.Valid() && VisitStates(st, vs[n], states) && MARKER !in st.fs.links
    requires forall j | 0 <= j <= n :: !TooLong(vs, j)
    ensures SafeFrom(source, states, 0) <==> !ExposedBy(vs, n)
  {
    hide *;
    if vs[n].path != MARKER {
      OtherVisitIsSafe(source, st, r, vs, n, states);
    } else if n < |vs| - 1 {
      LinksOfStates(st, vs[n], r, states);
      IncompleteBeforeEnd(source, vs, n + 1, r, states[|states| - 1]);
      UnsafeState(source, states, |states| - 1);
      ExposedEarly(vs, n);
    } else {
      LinkedByKey(vs, n, st);
      LastMarkerExposes(source, vs, st, r, states);
    }
  }

  /** A visit adds its path in every state. */
  lemma LinksOfStates(st: CopyState, v: Visit, r: CopyState, states: seq<DestFs>)
    requires st.fs.Valid() && VisitStates(st, v, states) && CopyOne(st, v) == Some(r) && v.path != []
    ensures states != [] && states[|states| - 1] == r.fs && v.path in r.fs.links
    ensures forall k | 0 <= k < |states| :: states[k].links == r.fs.links
    ensures r.fs.links.Keys <= st.fs.links.Keys + {v.path}
  {
    CopyOneAddsPath(st, v);
  }

  lemma OtherVisitIsSafe(source: Node, st: CopyState, r: CopyState, vs: seq<Visit>, n: nat, states: seq<DestFs>)
    requires n < |vs| && vs[n].path != MARKER && vs[n].path != []
    requires st.fs.Valid() && VisitStates(st, vs[n], states) && CopyOne(st, vs[n]) == Some(r) && MARKER !in st.fs.links
    ensures SafeFrom(source, states, 0) && !ExposedBy(vs, n)
  {
    hide VisitStates, CopyOne, HoldsCompleteCopy, TooLong;
    LinksOfStates(st, vs[n], r, states);
    assert MARKER !in r.fs.links.Keys;
  }

  lemma UnsafeState(source: Node, states: seq<DestFs>, k: nat)
    requires k < |states| && MARKER in states[k].links && !HoldsCompleteCopy(source, states[k])
    ensures !SafeFrom(source, states, 0)
  {
    hide HoldsCompleteCopy;
    assert !MarkerMeansComplete(source, states[k]);
  }

  lemma ExposedEarly(vs: seq<Visit>, n: nat)
    requires n < |vs| - 1 && vs[n].path == MARKER && forall j | 0 <= j <= n :: !TooLong(vs, j)
    ensures ExposedBy(vs, n)
  {
    hide TooLong;
  }

  /** The last visit exposes its marker exactly if the file has to be written. */
  lemma LastMarkerExposes(source: Node, vs: seq<Visit>, st: CopyState, r: CopyState, states: seq<DestFs>)
    requires vs == SourceWalk(source) && vs != [] && vs[|vs| - 1].path == MARKER && CopyFirst(vs, |vs|) == Some(r)
    requires st.fs.Valid() && VisitStates(st, vs[|vs| - 1], states) && CopyOne(st, vs[|vs| - 1]) == Some(r)
    requires forall j | 0 <= j < |vs| :: !TooLong(vs, j)
    requires WritesFile(st, vs[|vs| - 1])
        <==> vs[|vs| - 1].node.stat.kind.Regular?
             && forall j | 0 <= j < |vs| - 1 :: !SameKey(vs[j].node, vs[|vs| - 1].node)
    ensures SafeFrom(source, states, 0) <==> !ExposedBy(vs, |vs| - 1)
  {
    hide SourceWalk, TooLong, CopyOne, CopyFirst, HoldsCompleteCopy, SameKey, WritesFile;
    assert CopyAll(vs) == Some(r);
    var v := vs[|vs| - 1];
    LinksOfStates(st, v, r, states);
    if WritesFile(st, v) && v.node.content != [] {
      IncompleteUnwritten(source, vs, st, r);
      UnsafeState(source, states, 0);
    } else {
      CopyWithMarker(source, r.fs);
      assert states == [r.fs];
    }
  }

  /** The log stays safe exactly as long as nothing is exposed. */
  lemma VisitKeepsSafe(source: Node, vs: seq<Visit>, n: nat, log: seq<DestFs>, log': seq<DestFs>, from: nat)
    requires vs == SourceWalk(source) && Walked(vs) && n < |vs| && CopyFirst(vs, n).Some?
    requires from <= |log| && log <= log' && VisitStates(CopyFirst(vs, n).value, vs[n], log'[|log|..])
    requires SafeFrom(source, log, from) <==> !ExposedBefore(vs, n)
    ensures SafeFrom(source, log', from) <==> !ExposedBefore(vs, n + 1)
    ensures CopyFirst(vs, n + 1).None? ==> (SafeFrom(source, log', from) <==> !MarkerExposed(vs))
  {
    hide *;
    SafeExtends(source, log, log', from);
    ExposedOneMore(vs, n);
    if !ExposedBefore(vs, n) {
      VisitExposes(source, vs, n, log'[|log|..]);
    }
    if CopyFirst(vs, n + 1).None? {
      StoppedExposed(vs, n);
    }
  }

  /** Visit by visit, what the copy of a source logs. */
  ghost predicate LogsOfCopy(vs: seq<Visit>, states: seq<seq<DestFs>>) {
    && |states| <= |vs|
    && forall n | 0 <= n < |states| :: CopyFirst(vs, n).Some? && VisitStates(CopyFirst(vs, n).value, vs[n], states[n])
  }

  /** In every state that a copy goes through, to its end or to where it fails, a marker means
      that the copy is complete: exactly if the source has no marker that is exposed. */
  lemma MarkerSafeExactly(source: Node, states: seq<seq<DestFs>>)
    requires WellFormed(source) && source.stat.kind.Directory?
    requires LogsOfCopy(SourceWalk(source), states)
    requires |states| == |SourceWalk(source)| || CopyFirst(SourceWalk(source), |states|).None?
    ensures SafeFrom(source, Joined(states), 0) <==> !MarkerExposed(SourceWalk(source))
  {
    hide *;
    var vs := SourceWalk(source);
    WalkCanBeCopied(source);
    LogsAtMost(vs, states);
    SafeUpTo(source, vs, states);
    if |states| < |vs| {
      StoppedCopyExposes(vs, |states|);
    } else {
      MarkerExposedIs(vs);
    }
  }

  lemma LogsAtMost(vs: seq<Visit>, states: seq<seq<DestFs>>)
    requires LogsOfCopy(vs, states)
    ensures |states| <= |vs|
  {
  }

  lemma MarkerExposedIs(vs: seq<Visit>)
    ensures MarkerExposed(vs) <==> ExposedBefore(vs, |vs|)
  {
  }

  lemma StoppedCopyExposes(vs: seq<Visit>, n: nat)
    requires Walked(vs) && n <= |vs| && CopyFirst(vs, n).None?
    ensures MarkerExposed(vs) <==> ExposedBefore(vs, n)
  {
    hide *;
    CopyNeedsVisits(vs, n);
    StoppedExposed(vs, n - 1);
    ExposedOneMore(vs, n - 1);
  }

  // ----- Actions that are cut off

  /** The states that a copy takes the device through, to its end or to where it fails. */
  ghost predicate CopyStates(source: Node, log: seq<DestFs>) {
    exists states: seq<seq<DestFs>> :: WholeCopy(SourceWalk(source), states) && log == Joined(states)
  }

  ghost predicate WholeCopy(vs: seq<Visit>, states: seq<seq<DestFs>>) {
    LogsOfCopy(vs, states) && (|states| == |vs| || CopyFirst(vs, |states|).None?)
  }

  /** Placing the marker after a copy, unless the copy has failed or has brought one. */
  function MarkStates(vs: seq<Visit>): seq<DestFs> {
    match CopyAll(vs)
    case None => []
    case Some(copy) => if MARKER in copy.fs.links then [] else [copy.fs.Created(MARKER, FileInode([]))]
  }

  /** The states that formatting, copying and marking take the device through. */
  ghost predicate HelperStates(source: Node, log: seq<DestFs>) {
    exists copied :: CopyStates(source, copied) && log == [FORMATTED] + copied + MarkStates(SourceWalk(source))
  }

  predicate Marked(device: Option<DestFs>) {
    device.Some? && MARKER in device.value.links
  }

  /** The states that an action takes the device through: none if it skips the copy. */
  ghost predicate ActionStates(source: Node, before: Option<DestFs>, log: seq<DestFs>) {
    if Marked(before) then log == [] else HelperStates(source, log)
  }

  /** What is on the device if an action is cut off after n states. */
  function CutOff(before: Option<DestFs>, log: seq<DestFs>, n: nat): Option<DestFs>
    requires n <= |log|
  {
    if n == 0 then before else Some(log[n - 1])
  }

  /** One action, cut off anywhere or not at all. */
  ghost predicate Attempted(source: Node, before: Option<DestFs>, after: Option<DestFs>) {
    exists log: seq<DestFs>, n: nat ::
      ActionStates(source, before, log) && n <= |log| && after == CutOff(before, log, n)
  }

  /** The device between any number of actions; at first it has no marker. */
  ghost predicate Attempts(source: Node, devices: seq<Option<DestFs>>) {
    && devices != [] && !Marked(devices[0])
    && forall k | 0 <= k < |devices| - 1 :: Attempted(source, devices[k], devices[k + 1])
  }

  /** An action that skips the copy now finds a complete one. */
  ghost predicate SkipIsRight(source: Node, device: Option<DestFs>) {
    Marked(device) ==> HoldsCompleteCopy(source, device.value)
  }

  /** Whenever actions are cut off, an action that then skips the copy is right to do so: exactly
      if the source has no marker that is exposed. */
  lemma SkipsRightExactly(source: Node)
    requires WellFormed(source) && source.stat.kind.Directory?
    ensures (forall devices: seq<Option<DestFs>>, i: nat | Attempts(source, devices) && i < |devices| ::
               SkipIsRight(source, devices[i]))
            <==> !MarkerExposed(SourceWalk(source))
  {
    hide Attempts, SkipIsRight, MarkerExposed, SourceWalk, WellFormed;
    if MarkerExposed(SourceWalk(source)) {
      var fs := WrongSkip(source);
      var devices := [None, Some(fs)];
      assert Attempts(source, devices) && !SkipIsRight(source, devices[1]);
    } else {
      forall devices: seq<Option<DestFs>>, i: nat | Attempts(source, devices) && i < |devices|
        ensures SkipIsRight(source, devices[i])
      {
        SkipsStayRight(source, devices, i);
      }
    }
  }

  lemma {:induction false} SkipsStayRight(source: Node, devices: seq<Option<DestFs>>, i: nat)
    requires WellFormed(source) && source.stat.kind.Directory? && !MarkerExposed(SourceWalk(source))
    requires Attempts(source, devices) && i < |devices|
    ensures SkipIsRight(source, devices[i])
  {
    hide MarkerExposed, SourceWalk, WellFormed, Attempted, HoldsCompleteCopy;
    if i > 0 {
      SkipsStayRight(source, devices, i - 1);
      assert Attempted(source, devices[i - 1], devices[i]);
      SkipStaysRight(source, devices[i - 1], devices[i]);
    }
  }

  lemma SkipStaysRight(source: Node, before: Option<DestFs>, after: Option<DestFs>)
    requires WellFormed(source) && source.stat.kind.Directory? && !MarkerExposed(SourceWalk(source))
    requires SkipIsRight(source, before) && Attempted(source, before, after)
    ensures SkipIsRight(source, after)
  {
    hide MarkerExposed, SourceWalk, WellFormed, HoldsCompleteCopy, HelperStates;
    var log, n: nat :| ActionStates(source, before, log) && n <= |log| && after == CutOff(before, log, n);
    if n > 0 {
      HelperSafeExactly(source, log);
      assert MarkerMeansComplete(source, log[n - 1]);
    }
  }

  /** With an exposed marker, a first action that is cut off can leave the device so that the next
      one is wrong to skip the copy. */
  lemma WrongSkip(source: Node) returns (fs: DestFs)
    requires WellFormed(source) && source.stat.kind.Directory? && MarkerExposed(SourceWalk(source))
    ensures Attempts(source, [None, Some(fs)]) && !SkipIsRight(source, Some(fs))
  {
    hide MarkerExposed, SourceWalk, WellFormed, HoldsCompleteCopy, HelperStates;
    var log := HelperStatesExist(source);
    HelperSafeExactly(source, log);
    var k :| 0 <= k < |log| && !MarkerMeansComplete(source, log[k]);
    fs := log[k];
    assert ActionStates(source, None, log);
    assert CutOff(None, log, k + 1) == Some(fs);
  }

  /** The states of an action that copies are safe exactly if no marker is exposed. */
  lemma HelperSafeExactly(source: Node, log: seq<DestFs>)
    requires WellFormed(source) && source.stat.kind.Directory? && HelperStates(source, log)
    ensures SafeFrom(source, log, 0) <==> !MarkerExposed(SourceWalk(source))
  {
    hide MarkerExposed, SourceWalk, WellFormed, SafeFrom, MarkStates;
    var vs := SourceWalk(source);
    var copied :| CopyStates(source, copied) && log == [FORMATTED] + copied + MarkStates(vs);
    var states: seq<seq<DestFs>> :| WholeCopy(vs, states) && copied == Joined(states);
    hide *;
    WholeCopySafe(source, states);
    FormattedAndMarkedAreSafe(source);
    SafeParts(source, [FORMATTED], copied);
    SafeParts(source, [FORMATTED] + copied, MarkStates(vs));
  }

  lemma WholeCopySafe(source: Node, states: seq<seq<DestFs>>)
    requires WellFormed(source) && source.stat.kind.Directory? && WholeCopy(SourceWalk(source), states)
    ensures SafeFrom(source, Joined(states), 0) <==> !MarkerExposed(SourceWalk(source))
  {
    hide WellFormed, SourceWalk, LogsOfCopy, SafeFrom, MarkerExposed;
    MarkerSafeExactly(source, states);
  }

  lemma FormattedAndMarkedAreSafe(source: Node)
    ensures SafeFrom(source, [FORMATTED], 0)
    ensures SafeFrom(source, MarkStates(SourceWalk(source)), 0)
  {
    NothingCopied([]);
    hide SourceWalk, HoldsCompleteCopy, CopyAll;
    if CopyAll(SourceWalk(source)).Some? {
      CopyWithMarker(source, CopyAll(SourceWalk(source)).value.fs);
    }
  }

  lemma SafeParts(source: Node, a: seq<DestFs>, b: seq<DestFs>)
    ensures SafeFrom(source, a + b, 0) <==> SafeFrom(source, a, 0) && SafeFrom(source, b, 0)
  {
    hide SafeFrom;
    assert (a + b)[|a|..] == b;
    SafeExtends(source, a, a + b, 0);
  }

  /** Every source can be copied somehow, to the end or to where it fails. */
  lemma HelperStatesExist(source: Node) returns (log: seq<DestFs>)
    ensures HelperStates(source, log)
  {
    hide SourceWalk, LogsOfCopy;
    var vs := SourceWalk(source);
    var states := WholeCopyExists(vs, |vs|);
    assert WholeCopy(vs, states);
    assert CopyStates(source, Joined(states));
    log := [FORMATTED] + Joined(states) + MarkStates(vs);
  }

  lemma {:induction false} WholeCopyExists(vs: seq<Visit>, n: nat) returns (states: seq<seq<DestFs>>)
    requires n <= |vs|
    ensures LogsOfCopy(vs, states) && |states| <= n
    ensures |states| == n || CopyFirst(vs, |states|).None?
  {
    hide VisitStates, LogsOfCopy, CopyFirst, Joined;
    states := [];
    NothingLogged(vs, []);
    if n > 0 {
      states := WholeCopyExists(vs, n - 1);
      if |states| == n - 1 && CopyFirst(vs, n - 1).Some? {
        var added := VisitStatesExist(CopyFirst(vs, n - 1).value, vs[n - 1]);
        LogGrows(vs, states, added);
        states := states + [added];
      }
    }
  }

  lemma VisitStatesExist(st: CopyState, v: Visit) returns (states: seq<DestFs>)
    requires st.fs.Valid()
    ensures VisitStates(st, v, states)
  {
    var r := CopyOne(st, v);
    if r.None? || v.path == [] {
      states := [];
    } else if WritesFile(st, v) && v.node.content != [] {
      states := [st.fs.Created(v.path, FileInode([])), r.value.fs];
    } else {
      states := [r.value.fs];
    }
  }

  lemma LogGrows(vs: seq<Visit>, states: seq<seq<DestFs>>, added: seq<DestFs>)
    requires LogsOfCopy(vs, states) && |states| < |vs| && CopyFirst(vs, |states|).Some?
    requires VisitStates(CopyFirst(vs, |states|).value, vs[|states|], added)
    ensures LogsOfCopy(vs, states + [added]) && Joined(states + [added]) == Joined(states) + added
  {
    hide VisitStates, CopyFirst;
    assert Front(states + [added]) == states;
  }

  lemma NothingLogged(vs: seq<Visit>, log: seq<DestFs>)
    ensures LogsOfCopy(vs, []) && log == log + Joined<DestFs>([])
  {
  }

  lemma CopyEnds(source: Node, states: seq<seq<DestFs>>, before: seq<DestFs>, log: seq<DestFs>)
    requires WellFormed(source) && source.stat.kind.Directory? && LogsOfCopy(SourceWalk(source), states)
    requires |states| == |SourceWalk(source)| || CopyFirst(SourceWalk(source), |states|).None?
    requires log == before + Joined(states)
    ensures before <= log && CopyStates(source, log[|before|..])
    ensures SafeFrom(source, log, |before|) <==> !MarkerExposed(SourceWalk(source))
  {
    hide LogsOfCopy, SourceWalk, WellFormed, SafeFrom, MarkerExposed, CopyFirst;
    assert log[|before|..] == Joined(states);
    assert WholeCopy(SourceWalk(source), states);
    WholeCopySafe(source, states);
    SafeEnd(source, before, log);
  }

  lemma HelperEnds(source: Node, before: seq<DestFs>, formatted: seq<DestFs>, copied: seq<DestFs>, log: seq<DestFs>)
    requires formatted == before + [FORMATTED] && formatted <= copied && log == copied + MarkStates(SourceWalk(source))
    requires CopyStates(source, copied[|formatted|..])
    ensures before <= log && HelperStates(source, log[|before|..])
  {
    hide CopyStates, MarkStates, SourceWalk;
    var added := copied[|formatted|..];
    assert copied == before + [FORMATTED] + added;
    assert log[|before|..] == [FORMATTED] + added + MarkStates(SourceWalk(source));
  }

  lemma CopyNeedsVisits(vs: seq<Visit>, n: nat)
    requires n <= |vs|
    ensures CopyFirst(vs, n).None? ==> n > 0
  {
  }

  lemma {:induction false} SafeUpTo(source: Node, vs: seq<Visit>, states: seq<seq<DestFs>>)
    requires vs == SourceWalk(source) && Walked(vs) && LogsOfCopy(vs, states)
    ensures SafeFrom(source, Joined(states), 0) <==> !ExposedBefore(vs, |states|)
  {
    hide SourceWalk, Walked, CopyFirst, VisitStates, SafeFrom, ExposedBefore;
    if states == [] {
      NothingExposed(source, vs, []);
    } else {
      var init, last := states[..|states| - 1], states[|states| - 1];
      SafeUpTo(source, vs, init);
      assert Joined(states)[|Joined(init)|..] == last;
      VisitKeepsSafe(source, vs, |init|, Joined(init), Joined(states), 0);
    }
  }

  lemma NothingExposed(source: Node, vs: seq<Visit>, log: seq<DestFs>)
    ensures SafeFrom(source, log, |log|) && !ExposedBefore(vs, 0)
  {
  }

  lemma MarkerCanBeAdded(vs: seq<Visit>)
    requires CopyAll(vs).Some? && MARKER !in CopyAll(vs).value.fs.links
    ensures CopyAll(vs).value.fs.CanAdd(MARKER)
  {
    RootStaysDirectory(vs, |vs|);
    assert Front(MARKER) == [];
  }

  lemma {:induction false} RootStaysDirectory(vs: seq<Visit>, n: nat)
    requires n <= |vs| && CopyFirst(vs, n).Some?
    ensures CopyFirst(vs, n).value.fs.IsDir([])
  {
    if n > 0 {
      RootStaysDirectory(vs, n - 1);
    }
  }

  /** A finished copy with its marker is complete, whether the copy itself brought the marker or
      it was placed afterwards. */
  lemma CopyWithMarker(source: Node, copy: DestFs)
    requires CopyAll(SourceWalk(source)).Some? && copy == CopyAll(SourceWalk(source)).value.fs
    ensures MARKER in copy.links ==> HoldsCompleteCopy(source, copy)
    ensures MARKER !in copy.links ==> HoldsCompleteCopy(source, copy.Created(MARKER, FileInode([])))
  {
  }
}

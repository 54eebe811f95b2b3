/** Paths, inodes and directories of the mounted view: linked maps that must describe one tree. */
module InodeTree {
  import opened Bytes

  // ---------------------------------------------------------------- paths

  /** `normalize_path`: a leading slash is added, one trailing slash removed. */
  function NormalizePath(path: string): (r: string)
    ensures |r| >= 1 && r[0] == '/' && |r| <= |path| + 1
    ensures path != [] && path[0] == '/' ==> |r| <= |path|
  {
    var p := if path != [] && path[0] == '/' then path else "/" + path;
    if |p| > 1 && p[|p| - 1] == '/' then p[..|p| - 1] else p
  }

  /** `rfind('/')` */
  function LastSlash(s: string): (r: Option<nat>)
    ensures r.Some? ==> r.value < |s| && s[r.value] == '/' && forall i :: r.value < i < |s| ==> s[i] != '/'
    ensures r.None? ==> forall i :: 0 <= i < |s| ==> s[i] != '/'
  {
    if s == [] then None else if s[|s| - 1] == '/' then Some(|s| - 1) else LastSlash(s[..|s| - 1])
  }

  function ParentPath(path: string): (r: Option<string>)
    ensures r.Some? ==> |r.value| >= 1 && r.value[0] == '/'
    ensures r.Some? ==> r.value == "/" || |r.value| < |NormalizePath(path)|
    ensures r.None? ==> NormalizePath(path) == "/"
  {
    var p := NormalizePath(path);
    if p == "/" then None
    else
      match LastSlash(p)
      case Some(i) => if i == 0 then Some("/") else Some(p[..i])
      case None => None
  }

  function TrimSlashes(s: string): string
  {
    if s != [] && s[|s| - 1] == '/' then TrimSlashes(s[..|s| - 1]) else s
  }

  function FileName(path: string): string
  {
    var p := TrimSlashes(path);
    match LastSlash(p)
    case Some(i) => p[i + 1..]
    case None => p
  }

  /** The root, or slash-separated nonempty components. */
  ghost predicate CleanPath(p: string)
  {
    p == "/" ||
    (|p| >= 2 && p[0] == '/' && p[|p| - 1] != '/' && forall i :: 0 <= i < |p| - 1 ==> !(p[i] == '/' && p[i + 1] == '/'))
  }

  ghost predicate Component(name: string)
  {
    name != [] && '/' !in name
  }

  function Join(dir: string, name: string): string
  {
    if dir == "/" then "/" + name else dir + "/" + name
  }

  /** A canonical path other than the root is its parent, a slash and a component. */
  lemma PathParts(p: string)
    requires CleanPath(p) && p != "/"
    ensures NormalizePath(p) == p && ParentPath(p).Some?
    ensures var q, name := ParentPath(p).value, FileName(p);
      CleanPath(q) && Component(name) && Join(q, name) == p && |q| < |p|
  {
    assert TrimSlashes(p) == p;
    var i := LastSlash(p).value;
    if i > 0 {
      assert p[i - 1] != '/';
      assert p == p[..i] + "/" + p[i + 1..];
    } else {
      assert p == "/" + p[1..];
    }
  }

  /** Parent and name can be read off a joined path. */
  lemma JoinParts(dir: string, name: string)
    requires CleanPath(dir) && Component(name)
    ensures CleanPath(Join(dir, name)) && Join(dir, name) != "/"
    ensures ParentPath(Join(dir, name)) == Some(dir) && FileName(Join(dir, name)) == name
  {
    var p := Join(dir, name);
    var n := if dir == "/" then 0 else |dir|;
    assert p[n] == '/' && p[n + 1..] == name && p[..n] == if dir == "/" then "" else dir;
    forall i | n < i < |p| ensures p[i] != '/' {
      assert p[i] == name[i - n - 1];
    }
    assert TrimSlashes(p) == p;
    assert LastSlash(p) == Some(n);
  }

  // ---------------------------------------------------------------- the maps

  const ROOT_INO: nat := 1

  datatype Kind = RegularFile | Directory | Symlink | CharDevice | BlockDevice | Fifo | Socket

  datatype Attr = Attr(kind: Kind, nlink: nat)

  datatype DirEntry = DirEntry(ino: nat, name: string, kind: Kind)

  datatype TreeError = AlreadyExists | InvalidPath | ParentNotFound

  datatype Tree = Tree(inodes: map<nat, Attr>, inodePaths: map<nat, string>, pathInodes: map<string, nat>,
                       directories: map<nat, seq<DirEntry>>, nextIno: nat)

  const InitialTree := Tree(map[1 := Attr(Directory, 2)], map[1 := "/"], map["/" := 1], map[1 := []], 2)

  /** A new inode with its path; directories start empty. */
  function Insert(t: Tree, path: string, kind: Kind): Tree
  {
    var ino := t.nextIno;
    Tree(t.inodes[ino := Attr(kind, if kind == Directory then 2 else 1)], t.inodePaths[ino := path], t.pathInodes[path := ino],
         if kind == Directory then t.directories[ino := []] else t.directories, ino + 1)
  }

  /** Lists a new entry in its parent; a new subdirectory is one more link to the parent. */
  function Link(t: Tree, parent: nat, e: DirEntry): Tree
    requires parent in t.directories
  {
    t.(directories := t.directories[parent := t.directories[parent] + [e]],
       inodes := if e.kind == Directory && parent in t.inodes
                 then t.inodes[parent := t.inodes[parent].(nlink := t.inodes[parent].nlink + 1)] else t.inodes)
  }

  /** The end of every adder: the inode is created first, and only then is the parent directory looked up. */
  function Create(t: Tree, path: string, kind: Kind, parent: nat): (Tree, Result<nat, TreeError>)
  {
    var u := Insert(t, path, kind);
    if parent in u.directories then (Link(u, parent, DirEntry(t.nextIno, FileName(path), kind)), Ok(t.nextIno))
    else (u, Err(ParentNotFound))
  }

  function EnsureDirectory(t: Tree, path: string): (Tree, Result<nat, TreeError>)
    decreases |NormalizePath(path)|
  {
    var p := NormalizePath(path);
    if p == "/" then (t, Ok(ROOT_INO))
    else if p in t.pathInodes then (t, Ok(t.pathInodes[p]))
    else
      match ParentPath(p)
      case None => (t, Err(InvalidPath))
      case Some(q) =>
        ParentShorter(path);
        var (u, parent) := EnsureDirectory(t, q);
        if parent.Err? then (u, parent) else Create(u, p, Directory, parent.value)
  }

  lemma ParentShorter(path: string)
    requires NormalizePath(path) != "/"
    ensures var p := NormalizePath(path);
      NormalizePath(p) == p || |NormalizePath(p)| < |p|
    ensures ParentPath(NormalizePath(path)).Some? ==>
      |NormalizePath(ParentPath(NormalizePath(path)).value)| < |NormalizePath(path)|
  {
    var p := NormalizePath(path);
    assert |NormalizePath(p)| <= |p|;
    var q := ParentPath(p);
    if q.Some? {
      assert |NormalizePath(q.value)| <= |q.value|;
    }
  }

  /** `add_file`, `add_symlink`, `add_device` and `add_special_file`, as far as the tree is concerned. */
  function AddNode(t: Tree, path: string, kind: Kind): (Tree, Result<nat, TreeError>)
  {
    var p := NormalizePath(path);
    if p in t.pathInodes then (t, Err(AlreadyExists))
    else
      match ParentPath(p)
      case None => (t, Err(InvalidPath))
      case Some(q) =>
        var (u, parent) := EnsureDirectory(t, q);
        if parent.Err? then (u, parent) else Create(u, p, kind, parent.value)
  }

  function LookupPath(t: Tree, path: string): Option<nat>
  {
    var p := NormalizePath(path);
    if p in t.pathInodes then Some(t.pathInodes[p]) else None
  }

  /** The first entry with the name. */
  function FindEntry(entries: seq<DirEntry>, name: string): Option<nat>
  {
    if entries == [] then None
    else if entries[0].name == name then Some(entries[0].ino)
    else FindEntry(entries[1..], name)
  }

  function LookupEntry(t: Tree, parent: nat, name: string): Option<nat>
  {
    if parent in t.directories then FindEntry(t.directories[parent], name) else None
  }

  function GetParent(t: Tree, ino: nat): Option<nat>
  {
    if ino == ROOT_INO then Some(ROOT_INO)
    else if ino !in t.inodePaths then None
    else
      match ParentPath(t.inodePaths[ino])
      case None => None
      case Some(q) => if q in t.pathInodes then Some(t.pathInodes[q]) else None
  }

  // ---------------------------------------------------------------- the invariant

  function Subdirectories(entries: seq<DirEntry>): nat
    decreases |entries|
  {
    if entries == [] then 0
    else Subdirectories(entries[..|entries| - 1]) + if entries[|entries| - 1].kind == Directory then 1 else 0
  }

  /** Paths and inodes correspond one to one. */
  ghost predicate Inverse(t: Tree)
  {
    && (forall p :: p in t.pathInodes ==> t.pathInodes[p] in t.inodePaths && t.inodePaths[t.pathInodes[p]] == p)
    && (forall i :: i in t.inodePaths ==> t.inodePaths[i] in t.pathInodes && t.pathInodes[t.inodePaths[i]] == i)
  }

  ghost predicate Numbered(t: Tree)
  {
    && t.inodes.Keys == t.inodePaths.Keys && t.nextIno >= 2
    && (forall i :: i in t.inodePaths ==> i < t.nextIno && CleanPath(t.inodePaths[i]))
    && (forall d :: d in t.directories <==> d in t.inodes && t.inodes[d].kind == Directory)
    && ROOT_INO in t.directories && "/" in t.pathInodes && t.pathInodes["/"] == ROOT_INO
  }

  /** An entry names a child of the directory at `dir`. */
  ghost predicate Child(t: Tree, dir: string, e: DirEntry)
  {
    && e.ino in t.inodePaths && e.ino != ROOT_INO && e.ino in t.inodes && t.inodes[e.ino].kind == e.kind
    && ParentPath(t.inodePaths[e.ino]) == Some(dir) && FileName(t.inodePaths[e.ino]) == e.name
  }

  ghost predicate DirectoryOk(t: Tree, d: nat)
  {
    && d in t.directories && d in t.inodes && d in t.inodePaths
    && (forall k :: 0 <= k < |t.directories[d]| ==> Child(t, t.inodePaths[d], t.directories[d][k]))
    && (forall j, k :: 0 <= j < k < |t.directories[d]| ==> t.directories[d][j].ino != t.directories[d][k].ino)
    && t.inodes[d].nlink == 2 + Subdirectories(t.directories[d])
  }

  ghost predicate Lists(entries: seq<DirEntry>, ino: nat)
  {
    exists k :: 0 <= k < |entries| && entries[k].ino == ino
  }

  /** The inode is listed in the directory at its path's parent. */
  ghost predicate Listed(t: Tree, i: nat)
  {
    && i in t.inodePaths && ParentPath(t.inodePaths[i]).Some?
    && var q := ParentPath(t.inodePaths[i]).value;
       q in t.pathInodes && t.pathInodes[q] in t.directories && Lists(t.directories[t.pathInodes[q]], i)
  }

  ghost predicate Inv(t: Tree)
  {
    && Inverse(t) && Numbered(t)
    && (forall d :: d in t.directories ==> DirectoryOk(t, d))
    && (forall i :: i in t.inodePaths && i != ROOT_INO ==> Listed(t, i))
  }

  lemma InitialInv()
    ensures Inv(InitialTree)
  {
    var t := InitialTree;
    assert CleanPath("/");
    forall d | d in t.directories ensures DirectoryOk(t, d) {}
  }

  // ---------------------------------------------------------------- one new node

  /** The new node has the next number, its path and its attributes; the parent of a directory gains a link. */
  ghost predicate NodeAdded(t: Tree, u: Tree, path: string, kind: Kind, parent: nat)
  {
    var ino := t.nextIno;
    && ino !in t.inodePaths && ino !in t.inodes && path !in t.pathInodes && u.nextIno == ino + 1
    && u.inodePaths == t.inodePaths[ino := path] && u.pathInodes == t.pathInodes[path := ino]
    && u.inodes.Keys == t.inodes.Keys + {ino} && u.inodes[ino] == Attr(kind, if kind == Directory then 2 else 1)
    && (forall d :: d in t.inodes ==> u.inodes[d].kind == t.inodes[d].kind)
    && (forall d :: d in t.inodes ==>
          u.inodes[d].nlink == t.inodes[d].nlink + if d == parent && kind == Directory then 1 else 0)
  }

  /** Its entry is at the end of the parent's list. */
  ghost predicate EntryListed(t: Tree, u: Tree, path: string, kind: Kind, parent: nat)
  {
    var ino, e := t.nextIno, DirEntry(t.nextIno, FileName(path), kind);
    && parent in t.directories
    && u.directories.Keys == t.directories.Keys + (if kind == Directory then {ino} else {})
    && (kind == Directory ==> u.directories[ino] == [])
    && (forall d :: d in t.directories ==> u.directories[d] == t.directories[d] + if d == parent then [e] else [])
  }

  /** `u` is `t` with one new node listed in the directory `parent`. */
  ghost predicate Grown(t: Tree, u: Tree, path: string, kind: Kind, parent: nat)
  {
    NodeAdded(t, u, path, kind, parent) && EntryListed(t, u, path, kind, parent)
  }

  lemma CreateGrows(t: Tree, path: string, kind: Kind, parent: nat)
    requires Inverse(t) && Numbered(t) && path !in t.pathInodes && parent in t.directories
    ensures Grown(t, Create(t, path, kind, parent).0, path, kind, parent)
    ensures Create(t, path, kind, parent).1 == Ok(t.nextIno)
  {
    Unused(t);
    hide Inverse, Numbered, NodeAdded, EntryListed, FileName;
    CreateAdds(t, path, kind, parent);
    CreateLists(t, path, kind, parent);
  }

  lemma CreateAdds(t: Tree, path: string, kind: Kind, parent: nat)
    requires path !in t.pathInodes && parent in t.directories && parent in t.inodes
    requires t.nextIno !in t.inodePaths && t.nextIno !in t.inodes && t.nextIno !in t.directories
    ensures NodeAdded(t, Create(t, path, kind, parent).0, path, kind, parent)
  {
    hide FileName;
  }

  lemma CreateLists(t: Tree, path: string, kind: Kind, parent: nat)
    requires parent in t.directories && t.nextIno !in t.directories
    ensures EntryListed(t, Create(t, path, kind, parent).0, path, kind, parent)
  {
    hide FileName;
    var u, e := Create(t, path, kind, parent).0, DirEntry(t.nextIno, FileName(path), kind);
    forall d | d in t.directories ensures u.directories[d] == t.directories[d] + if d == parent then [e] else [] {
      assert t.directories[d] + [] == t.directories[d];
    }
  }

  lemma Unused(t: Tree)
    requires Numbered(t)
    ensures t.nextIno !in t.inodePaths && t.nextIno !in t.inodes && t.nextIno !in t.directories
    ensures forall d :: d in t.directories ==> d in t.inodes
  {
    hide CleanPath;
  }

  /** Creating a node under an existing directory keeps everything. */
  lemma CreateInv(t: Tree, path: string, kind: Kind, parent: nat)
    requires Inv(t) && CleanPath(path) && path != "/" && path !in t.pathInodes
    requires parent in t.directories && ParentPath(path) == Some(t.inodePaths[parent])
    ensures var (u, r) := Create(t, path, kind, parent);
      Inv(u) && r == Ok(t.nextIno) && u.pathInodes == t.pathInodes[path := t.nextIno]
      && u.directories.Keys == t.directories.Keys + if kind == Directory then {t.nextIno} else {}
  {
    var u := Create(t, path, kind, parent).0;
    hide Create, CleanPath, ParentPath, FileName, Inverse, Numbered, DirectoryOk, Listed, Grown;
    ParentKnown(t, parent);
    CreateGrows(t, path, kind, parent);
    GrownNumbered(t, u, path, kind, parent);
    GrownMaps(t, u, path, kind, parent);
    forall d | d in u.directories ensures DirectoryOk(u, d) {
      GrownDirectory(t, u, path, kind, parent, d);
    }
    forall i | i in u.inodePaths && i != ROOT_INO ensures Listed(u, i) {
      if i == t.nextIno {
        NewListed(t, u, path, kind, parent);
      } else {
        OldListed(t, u, path, kind, parent, i);
      }
    }
  }

  /** What was there keeps its number, its path, its kind and its place in its directory. */
  ghost predicate Extends(t: Tree, u: Tree)
  {
    && (forall p :: p in t.pathInodes ==> p in u.pathInodes && u.pathInodes[p] == t.pathInodes[p])
    && (forall i :: i in t.inodePaths ==> i in u.inodePaths && u.inodePaths[i] == t.inodePaths[i])
    && (forall i :: i in t.inodes ==> i in u.inodes && u.inodes[i].kind == t.inodes[i].kind)
    && forall d :: d in t.directories ==> d in u.directories && t.directories[d] <= u.directories[d]
  }

  /** The inode has this kind, is linked once or as an empty directory, and is the last one that its parent lists. */
  ghost predicate NewEntry(u: Tree, path: string, kind: Kind, ino: nat)
  {
    && ino in u.inodes && u.inodes[ino] == Attr(kind, if kind == Directory then 2 else 1) && ParentPath(path).Some? && ParentPath(path).value in u.pathInodes
    && var parent := u.pathInodes[ParentPath(path).value];
       parent in u.directories && u.directories[parent] != []
       && u.directories[parent][|u.directories[parent]| - 1] == DirEntry(ino, FileName(path), kind)
  }

  lemma CreateExtends(t: Tree, path: string, kind: Kind, parent: nat)
    requires Inv(t) && path !in t.pathInodes && parent in t.directories && ParentPath(path) == Some(t.inodePaths[parent])
    ensures var u := Create(t, path, kind, parent).0;
      Extends(t, u) && NewEntry(u, path, kind, t.nextIno) && u.pathInodes == t.pathInodes[path := t.nextIno]
  {
    hide Create, CleanPath, ParentPath, FileName, DirectoryOk, Listed;
    CreateGrows(t, path, kind, parent);
    ParentAt(t, parent);
  }

  lemma ParentAt(t: Tree, d: nat)
    requires Inv(t) && d in t.directories
    ensures d in t.inodePaths && t.inodePaths[d] in t.pathInodes && t.pathInodes[t.inodePaths[d]] == d
  {
    hide DirectoryOk, Listed, CleanPath;
  }

  lemma ParentKnown(t: Tree, d: nat)
    requires Inv(t) && d in t.directories
    ensures d in t.inodePaths && DirectoryOk(t, d)
  {
    hide Inverse, Numbered, Listed, Child, Subdirectories;
  }

  lemma GrownMaps(t: Tree, u: Tree, path: string, kind: Kind, parent: nat)
    requires Grown(t, u, path, kind, parent)
    ensures u.pathInodes == t.pathInodes[path := t.nextIno] && u.inodePaths == t.inodePaths[t.nextIno := path]
    ensures u.directories.Keys == t.directories.Keys + if kind == Directory then {t.nextIno} else {}
  {
  }

  lemma GrownNumbered(t: Tree, u: Tree, path: string, kind: Kind, parent: nat)
    requires Inverse(t) && Numbered(t) && CleanPath(path) && Grown(t, u, path, kind, parent)
    ensures Inverse(u) && Numbered(u)
  {
    hide CleanPath, FileName;
    GrownInverse(t, u, path, kind, parent);
    hide Inverse;
  }

  lemma GrownInverse(t: Tree, u: Tree, path: string, kind: Kind, parent: nat)
    requires Inverse(t) && Grown(t, u, path, kind, parent)
    ensures Inverse(u)
  {
    hide CleanPath, FileName, EntryListed;
  }

  lemma GrownDirectory(t: Tree, u: Tree, path: string, kind: Kind, parent: nat, d: nat)
    requires Grown(t, u, path, kind, parent) && Numbered(t) && d in u.directories
    requires parent in t.inodePaths && ParentPath(path) == Some(t.inodePaths[parent])
    requires d in t.directories ==> DirectoryOk(t, d)
    ensures DirectoryOk(u, d)
  {
    hide CleanPath, ParentPath, FileName, Numbered, Child;
    if d == t.nextIno {
      NewDirectory(t, u, path, kind, parent);
    } else {
      if d == parent {
        EntryAdded(t, u, path, kind, parent);
      } else {
        OtherDirectory(t, u, path, kind, parent, d);
      }
    }
  }

  lemma OtherDirectory(t: Tree, u: Tree, path: string, kind: Kind, parent: nat, d: nat)
    requires Grown(t, u, path, kind, parent) && DirectoryOk(t, d) && d != parent
    ensures DirectoryOk(u, d)
  {
    hide ParentPath, FileName, Child;
    var before := t.directories[d];
    assert before + [] == before;
    forall k | 0 <= k < |before| ensures Child(u, u.inodePaths[d], before[k]) {
      ChildStays(t, u, path, kind, parent, t.inodePaths[d], before[k]);
    }
  }

  lemma NewDirectory(t: Tree, u: Tree, path: string, kind: Kind, parent: nat)
    requires Grown(t, u, path, kind, parent) && Numbered(t) && t.nextIno in u.directories
    ensures DirectoryOk(u, t.nextIno)
  {
    hide CleanPath, FileName;
    assert t.nextIno !in t.directories;
  }

  lemma ChildStays(t: Tree, u: Tree, path: string, kind: Kind, parent: nat, dir: string, e: DirEntry)
    requires Grown(t, u, path, kind, parent) && Child(t, dir, e)
    ensures Child(u, dir, e) && e.ino != t.nextIno
  {
    hide ParentPath, FileName;
  }

  /** The parent's list with the new entry. */
  lemma EntryAdded(t: Tree, u: Tree, path: string, kind: Kind, parent: nat)
    requires Grown(t, u, path, kind, parent) && Numbered(t) && DirectoryOk(t, parent)
    requires ParentPath(path) == Some(t.inodePaths[parent])
    ensures DirectoryOk(u, parent)
  {
    hide CleanPath, ParentPath, FileName, Child;
    var before, e := t.directories[parent], DirEntry(t.nextIno, FileName(path), kind);
    assert (before + [e])[..|before|] == before;
    forall k | 0 <= k < |before| ensures Child(u, u.inodePaths[parent], before[k]) && before[k].ino != e.ino {
      ChildStays(t, u, path, kind, parent, t.inodePaths[parent], before[k]);
    }
    NewChild(t, u, path, kind, parent);
  }

  lemma NewChild(t: Tree, u: Tree, path: string, kind: Kind, parent: nat)
    requires Grown(t, u, path, kind, parent) && Numbered(t) && parent in t.inodePaths
    requires ParentPath(path) == Some(t.inodePaths[parent])
    ensures Child(u, t.inodePaths[parent], DirEntry(t.nextIno, FileName(path), kind))
  {
    hide CleanPath, ParentPath, FileName;
  }

  lemma NewListed(t: Tree, u: Tree, path: string, kind: Kind, parent: nat)
    requires Grown(t, u, path, kind, parent) && Inverse(t) && parent in t.inodePaths
    requires ParentPath(path) == Some(t.inodePaths[parent])
    ensures Listed(u, t.nextIno)
  {
    hide ParentPath, FileName;
    var entries := u.directories[parent];
    assert entries[|entries| - 1].ino == t.nextIno;
  }

  lemma OldListed(t: Tree, u: Tree, path: string, kind: Kind, parent: nat, i: nat)
    requires Grown(t, u, path, kind, parent) && Listed(t, i) && i != t.nextIno
    ensures Listed(u, i)
  {
    hide ParentPath, FileName;
    var q := ParentPath(t.inodePaths[i]).value;
    var d := t.pathInodes[q];
    var k :| 0 <= k < |t.directories[d]| && t.directories[d][k].ino == i;
    assert u.directories[d][k].ino == i;
  }

  // ---------------------------------------------------------------- ancestors

  /** No proper ancestor of the path is anything but a directory. */
  ghost predicate AncestorsOk(t: Tree, path: string)
    decreases |path|
  {
    path == "/" || !CleanPath(path) ||
    (PathParts(path);
     var q := ParentPath(path).value;
     (q in t.pathInodes ==> t.pathInodes[q] in t.directories) && AncestorsOk(t, q))
  }

  /** Every new path is `path` itself, of this kind, or a directory above it. */
  ghost predicate NewPaths(t: Tree, u: Tree, path: string, kind: Kind)
  {
    forall p :: p in u.pathInodes && p !in t.pathInodes ==>
      && u.pathInodes[p] in u.inodes
      && if p == path then u.inodes[u.pathInodes[p]].kind == kind
         else p + "/" <= path && u.inodes[u.pathInodes[p]].kind == Directory
  }

  /** The directory at `path` is there, and nothing else but directories above it is new. */
  ghost predicate Ensured(t: Tree, u: Tree, path: string, r: Result<nat, TreeError>)
  {
    && Inv(u) && r.Ok? && path in u.pathInodes && u.pathInodes[path] == r.value && r.value in u.directories
    && Extends(t, u) && NewPaths(t, u, path, Directory)
  }

  /** One more node below the directory `q`. */
  lemma OneMore(t: Tree, u: Tree, v: Tree, q: string, path: string, kind: Kind, ino: nat)
    requires Extends(t, u) && NewPaths(t, u, q, Directory) && "/" in t.pathInodes
    requires Extends(u, v) && NewEntry(v, path, kind, ino) && v.pathInodes == u.pathInodes[path := ino]
    requires exists name :: Join(q, name) == path
    requires forall p :: p in u.pathInodes ==> u.pathInodes[p] in u.inodes
    ensures Extends(t, v) && NewPaths(t, v, path, kind)
  {
    hide ParentPath, FileName;
    var name :| Join(q, name) == path;
    forall p | p in v.pathInodes && p !in t.pathInodes && p != path ensures p + "/" <= path {
      assert p in u.pathInodes && p != "/";
      if p != q {
        assert p + "/" <= q;
      }
    }
  }

  lemma PathsKnown(t: Tree)
    requires Inv(t)
    ensures forall p :: p in t.pathInodes ==> t.pathInodes[p] in t.inodes
  {
    hide DirectoryOk, Listed, CleanPath;
  }


  /** `ensure_directory` on a path whose existing ancestors, and itself if present, are directories. */
  lemma {:induction false} EnsureInv(t: Tree, path: string)
    requires Inv(t) && CleanPath(path) && AncestorsOk(t, path) && (path in t.pathInodes ==> t.pathInodes[path] in t.directories)
    ensures Ensured(t, EnsureDirectory(t, path).0, path, EnsureDirectory(t, path).1)
    decreases |path|
  {
    hide Inv, Create, FileName, LastSlash, Extends, NewPaths, NewEntry;
    RootKnown(t);
    SameTree(t, path, Directory);
    if path != "/" {
      PathParts(path);
      var q := ParentPath(path).value;
      hide ParentPath, NormalizePath;
      if path !in t.pathInodes {
        EnsureInv(t, q);
        var (u, parent) := EnsureDirectory(t, q);
        NotYet(t, u, q, path);
        assert EnsureDirectory(t, path) == Create(u, path, Directory, parent.value);
        BelowEnsured(t, u, q, path, Directory, parent.value);
        CreateInv(u, path, Directory, parent.value);
        DirectoryPath(u, q);
      }
    }
  }

  lemma NotYet(t: Tree, u: Tree, q: string, path: string)
    requires NewPaths(t, u, q, Directory) && |q| < |path| && path !in t.pathInodes
    ensures path !in u.pathInodes
  {
  }

  /** The new node below a directory that has been made sure of. */
  lemma BelowEnsured(t: Tree, u: Tree, q: string, path: string, kind: Kind, parent: nat)
    requires Inv(t) && CleanPath(path) && path != "/" && path !in t.pathInodes && ParentPath(path) == Some(q)
    requires Ensured(t, u, q, Ok(parent))
    ensures path !in u.pathInodes && parent in u.inodePaths && u.inodePaths[parent] == q
    ensures var (v, r) := Create(u, path, kind, parent);
      && r == Ok(u.nextIno) && v.pathInodes == u.pathInodes[path := u.nextIno]
      && Extends(t, v) && NewPaths(t, v, path, kind) && NewEntry(v, path, kind, u.nextIno)
  {
    PathParts(path);
    hide Inv, Create, ParentPath, FileName, NormalizePath, CleanPath, Extends, NewPaths, NewEntry, Join;
    NotYet(t, u, q, path);
    RootKnown(t);
    DirectoryPath(u, q);
    CreateExtends(u, path, kind, parent);
    CreateInv(u, path, kind, parent);
    PathsKnown(u);
    assert Join(q, FileName(path)) == path;
    OneMore(t, u, Create(u, path, kind, parent).0, q, path, kind, u.nextIno);
  }

  lemma RootKnown(t: Tree)
    requires Inv(t)
    ensures "/" in t.pathInodes && t.pathInodes["/"] == ROOT_INO && ROOT_INO in t.directories
    ensures NormalizePath("/") == "/"
  {
    hide Inverse, DirectoryOk, Listed;
  }

  lemma DirectoryPath(t: Tree, q: string)
    requires Inv(t) && q in t.pathInodes
    ensures t.pathInodes[q] in t.inodePaths && t.inodePaths[t.pathInodes[q]] == q
  {
    hide Numbered, DirectoryOk, Listed;
  }

  /**
   * An adder succeeds, and keeps the tree, exactly on a new path, if there are only directories above it. The new inode has
   * the kind asked for and is listed last in its parent; besides it only directories above it are new, and all that was
   * there stays as it was. A refusal changes nothing.
   */
  lemma AddInv(t: Tree, path: string, kind: Kind)
    requires Inv(t) && CleanPath(path) && AncestorsOk(t, path)
    ensures var (u, r) := AddNode(t, path, kind);
      && Inv(u) && (r.Ok? <==> path !in t.pathInodes) && (r.Err? ==> u == t && r == Err(AlreadyExists))
      && (r.Ok? ==> path in u.pathInodes && u.pathInodes[path] == r.value && NewEntry(u, path, kind, r.value))
      && Extends(t, u) && NewPaths(t, u, path, kind)
  {
    hide Inv, Create, FileName, LastSlash, EnsureDirectory, Extends, NewPaths, NewEntry;
    RootKnown(t);
    SameTree(t, path, kind);
    if path != "/" {
      PathParts(path);
      var q := ParentPath(path).value;
      hide ParentPath, NormalizePath;
      if path !in t.pathInodes {
        EnsureInv(t, q);
        var (u, parent) := EnsureDirectory(t, q);
        assert AddNode(t, path, kind) == Create(u, path, kind, parent.value);
        BelowEnsured(t, u, q, path, kind, parent.value);
        CreateInv(u, path, kind, parent.value);
      }
    }
  }

  lemma SameTree(t: Tree, path: string, kind: Kind)
    ensures Extends(t, t) && NewPaths(t, t, path, kind)
  {
  }

  // ---------------------------------------------------------------- when a path is refused

  /** An inode without a listing breaks the tree. */
  lemma Orphan(t: Tree, path: string, kind: Kind, parent: nat)
    requires Inv(t) && path !in t.pathInodes && CleanPath(path) && path != "/" && ParentPath(path).Some?
    requires ParentPath(path).value in t.pathInodes && t.pathInodes[ParentPath(path).value] == parent
    requires parent !in t.directories
    ensures var (u, r) := Create(t, path, kind, parent);
      r == Err(ParentNotFound) && !Inv(u) && t.nextIno in u.inodePaths && !Listed(u, t.nextIno)
  {
    var q, u := ParentPath(path).value, Create(t, path, kind, parent).0;
    assert Inverse(t) && Numbered(t);
    hide CleanPath, ParentPath, FileName, DirectoryOk, Inverse, Numbered, Inv, Lists;
    Below(t, parent);
    assert !Listed(u, t.nextIno);
    if Inv(u) {
      InvListed(u, t.nextIno);
    }
  }

  lemma InvListed(t: Tree, i: nat)
    requires Inv(t) && i in t.inodePaths && i != ROOT_INO
    ensures Listed(t, i)
  {
    hide Inverse, Numbered, DirectoryOk, Listed;
  }

  lemma Below(t: Tree, i: nat)
    requires Inverse(t) && Numbered(t) && (exists p :: p in t.pathInodes && t.pathInodes[p] == i)
    ensures i < t.nextIno && t.nextIno >= 2
  {
    hide CleanPath;
  }

  /** Under something that is not a directory, `ensure_directory` fails and leaves an orphan behind. */
  lemma {:induction false} EnsureFails(t: Tree, path: string)
    requires Inv(t) && CleanPath(path) && path !in t.pathInodes && !AncestorsOk(t, path)
    ensures EnsureDirectory(t, path).1 == Err(ParentNotFound) && !Inv(EnsureDirectory(t, path).0)
    decreases |path|
  {
    hide Inv, Create, FileName, LastSlash;
    RootKnown(t);
    PathParts(path);
    var q := ParentPath(path).value;
    hide ParentPath, NormalizePath;
    if q in t.pathInodes && t.pathInodes[q] !in t.directories {
      var parent := t.pathInodes[q];
      assert EnsureDirectory(t, q) == (t, Ok(parent));
      assert EnsureDirectory(t, path) == Create(t, path, Directory, parent);
      Orphan(t, path, Directory, parent);
    } else if q in t.pathInodes {
      Closed(t, q);
    } else {
      EnsureFails(t, q);
    }
  }

  /** Everything above an existing path is an existing directory. */
  lemma {:induction false} Closed(t: Tree, path: string)
    requires Inv(t) && CleanPath(path) && path in t.pathInodes
    ensures AncestorsOk(t, path)
    decreases |path|
  {
    if path != "/" {
      PathParts(path);
      ParentListed(t, path);
      Closed(t, ParentPath(path).value);
    }
  }

  lemma ParentListed(t: Tree, path: string)
    requires Inv(t) && CleanPath(path) && path != "/" && path in t.pathInodes
    ensures ParentPath(path).Some? && ParentPath(path).value in t.pathInodes
    ensures t.pathInodes[ParentPath(path).value] in t.directories
  {
    hide CleanPath, ParentPath, DirectoryOk;
    assert Listed(t, t.pathInodes[path]);
  }

  /** A new canonical path is added, and the tree kept, exactly when only directories stand above it. */
  lemma AddCondition(t: Tree, path: string, kind: Kind)
    requires Inv(t) && CleanPath(path) && path !in t.pathInodes
    ensures var (u, r) := AddNode(t, path, kind); (r.Ok? && Inv(u)) <==> AncestorsOk(t, path)
    ensures !AncestorsOk(t, path) ==> AddNode(t, path, kind).1 == Err(ParentNotFound) && !Inv(AddNode(t, path, kind).0)
  {
    if AncestorsOk(t, path) {
      AddInv(t, path, kind);
    } else {
      hide Inv, Create, FileName, LastSlash, EnsureDirectory;
      RootKnown(t);
      PathParts(path);
      var q := ParentPath(path).value;
      hide ParentPath, NormalizePath;
      if q in t.pathInodes && t.pathInodes[q] !in t.directories {
        var parent := t.pathInodes[q];
        EnsureExisting(t, q);
        assert AddNode(t, path, kind) == Create(t, path, kind, parent);
        Orphan(t, path, kind, parent);
      } else {
        if q in t.pathInodes {
          Closed(t, q);
        } else {
          EnsureFails(t, q);
        }
      }
    }
  }

  lemma EnsureExisting(t: Tree, path: string)
    requires Inv(t) && CleanPath(path) && path in t.pathInodes
    ensures EnsureDirectory(t, path) == (t, Ok(t.pathInodes[path]))
  {
    RootKnown(t);
    if path != "/" {
      PathParts(path);
    }
  }

  /** A run of additions, each of a canonical path with only directories above it at that time. */
  ghost predicate ProperRun(t: Tree, adds: seq<(string, Kind)>)
    decreases |adds|
  {
    adds == [] ||
    (CleanPath(adds[0].0) && AncestorsOk(t, adds[0].0) && ProperRun(AddNode(t, adds[0].0, adds[0].1).0, adds[1..]))
  }

  function AddAll(t: Tree, adds: seq<(string, Kind)>): Tree
    decreases |adds|
  {
    if adds == [] then t else AddAll(AddNode(t, adds[0].0, adds[0].1).0, adds[1..])
  }

  /** Any such run keeps the tree. */
  lemma {:induction false} RunKeepsTree(t: Tree, adds: seq<(string, Kind)>)
    requires Inv(t) && ProperRun(t, adds)
    ensures Inv(AddAll(t, adds))
    decreases |adds|
  {
    hide Inv, AncestorsOk, AddNode;
    if adds != [] {
      AddInv(t, adds[0].0, adds[0].1);
      RunKeepsTree(AddNode(t, adds[0].0, adds[0].1).0, adds[1..]);
    }
  }

  // ---------------------------------------------------------------- lookups

  lemma {:induction false} FindEntrySpec(entries: seq<DirEntry>, name: string)
    ensures var r := FindEntry(entries, name);
      && (r.None? ==> forall k :: 0 <= k < |entries| ==> entries[k].name != name)
      && (r.Some? ==> exists k :: 0 <= k < |entries| && entries[k].name == name && entries[k].ino == r.value)
  {
    if entries != [] && entries[0].name != name {
      FindEntrySpec(entries[1..], name);
      var r := FindEntry(entries, name);
      if r.Some? {
        var k :| 0 <= k < |entries[1..]| && entries[1..][k].name == name && entries[1..][k].ino == r.value;
        assert entries[k + 1].name == name && entries[k + 1].ino == r.value;
      }
    }
  }

  /** Looking a name up in a directory is looking up the joined path. */
  lemma LookupAgrees(t: Tree, d: nat, name: string)
    requires Inv(t) && d in t.directories && d in t.inodePaths && Component(name)
    ensures LookupEntry(t, d, name) == LookupPath(t, Join(t.inodePaths[d], name))
    ensures CleanPath(t.inodePaths[d])
  {
    var dir := t.inodePaths[d];
    CanonicalOf(t, d);
    JoinParts(dir, name);
    PathParts(Join(dir, name));
    FindEntrySpec(t.directories[d], name);
    hide CleanPath, ParentPath, FileName, NormalizePath, FindEntry, Join, Component;
    var p, r := Join(dir, name), FindEntry(t.directories[d], name);
    if r.Some? {
      EntryPath(t, d, name, r.value);
    }
    if p in t.pathInodes {
      ChildListed(t, d, p, name);
    }
  }

  lemma CanonicalOf(t: Tree, i: nat)
    requires Inv(t) && i in t.inodePaths
    ensures CleanPath(t.inodePaths[i])
  {
    hide Inverse, DirectoryOk, Listed;
  }

  /** An entry with the name leads to the joined path. */
  lemma EntryPath(t: Tree, d: nat, name: string, ino: nat)
    requires Inv(t) && d in t.directories && d in t.inodePaths
    requires exists k :: 0 <= k < |t.directories[d]| && t.directories[d][k].name == name && t.directories[d][k].ino == ino
    ensures Join(t.inodePaths[d], name) in t.pathInodes && t.pathInodes[Join(t.inodePaths[d], name)] == ino
  {
    hide Listed;
    var k :| 0 <= k < |t.directories[d]| && t.directories[d][k].name == name && t.directories[d][k].ino == ino;
    assert Child(t, t.inodePaths[d], t.directories[d][k]);
    var p := t.inodePaths[ino];
    RootPath(t, ino);
    PathParts(p);
  }

  lemma RootPath(t: Tree, i: nat)
    requires Inverse(t) && Numbered(t) && i in t.inodePaths && i != ROOT_INO
    ensures t.inodePaths[i] != "/" && CleanPath(t.inodePaths[i])
  {
    hide CleanPath;
  }

  /** The entry for a child is in its directory's list, under its name. */
  lemma ChildListed(t: Tree, d: nat, p: string, name: string)
    requires Inv(t) && d in t.directories && d in t.inodePaths && p in t.pathInodes && p != "/"
    requires ParentPath(p) == Some(t.inodePaths[d]) && FileName(p) == name
    ensures exists k :: 0 <= k < |t.directories[d]| && t.directories[d][k].name == name
                     && t.directories[d][k].ino == t.pathInodes[p]
  {
    hide CleanPath, ParentPath, FileName;
    var i := t.pathInodes[p];
    assert Listed(t, i);
    var k :| 0 <= k < |t.directories[d]| && t.directories[d][k].ino == i;
    assert Child(t, t.inodePaths[d], t.directories[d][k]);
  }

  /** `get_parent` gives the directory that lists the inode, and no other directory lists it. */
  lemma ParentAgrees(t: Tree, i: nat, d: nat)
    requires Inv(t) && i in t.inodePaths && i != ROOT_INO && d in t.directories
    ensures Lists(t.directories[d], i) <==> GetParent(t, i) == Some(d)
  {
    hide CleanPath, ParentPath, FileName;
    assert Listed(t, i);
    if Lists(t.directories[d], i) {
      var k :| 0 <= k < |t.directories[d]| && t.directories[d][k].ino == i;
      assert DirectoryOk(t, d);
      assert Child(t, t.inodePaths[d], t.directories[d][k]);
    }
  }

  function JoinAll(dir: string, names: seq<string>): string
    decreases |names|
  {
    if names == [] then dir else Join(JoinAll(dir, names[..|names| - 1]), names[|names| - 1])
  }

  /** Component by component from the root. */
  function Walk(t: Tree, names: seq<string>): Option<nat>
    decreases |names|
  {
    if names == [] then Some(ROOT_INO)
    else
      var d := Walk(t, names[..|names| - 1]);
      if d.None? then None else LookupEntry(t, d.value, names[|names| - 1])
  }

  /** Walking the components ends where the whole path leads. */
  lemma {:induction false} WalkAgrees(t: Tree, names: seq<string>)
    requires Inv(t) && forall k :: 0 <= k < |names| ==> Component(names[k])
    ensures CleanPath(JoinAll("/", names)) && Walk(t, names) == LookupPath(t, JoinAll("/", names))
    decreases |names|
  {
    hide Inv, CleanPath, Component, Join, LookupEntry, NormalizePath;
    RootKnown(t);
    if names == [] {
      RootCanonical();
    } else {
      var n := |names| - 1;
      var dir := JoinAll("/", names[..n]);
      WalkAgrees(t, names[..n]);
      JoinParts(dir, names[n]);
      WalkStep(t, dir, names[n]);
    }
  }

  lemma RootCanonical()
    ensures CleanPath("/")
  {
  }

  lemma WalkStep(t: Tree, dir: string, name: string)
    requires Inv(t) && CleanPath(dir) && Component(name)
    ensures var d, r := LookupPath(t, dir), LookupPath(t, Join(dir, name));
      r == if d.None? then None else LookupEntry(t, d.value, name)
  {
    var p := Join(dir, name);
    JoinParts(dir, name);
    PathParts(p);
    if dir != "/" {
      PathParts(dir);
    }
    hide CleanPath, Component, Join, FileName, ParentPath, FindEntry;
    RootKnown(t);
    if p in t.pathInodes {
      ParentListed(t, p);
    }
    if dir in t.pathInodes {
      var d := t.pathInodes[dir];
      DirectoryPath(t, dir);
      if d in t.directories {
        LookupAgrees(t, d, name);
      }
    }
  }

  // ---------------------------------------------------------------- the object

  class EngramFS {
    var inodes: map<nat, Attr>
    var inodePaths: map<nat, string>
    var pathInodes: map<string, nat>
    var directories: map<nat, seq<DirEntry>>
    var nextIno: nat

    function Snapshot(): Tree
      reads this
    {
      Tree(inodes, inodePaths, pathInodes, directories, nextIno)
    }

    constructor ()
      ensures Snapshot() == InitialTree && Inv(Snapshot())
    {
      inodes, inodePaths, pathInodes := map[1 := Attr(Directory, 2)], map[1 := "/"], map["/" := 1];
      directories, nextIno := map[1 := []], 2;
      new;
      InitialInv();
    }

    method AllocIno() returns (ino: nat)
      modifies this`nextIno
      ensures ino == old(nextIno) && nextIno == ino + 1
    {
      ino := nextIno;
      nextIno := nextIno + 1;
    }

    /** Creates the inode and its path, then lists it in the parent. */
    method CreateNode(path: string, kind: Kind, parent: nat) returns (r: Result<nat, TreeError>)
      modifies this
      ensures (Snapshot(), r) == Create(old(Snapshot()), path, kind, parent)
    {
      hide FileName;
      var ino := AllocIno();
      inodes := inodes[ino := Attr(kind, if kind == Directory then 2 else 1)];
      inodePaths := inodePaths[ino := path];
      pathInodes := pathInodes[path := ino];
      if kind == Directory {
        directories := directories[ino := []];
      }
      if parent !in directories {
        return Err(ParentNotFound);
      }
      directories := directories[parent := directories[parent] + [DirEntry(ino, FileName(path), kind)]];
      if kind == Directory && parent in inodes {
        inodes := inodes[parent := inodes[parent].(nlink := inodes[parent].nlink + 1)];
      }
      r := Ok(ino);
    }

    method EnsureDir(path: string) returns (r: Result<nat, TreeError>)
      modifies this
      ensures (Snapshot(), r) == EnsureDirectory(old(Snapshot()), path)
      decreases |NormalizePath(path)|
    {
      hide Create, FileName;
      var p := NormalizePath(path);
      if p == "/" {
        return Ok(ROOT_INO);
      }
      if p in pathInodes {
        return Ok(pathInodes[p]);
      }
      var q := ParentPath(p);
      if q.None? {
        return Err(InvalidPath);
      }
      ParentShorter(path);
      var parent := EnsureDir(q.value);
      if parent.Err? {
        return parent;
      }
      r := CreateNode(p, Directory, parent.value);
    }

    /** The adders for files, links, devices and special files. */
    method Add(path: string, kind: Kind) returns (r: Result<nat, TreeError>)
      modifies this
      ensures (Snapshot(), r) == AddNode(old(Snapshot()), path, kind)
      ensures old(Inv(Snapshot()) && AncestorsOk(Snapshot(), path)) && CleanPath(path) ==>
        && Inv(Snapshot()) && (if path in old(pathInodes) then r == Err(AlreadyExists) else r.Ok?)
        && (r.Ok? ==> path in pathInodes && pathInodes[path] == r.value && NewEntry(Snapshot(), path, kind, r.value))
        && Extends(old(Snapshot()), Snapshot()) && NewPaths(old(Snapshot()), Snapshot(), path, kind)
    {
      hide Create, FileName, EnsureDirectory, Inv, NewEntry, Extends, NewPaths, CleanPath, AncestorsOk;
      if Inv(Snapshot()) && CleanPath(path) && AncestorsOk(Snapshot(), path) {
        AddInv(Snapshot(), path, kind);
      }
      var p := NormalizePath(path);
      if p in pathInodes {
        return Err(AlreadyExists);
      }
      var q := ParentPath(p);
      if q.None? {
        return Err(InvalidPath);
      }
      var parent := EnsureDir(q.value);
      if parent.Err? {
        return parent;
      }
      r := CreateNode(p, kind, parent.value);
    }

    /** The first entry with the name, which in a tree is what the joined path leads to. */
    method LookupName(parent: nat, name: string) returns (r: Option<nat>)
      ensures r == LookupEntry(Snapshot(), parent, name)
      ensures Inv(Snapshot()) && parent in directories && parent in inodePaths && Component(name) ==>
        r == LookupPath(Snapshot(), Join(inodePaths[parent], name))
      ensures parent !in directories ==> r.None?
    {
      hide Inv, Component, Join, LookupPath;
      if Inv(Snapshot()) && parent in directories && parent in inodePaths && Component(name) {
        LookupAgrees(Snapshot(), parent, name);
      }
      if parent !in directories {
        return None;
      }
      var entries := directories[parent];
      for i := 0 to |entries|
        invariant FindEntry(entries, name) == FindEntry(entries[i..], name)
      {
        if entries[i].name == name {
          return Some(entries[i].ino);
        }
        assert entries[i..][1..] == entries[i + 1..];
      }
      r := None;
    }
  }
}

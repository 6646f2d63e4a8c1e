/** The inode model of internal/core/node: rows keyed by id, names only in directory
    listings, and the graph those listings draw. */
module Inodes {
  import opened Paths

  type Id = nat
  type DriveId = string

  datatype Option<+T> = None | Some(value: T)
  datatype Result<+T> = Ok(value: T) | Err(error: Error)

  datatype Error =
    | NotFound | NotDirectory | InvalidPath | InvalidName | InvalidReference | AlreadyExists
    | SymlinkCycle | MountCycle | MaxMountHops
    | TypeMismatch | IsDirectory | NotAFile | NotAMount | HardlinkNotSupported
    | CrossDrive | DuplicateBasename | IntoItself
    | MountSelf | DriveDeleted | RecorderFailed | BeginFailed | CommitFailed | RollbackFailed | RevisionConflict
    | TokenNotFound | NoBucket | RegistryFailed | PresignFailed | WrongUser | WrongDrive | SizeMismatch | NotUploaded
    | CleanupFailed

  /** A bucket/key pair: vfs.GarbageRef, and the reference part of node.ObjectContent. */
  datatype Ref = Ref(bucket: string, key: string)

  datatype Kind = FileKind | DirectoryKind | SymlinkKind | ObjectKind | MountKind

  datatype Entry = Entry(ino: Id, name: string, kind: Kind)

  datatype Content =
    | File(data: string)
    | Dir(entries: seq<Entry>)
    | Symlink(target: string)
    | Object(obj: Ref)
    | Mount(source: DriveId)

  datatype Inode = Inode(nlink: nat, content: Content) {
    function Kind(): Kind {
      match content
      case File(_) => FileKind
      case Dir(_) => DirectoryKind
      case Symlink(_) => SymlinkKind
      case Object(_) => ObjectKind
      case Mount(_) => MountKind
    }

    predicate IsDir() { content.Dir? }

    /** The kinds that may carry more than one link. */
    predicate Regular() { content.File? || content.Object? }

    /** ReadObject, as rm and mv use it: the reference worth a tombstone. */
    function Garbage(): Option<Ref> {
      if content.Object? && content.obj.bucket != "" && content.obj.key != ""
      then Some(content.obj) else None
    }
  }

  type FS = map<Id, Inode>

  // ---------------------------------------------------------------- directory listings

  /** DirContent.findEntry: the first entry with that name. */
  function Find(es: seq<Entry>, name: string): (r: Option<Entry>)
    ensures r.Some? ==> r.value in es && r.value.name == name
    ensures r.None? ==> forall e | e in es :: e.name != name
  {
    if es == [] then None
    else if es[0].name == name then Some(es[0])
    else Find(es[1..], name)
  }

  /** Where a listing has its first entry of a name. */
  function Index(es: seq<Entry>, name: string): (i: nat)
    requires Find(es, name).Some?
    ensures i < |es| && Find(es, name) == Some(es[i]) && es[i].name == name
    ensures forall j | 0 <= j < i :: es[j].name != name
  {
    if es[0].name == name then 0 else 1 + Index(es[1..], name)
  }

  function Keep(es: seq<Entry>, drop: set<string>): (r: seq<Entry>)
    ensures forall e :: e in r <==> e in es && e.name !in drop
  {
    if es == [] then []
    else if es[0].name in drop then Keep(es[1..], drop)
    else [es[0]] + Keep(es[1..], drop)
  }

  ghost predicate UniqueNames(es: seq<Entry>) {
    forall i, j | 0 <= i < j < |es| :: es[i].name != es[j].name
  }

  lemma {:induction false} FindKeep(es: seq<Entry>, drop: set<string>, m: string)
    ensures Find(Keep(es, drop), m) == if m in drop then None else Find(es, m)
  {
    if es != [] { FindKeep(es[1..], drop, m); }
  }

  lemma {:induction false} KeepKeep(es: seq<Entry>, a: set<string>, b: set<string>)
    ensures Keep(Keep(es, a), b) == Keep(es, a + b)
  {
    if es != [] {
      KeepKeep(es[1..], a, b);
      if es[0].name !in a {
        assert Keep(es, a)[1..] == Keep(es[1..], a);
      }
    }
  }

  lemma {:induction false} KeepUnique(es: seq<Entry>, drop: set<string>)
    requires UniqueNames(es)
    ensures UniqueNames(Keep(es, drop))
  {
    if es != [] {
      KeepUnique(es[1..], drop);
      var r := Keep(es[1..], drop);
      assert forall j | 0 <= j < |r| :: r[j] in es[1..];
    }
  }

  lemma {:induction false} KeepNone(es: seq<Entry>, drop: set<string>)
    requires forall e | e in es :: e.name !in drop
    ensures Keep(es, drop) == es
  {
    if es != [] {
      assert es[0] in es;
      KeepNone(es[1..], drop);
    }
  }

  lemma {:induction false} FindAppend(es: seq<Entry>, e: Entry, m: string)
    ensures Find(es + [e], m) ==
            if Find(es, m).Some? then Find(es, m) else if e.name == m then Some(e) else None
  {
    if es != [] {
      assert (es + [e])[1..] == es[1..] + [e];
      FindAppend(es[1..], e, m);
    } else {
      assert es + [e] == [e] && [e][1..] == [];
    }
  }

  lemma {:induction false} FindUnique(es: seq<Entry>, e: Entry)
    requires UniqueNames(es) && e in es
    ensures Find(es, e.name) == Some(e)
  {
    if es[0].name != e.name { FindUnique(es[1..], e); }
  }

  // ---------------------------------------------------------------- the graph of links

  datatype Link = Link(dir: Id, name: string, ino: Id)

  predicate HasLink(fs: FS, l: Link) {
    l.dir in fs && fs[l.dir].IsDir()
    && var e := Find(fs[l.dir].content.entries, l.name); e.Some? && e.value.ino == l.ino
  }

  /** Every directory entry of the store. */
  ghost function Links(fs: FS): (r: set<Link>)
    ensures forall l :: l in r <==> HasLink(fs, l)
  {
    set d, e | d in fs && fs[d].IsDir() && e in fs[d].content.entries && HasLink(fs, Link(d, e.name, e.ino))
      :: Link(d, e.name, e.ino)
  }

  ghost function To(links: set<Link>, x: Id): set<Link> {
    set l | l in links && l.ino == x
  }

  /** The inode a name leads to from a directory; None when d is no directory. */
  function Child(fs: FS, d: Id, name: string): (r: Option<Id>)
    ensures r.Some? <==> d in fs && fs[d].IsDir() && Find(fs[d].content.entries, name).Some?
    ensures r.Some? ==> HasLink(fs, Link(d, name, r.value))
  {
    if d in fs && fs[d].IsDir() && Find(fs[d].content.entries, name).Some?
    then Some(Find(fs[d].content.entries, name).value.ino)
    else None
  }

  /** Where a list of names leads, through directories only. */
  function At(fs: FS, start: Id, names: seq<string>): Option<Id>
    decreases |names|
  {
    if names == [] then Some(start)
    else
      var n := |names| - 1;
      var d := At(fs, start, names[..n]);
      if d.None? then None else Child(fs, d.value, names[n])
  }

  // ---------------------------------------------------------------- invariants

  /** Listed names are distinct proper names, and each entry names an existing inode. */
  ghost predicate ListingOk(fs: FS, es: seq<Entry>) {
    UniqueNames(es)
    && forall e | e in es :: IsName(e.name) && e.ino in fs && e.kind == fs[e.ino].Kind()
  }

  ghost predicate WellFormed(fs: FS) {
    forall d | d in fs && fs[d].IsDir() :: ListingOk(fs, fs[d].content.entries)
  }

  ghost predicate IsRoot(roots: map<DriveId, Id>, x: Id) { x in roots.Values }

  ghost predicate RootsOk(fs: FS, roots: map<DriveId, Id>) {
    (forall d | d in roots :: roots[d] in fs && fs[roots[d]].IsDir())
    && forall l | l in Links(fs) :: !IsRoot(roots, l.ino)
  }

  /** Link counts never run below the number of entries; only files and objects have several. */
  ghost predicate CountOk(n: Inode, links: nat) {
    n.nlink >= 1 && links <= n.nlink && (!n.Regular() ==> n.nlink == 1)
  }

  ghost predicate CountsOk(fs: FS, roots: map<DriveId, Id>) {
    forall x | x in fs && !IsRoot(roots, x) :: CountOk(fs[x], |To(Links(fs), x)|)
  }

  /** Each inode carries the drive it was created in, and entries stay inside one drive. */
  ghost predicate OwnersOk(fs: FS, roots: map<DriveId, Id>, owner: map<Id, DriveId>) {
    fs.Keys <= owner.Keys
    && (forall d | d in roots :: roots[d] in owner && owner[roots[d]] == d)
    && forall l | l in Links(fs) :: l.dir in owner && l.ino in owner && owner[l.ino] == owner[l.dir]
  }

  ghost predicate Inv(fs: FS, roots: map<DriveId, Id>, owner: map<Id, DriveId>) {
    WellFormed(fs) && RootsOk(fs, roots) && CountsOk(fs, roots) && OwnersOk(fs, roots, owner)
  }

  /** nlink is exactly the number of entries naming the inode. */
  ghost predicate Exact(fs: FS, roots: map<DriveId, Id>) {
    forall x | x in fs && !IsRoot(roots, x) :: |To(Links(fs), x)| == fs[x].nlink
  }

  /** Directory-to-directory entries can be ranked upwards: there is no directory cycle. */
  ghost predicate Ranked(fs: FS, rank: map<Id, nat>) {
    fs.Keys <= rank.Keys
    && forall l | l in Links(fs) && l.ino in fs && fs[l.ino].IsDir() :: rank[l.dir] < rank[l.ino]
  }

  ghost predicate Acyclic(fs: FS) { exists rank :: Ranked(fs, rank) }

  // ---------------------------------------------------------------- consequences of Inv

  lemma LinkTarget(fs: FS, l: Link)
    requires WellFormed(fs) && l in Links(fs)
    ensures l.ino in fs && IsName(l.name)
  {
  }

  lemma SubsetCard<T>(a: set<T>, b: set<T>)
    requires a <= b
    ensures |a| <= |b|
    ensures |a| == |b| ==> a == b
  {
    assert b == a + (b - a);
  }

  /** A directory, symlink or mount has at most one parent entry. */
  lemma OneParent(fs: FS, roots: map<DriveId, Id>, k: Link, l: Link)
    requires RootsOk(fs, roots) && CountsOk(fs, roots)
    requires k in Links(fs) && l in Links(fs) && k.ino == l.ino
    requires k.ino in fs && !fs[k.ino].Regular()
    ensures k == l
  {
    var x := k.ino;
    assert !IsRoot(roots, x);
    AtMostOne(To(Links(fs), x), k, l);
  }

  lemma AtMostOne<T>(s: set<T>, k: T, l: T)
    requires k in s && l in s && |s| <= 1
    ensures k == l
  {
    if k != l { SubsetCard({k, l}, s); }
  }

  /** Names lead to a directory, symlink or mount in one way only. */
  lemma {:induction false} AtUnique(fs: FS, roots: map<DriveId, Id>, root: Id, p: seq<string>, q: seq<string>)
    requires RootsOk(fs, roots) && CountsOk(fs, roots) && IsRoot(roots, root)
    requires At(fs, root, p).Some? && At(fs, root, p) == At(fs, root, q)
    requires At(fs, root, p).value in fs && !fs[At(fs, root, p).value].Regular()
    ensures p == q
    decreases |p|
  {
    if p == [] {
      RootOnlyEmpty(fs, roots, root, q);
    } else if q == [] {
      RootOnlyEmpty(fs, roots, root, p);
    } else {
      SameLastLink(fs, roots, root, p, q);
      AtUnique(fs, roots, root, p[..|p| - 1], q[..|q| - 1]);
      SameSnoc(p, q);
    }
  }

  lemma SameSnoc(p: seq<string>, q: seq<string>)
    requires p != [] && q != [] && p[..|p| - 1] == q[..|q| - 1] && p[|p| - 1] == q[|q| - 1]
    ensures p == q
  {
    assert p == p[..|p| - 1] + [p[|p| - 1]] && q == q[..|q| - 1] + [q[|q| - 1]];
  }

  lemma SameLastLink(fs: FS, roots: map<DriveId, Id>, root: Id, p: seq<string>, q: seq<string>)
    requires RootsOk(fs, roots) && CountsOk(fs, roots) && p != [] && q != []
    requires At(fs, root, p).Some? && At(fs, root, p) == At(fs, root, q)
    requires At(fs, root, p).value in fs && !fs[At(fs, root, p).value].Regular()
    ensures p[|p| - 1] == q[|q| - 1]
    ensures var d := At(fs, root, p[..|p| - 1]);
            d.Some? && d.value in fs && !fs[d.value].Regular() && d == At(fs, root, q[..|q| - 1])
  {
    OneParent(fs, roots, LastLink(fs, root, p), LastLink(fs, root, q));
  }

  lemma RootOnlyEmpty(fs: FS, roots: map<DriveId, Id>, root: Id, q: seq<string>)
    requires RootsOk(fs, roots) && IsRoot(roots, root) && At(fs, root, q) == Some(root)
    ensures q == []
  {
    if q != [] {
      var l := LastLink(fs, root, q);
    }
  }

  /** The entry a nonempty list of names ends with. */
  ghost function LastLink(fs: FS, start: Id, names: seq<string>): (l: Link)
    requires names != [] && At(fs, start, names).Some?
    ensures l in Links(fs)
    ensures l.ino == At(fs, start, names).value && l.name == names[|names| - 1]
    ensures At(fs, start, names[..|names| - 1]) == Some(l.dir)
  {
    Link(At(fs, start, names[..|names| - 1]).value, names[|names| - 1], At(fs, start, names).value)
  }

  /** Everything reached from a drive's root belongs to that drive. */
  lemma {:induction false} AtOwner(fs: FS, roots: map<DriveId, Id>, owner: map<Id, DriveId>, d: DriveId, q: seq<string>)
    requires Inv(fs, roots, owner) && d in roots && At(fs, roots[d], q).Some?
    ensures At(fs, roots[d], q).value in fs && owner[At(fs, roots[d], q).value] == d
    decreases |q|
  {
    if q != [] {
      var l := LastLink(fs, roots[d], q);
      AtOwner(fs, roots, owner, d, q[..|q| - 1]);
      LinkTarget(fs, l);
    }
  }

  /** The trees of distinct drives share no node. */
  lemma DrivesDisjoint(fs: FS, roots: map<DriveId, Id>, owner: map<Id, DriveId>,
                       c: DriveId, p: seq<string>, d: DriveId, q: seq<string>)
    requires Inv(fs, roots, owner) && c in roots && d in roots
    requires At(fs, roots[c], p).Some? && At(fs, roots[c], p) == At(fs, roots[d], q)
    ensures c == d
  {
    AtOwner(fs, roots, owner, c, p);
    AtOwner(fs, roots, owner, d, q);
  }

  lemma AtSnoc(fs: FS, start: Id, names: seq<string>, n: string)
    ensures At(fs, start, names + [n]) ==
            if At(fs, start, names).Some? then Child(fs, At(fs, start, names).value, n) else None
  {
    assert (names + [n])[..|names|] == names;
  }

  lemma {:induction false} AtPrefix(fs: FS, start: Id, names: seq<string>, i: nat)
    requires i <= |names| && At(fs, start, names).Some?
    ensures At(fs, start, names[..i]).Some?
    ensures i < |names| ==> var d := At(fs, start, names[..i]).value; d in fs && fs[d].IsDir()
    decreases |names| - i
  {
    if i < |names| {
      AtPrefix(fs, start, names, i + 1);
      assert names[..i + 1][..i] == names[..i];
    } else {
      assert names[..i] == names;
    }
  }

  lemma AtPrefixOf(fs: FS, start: Id, p: seq<string>, names: seq<string>)
    requires p <= names && At(fs, start, names).Some?
    ensures At(fs, start, p).Some?
    ensures p != names ==> At(fs, start, p).value in fs && fs[At(fs, start, p).value].IsDir()
  {
    AtPrefix(fs, start, names, |p|);
    assert names[..|p|] == p;
  }

  /** The directories on the way down a list of names. */
  ghost function Above(fs: FS, start: Id, q: seq<string>): set<Id>
    requires At(fs, start, q).Some?
    decreases |q|
  {
    if q == [] then {start} else Above(fs, start, q[..|q| - 1]) + {At(fs, start, q).value}
  }

  lemma {:induction false} AboveIsPrefix(fs: FS, start: Id, q: seq<string>, x: Id) returns (i: nat)
    requires At(fs, start, q).Some? && x in Above(fs, start, q)
    ensures i <= |q| && At(fs, start, q[..i]) == Some(x)
    decreases |q|
  {
    if At(fs, start, q) == Some(x) {
      i := |q|;
      assert q[..i] == q;
    } else {
      i := AboveIsPrefix(fs, start, q[..|q| - 1], x);
      assert q[..|q| - 1][..i] == q[..i];
    }
  }

  lemma AboveFresh(fs: FS, roots: map<DriveId, Id>, root: Id, q: seq<string>, x: Id)
    requires RootsOk(fs, roots) && CountsOk(fs, roots) && IsRoot(roots, root)
    requires q != [] && At(fs, root, q) == Some(x) && x in fs && fs[x].IsDir()
    ensures x !in Above(fs, root, q[..|q| - 1])
  {
    var up := q[..|q| - 1];
    if x in Above(fs, root, up) {
      var i := AboveIsPrefix(fs, root, up, x);
      AtUnique(fs, roots, root, up[..i], q);
    }
  }

  /** The directories above and at a directory are pairwise different. */
  lemma {:induction false} AboveDistinct(fs: FS, roots: map<DriveId, Id>, root: Id, q: seq<string>, x: Id)
    requires RootsOk(fs, roots) && CountsOk(fs, roots) && IsRoot(roots, root)
    requires At(fs, root, q) == Some(x) && x in fs && fs[x].IsDir()
    ensures Above(fs, root, q) <= fs.Keys && |Above(fs, root, q)| == |q| + 1
    decreases |q|
  {
    if q != [] {
      var n := |q| - 1;
      AtPrefix(fs, root, q, n);
      AboveDistinct(fs, roots, root, q[..n], At(fs, root, q[..n]).value);
      AboveFresh(fs, roots, root, q, x);
    }
  }

  /** So a canonical path is shorter than the store is large. */
  lemma PathShorterThanStore(fs: FS, roots: map<DriveId, Id>, root: Id, q: seq<string>)
    requires RootsOk(fs, roots) && CountsOk(fs, roots) && IsRoot(roots, root)
    requires At(fs, root, q).Some? && At(fs, root, q).value in fs && fs[At(fs, root, q).value].IsDir()
    ensures |q| < |fs|
  {
    AboveDistinct(fs, roots, root, q, At(fs, root, q).value);
    SubsetCard(Above(fs, root, q), fs.Keys);
  }
}

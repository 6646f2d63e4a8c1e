/** internal/vfs: the operations that add entries, and resolution across drives. */
module Vfs {
  import opened Paths
  import opened Inodes
  import opened Graph
  import opened Moves
  import opened Walk
  import opened NodeOps
  import opened Transactions
  import opened Resolvers
  import Mounts

  /** resolveEditableParent */
  function EditableParent(fs: FS, roots: map<DriveId, Id>, drive: DriveId, path: string): Result<(Id, string)> {
    if drive !in roots then Err(NotFound)
    else
      var r := ResolveParent(fs, roots[drive], path);
      if r.Ok? && !(r.value.0 in fs && fs[r.value.0].IsDir()) then Err(NotDirectory) else r
  }

  /** What every operation keeps when nothing is lost and no directory is moved. */
  ghost predicate Keeps(fs: FS, gs: FS, roots: map<DriveId, Id>) {
    (Exact(fs, roots) ==> Exact(gs, roots)) && (Acyclic(fs) ==> Acyclic(gs))
  }

  /** A place in a directory, under a name not taken. */
  predicate Free(fs: FS, at: Result<(Id, string)>) {
    at.Ok? && at.value.0 in fs && fs[at.value.0].IsDir() && Child(fs, at.value.0, at.value.1).None?
  }

  /** All or nothing: a new inode is linked at the resolved place, or the store stays. may
      says whether the transaction of the link lasts. */
  ghost predicate Created(fs: FS, gs: FS, at: Result<(Id, string)>, id: Id, n: Inode, may: bool, ok: bool) {
    (ok <==> may && Free(fs, at))
    && gs == if ok then AddLink(fs, at.value.0, at.value.1, id, n) else fs
  }

  /** The directory the path's parent leads to lists one entry more, under the path's last name,
      for an inode with that content and link count; no other row is different. */
  ghost predicate NewAt(fs: FS, gs: FS, roots: map<DriveId, Id>, drive: DriveId, path: string, id: Id,
                        content: Content, nlink: nat) {
    drive in roots
    && var at := ResolveParent(fs, roots[drive], path);
       at.Ok? && EntryAdded(fs, gs, at.value.0, at.value.1, id, content, nlink)
  }

  lemma ParentName(fs: FS, root: Id, p: string)
    ensures var r := ResolveParent(fs, root, p); r.Ok? ==> IsName(r.value.1) && r.value.1 in Comps(p)
  {
    CompsAreNames(p);
  }

  lemma ParentPlace(fs: FS, root: Id, p: string) returns (place: seq<string>)
    requires ResolveParent(fs, root, p).Ok?
    ensures Here(fs, root, place, ResolveParent(fs, root, p).value.0)
  {
    ResolvePlace(fs, root, ParentPath(p), true);
    place := ResolvePath(fs, root, ParentPath(p), true).value.place;
  }

  /** The source is a file or object of this drive, and the new name's parent a directory. */
  predicate HardlinkTypes(fs: FS, root: Id, srcPath: string, linkPath: string) {
    var src, at := ResolvePath(fs, root, srcPath, true), ResolveParent(fs, root, linkPath);
    src.Ok? && at.Ok? && src.value.ino in fs && fs[src.value.ino].Regular()
    && at.value.0 in fs && fs[at.value.0].IsDir()
  }

  predicate Hardlinkable(fs: FS, root: Id, srcPath: string, linkPath: string) {
    HardlinkTypes(fs, root, srcPath, linkPath)
    && var at := ResolveParent(fs, root, linkPath).value; Child(fs, at.0, at.1).None?
  }

  function Hardlinked(fs: FS, root: Id, srcPath: string, linkPath: string): FS
    requires Hardlinkable(fs, root, srcPath, linkPath)
  {
    var src, at := ResolvePath(fs, root, srcPath, true).value.ino, ResolveParent(fs, root, linkPath).value;
    AddLink(fs, at.0, at.1, src, fs[src])
  }

  /** A path that leads to a file, or to nothing yet in an existing directory; only in that
      case is there a transaction that has to last. */
  predicate Writable(fs: FS, root: Id, path: string, may: bool) {
    match ResolvePath(fs, root, path, true)
    case Ok(f) => f.ino in fs && fs[f.ino].content.File?
    case Err(_) => may && Free(fs, ResolveParent(fs, root, path))
  }

  /** The file's data replaced, or a new file linked. */
  ghost predicate Written(fs: FS, gs: FS, root: Id, path: string, data: string, id: Id) {
    match ResolvePath(fs, root, path, true)
    case Ok(f) => f.ino in fs && fs[f.ino].content.File? && gs == fs[f.ino := fs[f.ino].(content := File(data))]
    case Err(_) => Created(fs, gs, ResolveParent(fs, root, path), id, Inode(0, File(data)), true, true)
  }

  /** A handle for the inode, as the store has it. */
  ghost predicate Loaded(fs: FS, id: Id, h: Handle)
    reads h
  {
    h.id == id && id in fs && h.inode == fs[id]
  }

  ghost predicate Lands(fs: FS, spec: Result<(DriveId, Id)>, r: Result<(DriveId, Handle)>)
    reads if r.Ok? then {r.value.1} else {}
  {
    match spec
    case Err(e) => r == Err(e)
    case Ok(f) => r.Ok? && r.value.0 == f.0 && Loaded(fs, f.1, r.value.1)
  }

  ghost predicate Stops(fs: FS, spec: Result<Found>, r: Result<(Handle, string)>)
    reads if r.Ok? then {r.value.0} else {}
  {
    match spec
    case Err(e) => r == Err(e)
    case Ok(f) => r.Ok? && Loaded(fs, f.ino, r.value.0) && r.value.1 == Join(f.rest)
                  && (r.value.1 == "" <==> f.rest == []) && (f.rest != [] ==> r.value.0.inode.content.Mount?)
  }

  ghost predicate ParentIs(fs: FS, spec: Result<(Id, string)>, r: Result<(Handle, string)>)
    reads if r.Ok? then {r.value.0} else {}
  {
    match spec
    case Err(e) => r == Err(e)
    case Ok(d) => r.Ok? && Loaded(fs, d.0, r.value.0) && r.value.1 == d.1
  }

  class Service {
    const nodes: NodeOperation
    const roots: map<DriveId, Id>
    const softDeleted: set<DriveId>
    const hasRecorder: bool
    /** The drive each inode belongs to. */
    ghost var owner: map<Id, DriveId>

    ghost predicate Valid()
      reads this, nodes.db
    {
      nodes.db.Valid() && Inv(nodes.db.fs, roots, owner)
    }

    /** A store that already satisfies the invariant: drives with their root directories. */
    constructor (nodes: NodeOperation, roots: map<DriveId, Id>, softDeleted: set<DriveId>, hasRecorder: bool,
                 ghost owner: map<Id, DriveId>)
      requires nodes.db.Valid() && Inv(nodes.db.fs, roots, owner)
      ensures Valid() && this.nodes == nodes && this.roots == roots
    {
      this.nodes, this.roots, this.softDeleted, this.hasRecorder := nodes, roots, softDeleted, hasRecorder;
      this.owner := owner;
    }

    method GetRootNodeID(drive: DriveId) returns (r: Result<Id>)
      ensures r == if drive in roots then Ok(roots[drive]) else Err(NotFound)
    {
      if drive !in roots { return Err(NotFound); }
      return Ok(roots[drive]);
    }

    /** The tombstones of a removal or a move, in its transaction: none without a recorder.
        fails says whether the insert would fail. */
    method RecordGarbage(refs: seq<Ref>, fails: bool) returns (r: Result<()>)
      requires nodes.db.Valid()
      modifies nodes.db
      ensures nodes.db.Nested() && nodes.db.fs == old(nodes.db.fs)
      ensures r == if refs != [] && hasRecorder && fails then Err(RecorderFailed) else Ok(())
      ensures nodes.db.tombstones == old(nodes.db.tombstones) + if r.Ok? && hasRecorder then refs else []
    {
      if |refs| == 0 || !hasRecorder { return Ok(()); }
      if fails { return Err(RecorderFailed); }
      nodes.db.Record(refs);
      return Ok(());
    }

    /** Nothing but node rows changes, and no transaction is left open. */
    twostate predicate Quiet()
      reads nodes.db
    {
      nodes.db.Nested() && nodes.db.tombstones == old(nodes.db.tombstones)
    }

    // -------------------------------------------------------------- resolution across drives

    method ResolveWithMounts(drive: DriveId, path: string, follow: bool) returns (r: Result<(DriveId, Handle)>)
      ensures Lands(nodes.db.fs, Mounts.ResolveWithMounts(nodes.db.fs, roots, drive, path, follow), r)
    {
      ghost var fs, goal := nodes.db.fs, Mounts.ResolveWithMounts(nodes.db.fs, roots, drive, path, follow);
      var visited := {drive};
      var currentDrive := drive;
      var currentPath := CleanPath(path);
      for hop := 1 to Mounts.MAX_MOUNT_HOPS + 1
        invariant Mounts.Cross(fs, roots, currentDrive, currentPath, follow, visited, hop) == goal
      {
        var out := ResolveOnDrive(currentDrive, currentPath, follow);
        if out.Err? { return Err(out.error); }
        var node, remaining := out.value.0, out.value.1;
        if remaining == "" { return Ok((currentDrive, node)); }
        var source := node.inode.content.source;
        assert source == Mounts.Source(fs, roots[currentDrive], currentPath, follow);
        if source in visited { return Err(MountCycle); }
        visited := visited + {source};
        currentDrive := source;
        currentPath := "/" + remaining;
      }
      return Err(MaxMountHops);
    }

    /** One hop: a fresh resolver, so no cache leaks from one drive to the next. */
    method ResolveOnDrive(drive: DriveId, path: string, follow: bool) returns (r: Result<(Handle, string)>)
      ensures Stops(nodes.db.fs,
                    if drive in roots then ResolvePath(nodes.db.fs, roots[drive], path, follow) else Err(NotFound), r)
      ensures r.Ok? ==> fresh(r.value.0)
    {
      var rootID := GetRootNodeID(drive);
      if rootID.Err? { return Err(rootID.error); }
      var resolver := new Resolver(nodes);
      r := resolver.ResolvePath(rootID.value, path, follow);
      ResolveNames(nodes.db.fs, rootID.value, path, follow);
      ResolvePlace(nodes.db.fs, rootID.value, path, follow);
    }

    /** Symlinks and mounts are followed to the end. */
    method Resolve(drive: DriveId, path: string) returns (r: Result<(DriveId, Handle)>)
      requires Valid()
      ensures Lands(nodes.db.fs, Mounts.Resolve(nodes.db.fs, roots, drive, path), r)
      ensures r.Ok? ==> !r.value.1.inode.content.Symlink?
    {
      Mounts.ResolveFollows(nodes.db.fs, roots, drive, path);
      r := ResolveWithMounts(drive, path, true);
    }

    method Stat(drive: DriveId, path: string) returns (r: Result<Handle>)
      requires Valid()
      ensures match Mounts.Resolve(nodes.db.fs, roots, drive, path)
              case Err(e) => r == Err(e)
              case Ok(f) => r.Ok? && Loaded(nodes.db.fs, f.1, r.value) && !r.value.inode.content.Symlink?
    {
      var res := Resolve(drive, path);
      if res.Err? { return Err(res.error); }
      return Ok(res.value.1);
    }

    /** The inode the names of the path lead to one by one, mounts crossed, symlinks not. */
    method Lstat(drive: DriveId, path: string) returns (r: Result<(DriveId, Handle)>)
      ensures Lands(nodes.db.fs, Mounts.Lstat(nodes.db.fs, roots, drive, path), r)
      ensures CleanPath(CleanPath(path)) == CleanPath(path) ==>
                var place := Mounts.Literally(nodes.db.fs, roots, drive, Comps(path));
                (r.Ok? <==> place.Some?)
                && (r.Ok? ==> r.value.0 == place.value.0 && Loaded(nodes.db.fs, place.value.1, r.value.1))
    {
      LstatPlace(nodes.db.fs, roots, drive, path);
      r := ResolveWithMounts(drive, path, false);
    }

    // -------------------------------------------------------------- adding entries

    method ResolveEditableParent(drive: DriveId, path: string) returns (r: Result<(Handle, string)>)
      ensures ParentIs(nodes.db.fs, EditableParent(nodes.db.fs, roots, drive, path), r)
      ensures r.Ok? ==> fresh(r.value.0) && r.value.0.inode.IsDir()
    {
      var rootID := GetRootNodeID(drive);
      if rootID.Err? { return Err(rootID.error); }
      var resolver := new Resolver(nodes);
      r := resolver.ResolveParent(rootID.value, path);
      if r.Ok? && !r.value.0.inode.IsDir() { return Err(NotDirectory); }
    }

    /** A fresh inode, handed to Link, which inserts its row. */
    method LinkFresh(parent: Handle, name: string, id: Id, content: Content, f: Faults) returns (r: Result<Handle>)
      requires Valid() && id !in nodes.db.fs && (content.Dir? ==> content.entries == [])
      requires Loaded(nodes.db.fs, parent.id, parent) && IsName(name)
      modifies nodes.db, this`owner, parent
      ensures Valid() && Quiet() && Keeps(old(nodes.db.fs), nodes.db.fs, roots)
      ensures Created(old(nodes.db.fs), nodes.db.fs, Ok((parent.id, name)), id, Inode(0, content),
                      old(nodes.db.Lasts(f)), r.Ok?)
      ensures r.Ok? ==> EntryAdded(old(nodes.db.fs), nodes.db.fs, parent.id, name, id, content, 1)
      ensures r.Ok? ==> r.value.id == id && r.value.inode == Inode(1, content)
    {
      ghost var fs := nodes.db.fs;
      var n := new Handle(id, Inode(0, content));
      var linked := nodes.Link(parent, name, n, f);
      if linked.Err? { return Err(linked.error); }
      owner := LinkKeeps(fs, roots, owner, parent.id, name, id, Inode(0, content));
      return Ok(n);
    }

    /** The step Mkdir, Touch, Symlink, WriteLarge and Mount share: a fresh inode, linked
        into the resolved parent. */
    method LinkNew(drive: DriveId, path: string, id: Id, content: Content, f: Faults) returns (r: Result<Handle>)
      requires Valid() && id !in nodes.db.fs && (content.Dir? ==> content.entries == [])
      modifies nodes.db, this`owner
      ensures Valid() && Quiet() && Keeps(old(nodes.db.fs), nodes.db.fs, roots)
      ensures Created(old(nodes.db.fs), nodes.db.fs, EditableParent(old(nodes.db.fs), roots, drive, path), id,
                      Inode(0, content), old(nodes.db.Lasts(f)), r.Ok?)
      ensures r.Ok? ==> NewAt(old(nodes.db.fs), nodes.db.fs, roots, drive, path, id, content, 1)
      ensures r.Ok? ==> r.value.id == id && r.value.inode == Inode(1, content)
    {
      var at := ResolveEditableParent(drive, path);
      if at.Err? { return Err(at.error); }
      var (parent, name) := at.value;
      ParentName(nodes.db.fs, roots[drive], path);
      r := LinkFresh(parent, name, id, content, f);
    }

    method Mkdir(drive: DriveId, path: string, id: Id, f: Faults) returns (r: Result<Handle>)
      requires Valid() && id !in nodes.db.fs
      modifies nodes.db, this`owner
      ensures Valid() && Quiet() && Keeps(old(nodes.db.fs), nodes.db.fs, roots)
      ensures Created(old(nodes.db.fs), nodes.db.fs, EditableParent(old(nodes.db.fs), roots, drive, path), id,
                      Inode(0, Dir([])), old(nodes.db.Lasts(f)), r.Ok?)
      ensures r.Ok? ==> NewAt(old(nodes.db.fs), nodes.db.fs, roots, drive, path, id, Dir([]), 1)
    {
      r := LinkNew(drive, path, id, Dir([]), f);
    }

    method Touch(drive: DriveId, path: string, id: Id, f: Faults) returns (r: Result<Handle>)
      requires Valid() && id !in nodes.db.fs
      modifies nodes.db, this`owner
      ensures Valid() && Quiet() && Keeps(old(nodes.db.fs), nodes.db.fs, roots)
      ensures Created(old(nodes.db.fs), nodes.db.fs, EditableParent(old(nodes.db.fs), roots, drive, path), id,
                      Inode(0, File("")), old(nodes.db.Lasts(f)), r.Ok?)
      ensures r.Ok? ==> NewAt(old(nodes.db.fs), nodes.db.fs, roots, drive, path, id, File(""), 1)
    {
      r := LinkNew(drive, path, id, File(""), f);
    }

    method Symlink(drive: DriveId, target: string, linkPath: string, id: Id, f: Faults) returns (r: Result<Handle>)
      requires Valid() && id !in nodes.db.fs
      modifies nodes.db, this`owner
      ensures Valid() && Quiet() && Keeps(old(nodes.db.fs), nodes.db.fs, roots)
      ensures target == "" ==> r.Err? && nodes.db.fs == old(nodes.db.fs)
      ensures target != "" ==>
                Created(old(nodes.db.fs), nodes.db.fs, EditableParent(old(nodes.db.fs), roots, drive, linkPath), id,
                        Inode(0, Content.Symlink(target)), old(nodes.db.Lasts(f)), r.Ok?)
      ensures r.Ok? ==> NewAt(old(nodes.db.fs), nodes.db.fs, roots, drive, linkPath, id, Content.Symlink(target), 1)
    {
      var at := ResolveEditableParent(drive, linkPath);
      if at.Err? { return Err(at.error); }
      if target == "" { return Err(InvalidName); }
      r := LinkNew(drive, linkPath, id, Content.Symlink(target), f);
    }

    method WriteLarge(drive: DriveId, path: string, obj: Ref, size: int, id: Id, f: Faults) returns (r: Result<Handle>)
      requires Valid() && id !in nodes.db.fs
      modifies nodes.db, this`owner
      ensures Valid() && Quiet() && Keeps(old(nodes.db.fs), nodes.db.fs, roots)
      ensures obj.bucket == "" || obj.key == "" || size < 0 ==> r.Err? && nodes.db.fs == old(nodes.db.fs)
      ensures obj.bucket != "" && obj.key != "" && size >= 0 ==>
                Created(old(nodes.db.fs), nodes.db.fs, EditableParent(old(nodes.db.fs), roots, drive, path), id,
                        Inode(0, Object(obj)), old(nodes.db.Lasts(f)), r.Ok?)
      ensures r.Ok? ==> NewAt(old(nodes.db.fs), nodes.db.fs, roots, drive, path, id, Object(obj), 1)
    {
      var at := ResolveEditableParent(drive, path);
      if at.Err? { return Err(at.error); }
      if obj.bucket == "" || obj.key == "" || size < 0 { return Err(InvalidReference); }
      r := LinkNew(drive, path, id, Object(obj), f);
    }

    method Mount(drive: DriveId, mountPath: string, source: DriveId, id: Id, f: Faults) returns (r: Result<Handle>)
      requires Valid() && id !in nodes.db.fs
      modifies nodes.db, this`owner
      ensures Valid() && Quiet() && Keeps(old(nodes.db.fs), nodes.db.fs, roots)
      ensures drive == source || source !in roots || source in softDeleted || source == "" ==>
                r.Err? && nodes.db.fs == old(nodes.db.fs)
      ensures drive != source && source in roots && source !in softDeleted && source != "" ==>
                Created(old(nodes.db.fs), nodes.db.fs, EditableParent(old(nodes.db.fs), roots, drive, mountPath), id,
                        Inode(0, Content.Mount(source)), old(nodes.db.Lasts(f)), r.Ok?)
      ensures r.Ok? ==> NewAt(old(nodes.db.fs), nodes.db.fs, roots, drive, mountPath, id, Content.Mount(source), 1)
    {
      if drive == source { return Err(MountSelf); }
      if source !in roots { return Err(NotFound); }
      if source in softDeleted { return Err(DriveDeleted); }
      var at := ResolveEditableParent(drive, mountPath);
      if at.Err? { return Err(at.error); }
      if source == "" { return Err(InvalidReference); }
      r := LinkNew(drive, mountPath, id, Content.Mount(source), f);
    }

    /** Another entry for an existing file or object of the same drive. */
    method Hardlink(drive: DriveId, srcPath: string, linkPath: string, f: Faults) returns (r: Result<Handle>)
      requires Valid()
      modifies nodes.db
      ensures Valid() && Quiet() && Keeps(old(nodes.db.fs), nodes.db.fs, roots)
      ensures r.Ok? <==>
                drive in roots && Hardlinkable(old(nodes.db.fs), roots[drive], srcPath, linkPath)
                && old(nodes.db.Lasts(f))
      ensures nodes.db.fs == if r.Ok? then Hardlinked(old(nodes.db.fs), roots[drive], srcPath, linkPath)
              else old(nodes.db.fs)
      ensures r.Ok? ==>
                var fs := old(nodes.db.fs);
                var src := ResolvePath(fs, roots[drive], srcPath, true);
                src.Ok? && src.value.ino in fs
                && NewAt(fs, nodes.db.fs, roots, drive, linkPath, src.value.ino, fs[src.value.ino].content,
                         fs[src.value.ino].nlink + 1)
    {
      ghost var fs := nodes.db.fs;
      var ends := HardlinkEnds(drive, srcPath, linkPath);
      if ends.Err? { return Err(ends.error); }
      var (src, parent, name) := ends.value;
      ParentName(fs, roots[drive], linkPath);
      var linked := nodes.Link(parent, name, src, f);
      if linked.Err? { return Err(linked.error); }
      HardlinkKeeps(fs, roots, owner, drive, srcPath, linkPath);
      return Ok(src);
    }

    /** The source, checked for its kind, and the directory of the new name. */
    method HardlinkEnds(drive: DriveId, srcPath: string, linkPath: string) returns (r: Result<(Handle, Handle, string)>)
      ensures r.Ok? <==> drive in roots && HardlinkTypes(nodes.db.fs, roots[drive], srcPath, linkPath)
      ensures r.Ok? ==>
                fresh(r.value.0) && fresh(r.value.1)
                && Loaded(nodes.db.fs, ResolvePath(nodes.db.fs, roots[drive], srcPath, true).value.ino, r.value.0)
                && Loaded(nodes.db.fs, ResolveParent(nodes.db.fs, roots[drive], linkPath).value.0, r.value.1)
                && r.value.2 == ResolveParent(nodes.db.fs, roots[drive], linkPath).value.1
    {
      var rootID := GetRootNodeID(drive);
      if rootID.Err? { return Err(rootID.error); }
      var root := rootID.value;
      var resolver := new Resolver(nodes);
      var out := resolver.ResolvePath(root, srcPath, true);
      if out.Err? { return Err(out.error); }
      var src := out.value.0;
      // The symlink test never fires: see Walk.WalkFollows.
      if src.inode.content.Dir? || src.inode.content.Mount? || src.inode.content.Symlink? {
        return Err(HardlinkNotSupported);
      }
      var at := resolver.ResolveParent(root, linkPath);
      if at.Err? { return Err(at.error); }
      if !at.value.0.inode.IsDir() { return Err(NotDirectory); }
      return Ok((src, at.value.0, at.value.1));
    }

    /** Creates a file, or replaces the data of the file the path leads to. */
    method Write(drive: DriveId, path: string, data: string, id: Id, f: Faults) returns (r: Result<()>)
      requires Valid() && id !in nodes.db.fs
      modifies nodes.db, this`owner
      ensures Valid() && Quiet() && Keeps(old(nodes.db.fs), nodes.db.fs, roots)
      ensures r.Ok? <==> drive in roots && Writable(old(nodes.db.fs), roots[drive], path, old(nodes.db.Lasts(f)))
      ensures if r.Ok? then Written(old(nodes.db.fs), nodes.db.fs, roots[drive], path, data, id)
              else nodes.db.fs == old(nodes.db.fs)
    {
      var rootID := GetRootNodeID(drive);
      if rootID.Err? { return Err(rootID.error); }
      var root := rootID.value;
      ghost var fs := nodes.db.fs;
      var resolver := new Resolver(nodes);
      var out := resolver.ResolvePath(root, path, true);
      if out.Err? {
        var at := resolver.ResolveParent(root, path);
        if at.Err? { return Err(at.error); }
        var (parent, name) := at.value;
        ParentName(fs, root, path);
        var linked := LinkFresh(parent, name, id, File(data), f);
        if linked.Err? { return Err(linked.error); }
        return Ok(());
      }
      var n := out.value.0;
      if !n.inode.content.File? { return Err(NotAFile); }
      Overwrite(n, data);
      return Ok(());
    }

    /** node.WriteFile, and Save. */
    method Overwrite(n: Handle, data: string)
      requires Valid() && Loaded(nodes.db.fs, n.id, n) && n.inode.content.File?
      modifies nodes.db, n
      ensures Valid() && Quiet() && Keeps(old(nodes.db.fs), nodes.db.fs, roots)
      ensures nodes.db.fs == old(nodes.db.fs)[n.id := old(nodes.db.fs)[n.id].(content := File(data))]
    {
      SaveFileKeeps(nodes.db.fs, roots, owner, n.id, data);
      n.inode := n.inode.(content := File(data));
      nodes.Save(n);
    }
  }

  lemma LstatPlace(fs: FS, roots: map<DriveId, Id>, drive: DriveId, path: string)
    ensures var r, place := Mounts.Lstat(fs, roots, drive, path), Mounts.Literally(fs, roots, drive, Comps(path));
            CleanPath(CleanPath(path)) == CleanPath(path) ==>
              (r.Ok? <==> place.Some?) && (r.Ok? ==> r.value == place.value)
  {
    if CleanPath(CleanPath(path)) == CleanPath(path) {
      var r, place := Mounts.Lstat(fs, roots, drive, path), Mounts.Literally(fs, roots, drive, Comps(path));
      if r.Ok? { Mounts.LstatIsLiteral(fs, roots, drive, path, r.value.0, r.value.1); }
      if place.Some? { Mounts.LstatIsLiteral(fs, roots, drive, path, place.value.0, place.value.1); }
    }
  }

  // ---------------------------------------------------------------- what the steps keep

  /** Nothing that could be reached before is lost or leads elsewhere. */
  lemma AddedWithin(fs: FS, gs: FS, p: Id, name: string, id: Id, content: Content, nlink: nat)
    requires EntryAdded(fs, gs, p, name, id, content, nlink) && Find(fs[p].content.entries, name).None?
    requires id in fs ==> fs[id].content == content && !content.Dir?
    ensures Within(fs, gs) && Child(gs, p, name) == Some(id)
  {
    var es, e := fs[p].content.entries, Entry(id, name, gs[id].Kind());
    FindAppend(es, e, name);
    forall x, m | x in fs && fs[x].IsDir()
      ensures gs[x].IsDir()
      ensures Find(fs[x].content.entries, m).Some? ==>
                Find(gs[x].content.entries, m) == Find(fs[x].content.entries, m)
    {
      if x == p { FindAppend(es, e, m); }
    }
  }

  /** What has been made at a path is what resolving that path then finds. */
  lemma NewIsFound(fs: FS, gs: FS, roots: map<DriveId, Id>, drive: DriveId, path: string, id: Id, content: Content,
                   nlink: nat)
    requires NewAt(fs, gs, roots, drive, path, id, content, nlink) && !content.Symlink?
    requires var at := ResolveParent(fs, roots[drive], path).value; Child(fs, at.0, at.1).None?
    requires id in fs ==> fs[id].content == content && !content.Dir?
    requires TidyTargets(fs) && AllTidy(Comps(path))
    ensures var out := ResolvePath(gs, roots[drive], path, true);
            out.Ok? && out.value.ino == id && out.value.rest == [] && gs[id] == Inode(nlink, content)
  {
    var at := ResolveParent(fs, roots[drive], path).value;
    AddedWithin(fs, gs, at.0, at.1, id, content, nlink);
    ResolveWithin(fs, gs, roots[drive], path, true);
    AddedTidy(fs, gs, at.0, at.1, id, content, nlink);
    LockStep(gs, roots[drive], path, id);
  }

  lemma AddedTidy(fs: FS, gs: FS, p: Id, name: string, id: Id, content: Content, nlink: nat)
    requires EntryAdded(fs, gs, p, name, id, content, nlink) && !content.Symlink? && TidyTargets(fs)
    ensures TidyTargets(gs)
  {
    forall x | x in gs && gs[x].content.Symlink? ensures AllTidy(Split(gs[x].content.target)) {
      assert x in fs && gs[x] == fs[x];
    }
  }

  /** Both names of a hard link then lead to the one inode, with the content it had. */
  lemma HardlinkIsFound(fs: FS, gs: FS, roots: map<DriveId, Id>, drive: DriveId, srcPath: string, linkPath: string)
    requires drive in roots && Hardlinkable(fs, roots[drive], srcPath, linkPath)
    requires var x := ResolvePath(fs, roots[drive], srcPath, true).value.ino;
             NewAt(fs, gs, roots, drive, linkPath, x, fs[x].content, fs[x].nlink + 1)
    requires TidyTargets(fs) && AllTidy(Comps(linkPath))
    ensures var x := ResolvePath(fs, roots[drive], srcPath, true).value.ino;
            var a, b := ResolvePath(gs, roots[drive], srcPath, true), ResolvePath(gs, roots[drive], linkPath, true);
            a.Ok? && a.value.ino == x && b.Ok? && b.value.ino == x && x in gs && gs[x].content == fs[x].content
  {
    var x := ResolvePath(fs, roots[drive], srcPath, true).value.ino;
    var at := ResolveParent(fs, roots[drive], linkPath).value;
    NewIsFound(fs, gs, roots, drive, linkPath, x, fs[x].content, fs[x].nlink + 1);
    AddedWithin(fs, gs, at.0, at.1, x, fs[x].content, fs[x].nlink + 1);
    ResolveWithin(fs, gs, roots[drive], srcPath, true);
  }

  /** The stores differ in the data of files at most. */
  ghost predicate SameButData(fs: FS, gs: FS) {
    fs.Keys == gs.Keys
    && forall x | x in fs :: gs[x].content == fs[x].content || (gs[x].content.File? && fs[x].content.File?)
  }

  lemma {:induction false} WalkSameButData(fs: FS, gs: FS, root: Id, done: seq<string>, cur: Id, todo: seq<string>,
                                           follow: bool, visited: set<Id>)
    requires SameButData(fs, gs) && root in fs && cur in fs
    ensures WalkFrom(gs, root, done, cur, todo, follow, visited) == WalkFrom(fs, root, done, cur, todo, follow, visited)
    decreases MAX_SYMLINK_DEPTH - |visited|, |todo|
  {
    if todo != [] && fs[cur].IsDir() {
      var e := Find(fs[cur].content.entries, todo[0]);
      if e.Some? && e.value.ino in fs && !fs[e.value.ino].content.Mount? {
        var c := e.value.ino;
        if follow && fs[c].content.Symlink? {
          if |visited| < MAX_SYMLINK_DEPTH && c !in visited {
            WalkSameButData(fs, gs, root, [], root, Comps(Spliced(done, fs[c].content.target, todo[1..])), follow,
                            visited + {c});
          }
        } else {
          WalkSameButData(fs, gs, root, done + [todo[0]], c, todo[1..], follow, visited);
        }
      }
    }
  }

  /** After a write the path leads to a file with the data written, and no other inode has
      changed but the directory of a new file. */
  lemma WriteThenRead(fs: FS, gs: FS, roots: map<DriveId, Id>, drive: DriveId, path: string, data: string, id: Id)
    requires drive in roots && roots[drive] in fs && id !in fs && Written(fs, gs, roots[drive], path, data, id)
    requires TidyTargets(fs) && AllTidy(Comps(path))
    ensures var out := ResolvePath(gs, roots[drive], path, true);
            out.Ok? && out.value.rest == [] && out.value.ino in gs && gs[out.value.ino].content == File(data)
            && forall x | x in fs && x != out.value.ino :: x in gs && (gs[x] == fs[x] || fs[x].IsDir())
  {
    var root := roots[drive];
    var out := ResolvePath(fs, root, path, true);
    if out.Ok? {
      ResolvePlace(fs, root, path, true);
      WalkSameButData(fs, gs, root, [], root, Comps(path), true, {});
    } else {
      var at := ResolveParent(fs, root, path).value;
      ResolvePlace(fs, root, ParentPath(path), true);
      AddLinkAdds(fs, at.0, at.1, id, Inode(0, File(data)));
      NewIsFound(fs, gs, roots, drive, path, id, File(data), 1);
    }
  }

  lemma {:induction false} WalkRestNames(fs: FS, root: Id, done: seq<string>, cur: Id, todo: seq<string>, follow: bool,
                                         visited: set<Id>)
    requires root in fs && cur in fs && Names(todo)
    ensures var r := WalkFrom(fs, root, done, cur, todo, follow, visited);
            r.Ok? ==> Names(r.value.rest) && r.value.ino in fs
    decreases MAX_SYMLINK_DEPTH - |visited|, |todo|
  {
    if todo != [] && fs[cur].IsDir() {
      var e := Find(fs[cur].content.entries, todo[0]);
      if e.Some? && e.value.ino in fs && !fs[e.value.ino].content.Mount? {
        var c := e.value.ino;
        if follow && fs[c].content.Symlink? {
          if |visited| < MAX_SYMLINK_DEPTH && c !in visited {
            CompsAreNames(Spliced(done, fs[c].content.target, todo[1..]));
            WalkRestNames(fs, root, [], root, Comps(Spliced(done, fs[c].content.target, todo[1..])), follow,
                          visited + {c});
          }
        } else {
          WalkRestNames(fs, root, done + [todo[0]], c, todo[1..], follow, visited);
        }
      }
    }
  }

  /** The remainder is the empty string exactly when nothing remains. */
  lemma ResolveNames(fs: FS, root: Id, p: string, follow: bool)
    ensures var r := ResolvePath(fs, root, p, follow);
            r.Ok? ==> r.value.ino in fs && (Join(r.value.rest) == "" <==> r.value.rest == [])
  {
    if root in fs {
      CompsAreNames(p);
      WalkRestNames(fs, root, [], root, Comps(p), follow, {});
      var r := ResolvePath(fs, root, p, follow);
      if r.Ok? { JoinEmpty(r.value.rest); }
    }
  }

  lemma LinkKeeps(fs: FS, roots: map<DriveId, Id>, owner: map<Id, DriveId>, p: Id, name: string, id: Id, n: Inode)
      returns (owner': map<Id, DriveId>)
    requires Inv(fs, roots, owner) && p in fs && fs[p].IsDir() && Linkable(fs, roots, id, n)
    requires Find(fs[p].content.entries, name).None? && IsName(name)
    requires id in fs ==> owner[id] == owner[p]
    ensures owner' == owner[id := owner[p]]
    ensures Inv(AddLink(fs, p, name, id, n), roots, owner') && Keeps(fs, AddLink(fs, p, name, id, n), roots)
  {
    owner' := AddLinkKeepsInv(fs, roots, owner, p, name, id, n);
    if id !in fs { FreshHasNoLinks(fs, roots, owner, id); }
    AddLinkCounts(fs, roots, p, name, id, n);
    if Acyclic(fs) { AddLinkKeepsAcyclic(fs, roots, p, name, id, n); }
  }

  /** Source and new parent were both reached from the same root, so they share a drive. */
  lemma HardlinkKeeps(fs: FS, roots: map<DriveId, Id>, owner: map<Id, DriveId>, drive: DriveId, srcPath: string,
                      linkPath: string)
    requires Inv(fs, roots, owner) && drive in roots
    requires Hardlinkable(fs, roots[drive], srcPath, linkPath)
    ensures var gs := Hardlinked(fs, roots[drive], srcPath, linkPath); Inv(gs, roots, owner) && Keeps(fs, gs, roots)
  {
    var root := roots[drive];
    var src, at := ResolvePath(fs, root, srcPath, true).value, ResolveParent(fs, root, linkPath).value;
    ResolvePlace(fs, root, srcPath, true);
    var place := ParentPlace(fs, root, linkPath);
    AtOwner(fs, roots, owner, drive, src.place);
    AtOwner(fs, roots, owner, drive, place);
    ParentName(fs, root, linkPath);
    RegularIsNoRoot(fs, roots, src.ino);
    var owner' := LinkKeeps(fs, roots, owner, at.0, at.1, src.ino, fs[src.ino]);
    assert owner' == owner;
  }

  lemma RegularIsNoRoot(fs: FS, roots: map<DriveId, Id>, x: Id)
    requires RootsOk(fs, roots) && x in fs && !fs[x].IsDir()
    ensures !IsRoot(roots, x)
  {
  }

  lemma SaveFileKeeps(fs: FS, roots: map<DriveId, Id>, owner: map<Id, DriveId>, x: Id, data: string)
    requires Inv(fs, roots, owner) && x in fs && fs[x].content.File?
    ensures var gs := fs[x := fs[x].(content := File(data))];
            Inv(gs, roots, owner) && Keeps(fs, gs, roots)
  {
    var gs := fs[x := fs[x].(content := File(data))];
    forall y | y in fs && !IsRoot(roots, y) ensures CountOk(fs[y], |To(Links(fs), y)|) {}
    SameShapeKeepsInv(fs, gs, roots, owner);
    SameShapeLinks(fs, gs);
    if Acyclic(fs) {
      var rank :| Ranked(fs, rank);
      assert Ranked(gs, rank);
    }
  }
}

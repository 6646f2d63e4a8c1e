/** Any sequence of requests to the service, and what every state along it satisfies. */
module Runs {
  import opened Paths
  import opened Inodes
  import opened Graph
  import opened Moves
  import opened Walk
  import opened NodeOps
  import opened Removal
  import opened Vfs
  import opened Batch
  import opened MoveFacts
  import opened BatchFacts
  import Remove
  import Move
  import Tx = Transactions

  /** A request, and how the database takes the transaction it would begin. */
  datatype Call = Call(request: Request, faults: Tx.Faults)

  datatype Request =
    | Mkdir(drive: DriveId, path: string)
    | Touch(drive: DriveId, path: string)
    | Write(drive: DriveId, path: string, data: string)
    | WriteLarge(drive: DriveId, path: string, obj: Ref, size: int)
    | Symlink(drive: DriveId, target: string, path: string)
    | Hardlink(drive: DriveId, srcPath: string, path: string)
    | Mount(drive: DriveId, path: string, source: DriveId)
    | Unmount(drive: DriveId, path: string)
    | Rm(drive: DriveId, paths: seq<string>, recursive: bool, recorderFails: bool)
    | Mv(drive: DriveId, srcPaths: seq<string>, dstDrive: DriveId, dstPath: string, recorderFails: bool)

  // ---------------------------------------------------------------- what a request must respect

  ghost predicate PlanLossless(fs: FS, p: Plan) {
    InPlace(fs, p.sp, p.sn, p.dp, p.dn) || (Movable(fs, p.sp, p.sn, p.dp, p.dn) && Lossless(fs, p.sp, p.sn, p.dp, p.dn))
  }

  ghost predicate BatchLossless(fs: FS, srcs: seq<Source>, dp: Id) {
    var n := Leading(fs, srcs, dp);
    n == |srcs| || (n == |srcs| - 1 && Movable(fs, srcs[n].dir, srcs[n].name, dp, srcs[n].name)
                    && Lossless(fs, srcs[n].dir, srcs[n].name, dp, srcs[n].name))
  }

  /** A successful move drops no entry. */
  ghost predicate MvLossless(fs: FS, root: Id, srcPaths: seq<string>, dstPath: string) {
    if |srcPaths| == 1 then
      MovePlan(fs, root, srcPaths[0], dstPath).Ok? ==> PlanLossless(fs, MovePlan(fs, root, srcPaths[0], dstPath).value)
    else
      forall srcs, dp | BatchOf(fs, root, srcPaths, dstPath, srcs, dp) :: BatchLossless(fs, srcs, dp)
  }

  /** The move makes no directory cycle: the source does not contain the destination, or,
      in a batch, the last source does not contain it when its turn comes. */
  ghost predicate MvOutward(fs: FS, root: Id, srcPaths: seq<string>, dstPath: string) {
    if |srcPaths| == 1 then
      MovePlan(fs, root, srcPaths[0], dstPath).Ok? ==>
        var p := MovePlan(fs, root, srcPaths[0], dstPath).value;
        Child(fs, p.sp, p.sn).Some? ==> !Below(fs, Child(fs, p.sp, p.sn).value, p.dp)
    else
      forall srcs, dp | BatchOf(fs, root, srcPaths, dstPath, srcs, dp) :: BatchOutward(fs, srcs, dp)
  }

  /** Requests that keep link counts exact: removals work on names without outer white
      space, and moves drop nothing. */
  ghost predicate Counted(fs: FS, roots: map<DriveId, Id>, q: Request) {
    match q
    case Rm(_, paths, _, _) => TidyStore(fs) && TidyPaths(paths)
    case Unmount(_, path) => Remove.TidyCall(fs, path)
    case Mv(drive, srcPaths, dstDrive, dstPath, _) =>
      drive in roots && drive == dstDrive ==> MvLossless(fs, roots[drive], srcPaths, dstPath)
    case _ => true
  }

  /** Requests that keep the directory graph acyclic. */
  ghost predicate Outward(fs: FS, roots: map<DriveId, Id>, q: Request) {
    match q
    case Mv(drive, srcPaths, dstDrive, dstPath, _) =>
      drive in roots && drive == dstDrive ==> MvOutward(fs, roots[drive], srcPaths, dstPath)
    case _ => true
  }

  ghost predicate Preserves(fs: FS, gs: FS, roots: map<DriveId, Id>, q: Request) {
    (Counted(fs, roots, q) && Exact(fs, roots) ==> Exact(gs, roots))
    && (Outward(fs, roots, q) && Acyclic(fs) ==> Acyclic(gs))
  }

  lemma MvPreserves(fs: FS, roots: map<DriveId, Id>, owner: map<Id, DriveId>,
                    drive: DriveId, srcPaths: seq<string>, dstDrive: DriveId, dstPath: string, fails: bool)
    requires Inv(fs, roots, owner)
    ensures var r := MoveSpec(fs, roots, drive, srcPaths, dstDrive, dstPath);
            r.Ok? ==> Preserves(fs, r.value.0.fs, roots, Mv(drive, srcPaths, dstDrive, dstPath, fails))
  {
    if MoveSpec(fs, roots, drive, srcPaths, dstDrive, dstPath).Ok? {
      var gs := MoveSpec(fs, roots, drive, srcPaths, dstDrive, dstPath).value.0.fs;
      if |srcPaths| == 1 {
        MvOnePreserves(fs, roots, owner, drive, srcPaths, dstPath);
      } else {
        MvManyPreserves(fs, roots, owner, drive, srcPaths, dstPath);
      }
      MvRespects(fs, gs, roots, drive, srcPaths, dstPath, fails);
    }
  }

  lemma MvRespects(fs: FS, gs: FS, roots: map<DriveId, Id>, d: DriveId, srcPaths: seq<string>, dstPath: string,
                   fails: bool)
    requires d in roots
    requires MvLossless(fs, roots[d], srcPaths, dstPath) && Exact(fs, roots) ==> Exact(gs, roots)
    requires MvOutward(fs, roots[d], srcPaths, dstPath) && Acyclic(fs) ==> Acyclic(gs)
    ensures Preserves(fs, gs, roots, Mv(d, srcPaths, d, dstPath, fails))
  {
  }

  lemma MvOnePreserves(fs: FS, roots: map<DriveId, Id>, owner: map<Id, DriveId>,
                       d: DriveId, srcPaths: seq<string>, dstPath: string)
    requires Inv(fs, roots, owner) && d in roots && |srcPaths| == 1 && MoveOne(fs, roots[d], srcPaths[0], dstPath).Ok?
    ensures var gs := MoveOne(fs, roots[d], srcPaths[0], dstPath).value.0.fs;
            (MvLossless(fs, roots[d], srcPaths, dstPath) && Exact(fs, roots) ==> Exact(gs, roots))
            && (MvOutward(fs, roots[d], srcPaths, dstPath) && Acyclic(fs) ==> Acyclic(gs))
  {
    if Exact(fs, roots) { MoveOneKeepsExact(fs, roots, owner, d, srcPaths[0], dstPath); }
    if Acyclic(fs) {
      MoveOneKeepsAcyclic(fs, roots, owner, d, srcPaths[0], dstPath);
      OneSource(fs, roots, d, srcPaths[0], dstPath);
    }
  }

  lemma OneSource(fs: FS, roots: map<DriveId, Id>, d: DriveId, srcPath: string, dstPath: string)
    requires d in roots && MoveOne(fs, roots[d], srcPath, dstPath).Ok?
    ensures var p := MovePlan(fs, roots[d], srcPath, dstPath).value; Child(fs, p.sp, p.sn).Some?
  {
  }

  lemma MvManyPreserves(fs: FS, roots: map<DriveId, Id>, owner: map<Id, DriveId>,
                        d: DriveId, srcPaths: seq<string>, dstPath: string)
    requires Inv(fs, roots, owner) && d in roots && |srcPaths| != 1 && MoveMany(fs, roots[d], srcPaths, dstPath).Ok?
    ensures var gs := MoveMany(fs, roots[d], srcPaths, dstPath).value.0.fs;
            (MvLossless(fs, roots[d], srcPaths, dstPath) && Exact(fs, roots) ==> Exact(gs, roots))
            && (MvOutward(fs, roots[d], srcPaths, dstPath) && Acyclic(fs) ==> Acyclic(gs))
  {
    var srcs, dp := Gather(fs, roots[d], srcPaths, {}).value, ResolvePath(fs, roots[d], dstPath, true).value.ino;
    assert BatchOf(fs, roots[d], srcPaths, dstPath, srcs, dp);
    if Exact(fs, roots) { BatchKeepsExact(fs, roots, owner, d, srcPaths, dstPath, srcs, dp); }
    if MvOutward(fs, roots[d], srcPaths, dstPath) && Acyclic(fs) {
      BatchKeepsAcyclic(fs, roots, roots[d], srcPaths, dstPath, srcs, dp);
    }
  }

  // ---------------------------------------------------------------- what a request does

  /** The drives, the soft-deleted ones, whether there is a recorder, and whether the
      requests run inside a transaction of their caller. */
  datatype Setup = Setup(roots: map<DriveId, Id>, softDeleted: set<DriveId>, recorder: bool, inTx: bool) {
    /** Does the transaction of a call last? */
    predicate Lasts(c: Call) { inTx || c.faults.Calm() }
  }

  function SetupOf(s: Service): Setup
    reads s.nodes.db
  {
    Setup(s.roots, s.softDeleted, s.hasRecorder, s.nodes.db.open)
  }

  /** A new inode with the new id, where the path says and if there is room; else nothing. */
  ghost predicate Adds(fs: FS, gs: FS, u: Setup, drive: DriveId, path: string, id: Id, content: Content, may: bool) {
    var at := EditableParent(fs, u.roots, drive, path);
    Created(fs, gs, at, id, Inode(0, content), may, may && Free(fs, at))
  }

  /** What one call does to the store; id is the id a new inode gets. */
  ghost predicate Takes(fs: FS, gs: FS, u: Setup, c: Call, id: Id) {
    var may := u.Lasts(c);
    match c.request
    case Mkdir(drive, path) => Adds(fs, gs, u, drive, path, id, Dir([]), may)
    case Touch(drive, path) => Adds(fs, gs, u, drive, path, id, File(""), may)
    case Symlink(drive, target, path) =>
      if target == "" then gs == fs else Adds(fs, gs, u, drive, path, id, Content.Symlink(target), may)
    case WriteLarge(drive, path, obj, size) =>
      if obj.bucket == "" || obj.key == "" || size < 0 then gs == fs
      else Adds(fs, gs, u, drive, path, id, Object(obj), may)
    case Mount(drive, path, source) =>
      if drive == source || source !in u.roots || source in u.softDeleted || source == "" then gs == fs
      else Adds(fs, gs, u, drive, path, id, Content.Mount(source), may)
    case Write(drive, path, data) =>
      if drive in u.roots && Writable(fs, u.roots[drive], path, may)
      then Written(fs, gs, u.roots[drive], path, data, id) else gs == fs
    case Hardlink(drive, srcPath, path) =>
      gs == if drive in u.roots && Hardlinkable(fs, u.roots[drive], srcPath, path) && may
            then Hardlinked(fs, u.roots[drive], srcPath, path) else fs
    case Unmount(drive, path) =>
      if drive in u.roots && Remove.Unmountable(fs, u.roots[drive], path) && may
      then Remove.LeafCut(fs, gs, u.roots[drive], path) else gs == fs
    case Rm(drive, paths, recursive, _) => RmTakes(fs, gs, u, drive, paths, recursive)
    case Mv(drive, srcPaths, dstDrive, dstPath, fails) =>
      var spec := MoveSpec(fs, u.roots, drive, srcPaths, dstDrive, dstPath);
      gs == if Move.MvError(spec, u.recorder, fails).Ok? && may then spec.value.0.fs else fs
  }

  /** Nothing, or some entries of that drive go: on tidy names exactly those of RmAll. */
  ghost predicate RmTakes(fs: FS, gs: FS, u: Setup, drive: DriveId, paths: seq<string>, recursive: bool) {
    gs == fs
    || (drive in u.roots && Pared(fs, gs, u.roots[drive]) && (forall p | p in paths :: Comps(p) != [])
        && (TidyStore(fs) && TidyPaths(paths) ==>
              Remove.AllRemovable(fs, u.roots[drive], paths, recursive) && gs == RmAll(fs, u.roots[drive], paths)))
  }

  // ---------------------------------------------------------------- what a request keeps

  ghost predicate Consistent(fs: FS, roots: map<DriveId, Id>) { exists owner :: Inv(fs, roots, owner) }

  /** The store stays consistent, and exact and acyclic as far as the request respects it. */
  ghost predicate Kept(fs: FS, gs: FS, roots: map<DriveId, Id>, q: Request) {
    Consistent(gs, roots) && Preserves(fs, gs, roots, q)
  }

  lemma KeepsIsKept(fs: FS, gs: FS, roots: map<DriveId, Id>, owner: map<Id, DriveId>, q: Request)
    requires Inv(gs, roots, owner) && Keeps(fs, gs, roots)
    ensures Kept(fs, gs, roots, q)
  {
  }

  lemma AddsKeeps(fs: FS, gs: FS, u: Setup, owner: map<Id, DriveId>, drive: DriveId, path: string, id: Id,
                  content: Content, may: bool, q: Request)
    requires Inv(fs, u.roots, owner) && id !in fs && (content.Dir? ==> content.entries == [])
    requires Adds(fs, gs, u, drive, path, id, content, may)
    ensures Kept(fs, gs, u.roots, q)
  {
    var at, owner' := EditableParent(fs, u.roots, drive, path), owner;
    if may && Free(fs, at) {
      ParentName(fs, u.roots[drive], path);
      owner' := LinkKeeps(fs, u.roots, owner, at.value.0, at.value.1, id, Inode(0, content));
    }
    KeepsIsKept(fs, gs, u.roots, owner', q);
  }

  lemma WrittenKeeps(fs: FS, gs: FS, roots: map<DriveId, Id>, owner: map<Id, DriveId>, root: Id, path: string,
                     data: string, id: Id, q: Request)
    requires Inv(fs, roots, owner) && id !in fs && Written(fs, gs, root, path, data, id)
    ensures Kept(fs, gs, roots, q)
  {
    var out, at, owner' := ResolvePath(fs, root, path, true), ResolveParent(fs, root, path), owner;
    if out.Ok? {
      SaveFileKeeps(fs, roots, owner, out.value.ino, data);
    } else {
      ParentName(fs, root, path);
      owner' := LinkKeeps(fs, roots, owner, at.value.0, at.value.1, id, Inode(0, File(data)));
    }
    KeepsIsKept(fs, gs, roots, owner', q);
  }

  lemma PrunedIsKept(fs: FS, gs: FS, roots: map<DriveId, Id>, owner: map<Id, DriveId>, root: Id, q: Request)
    requires Inv(fs, roots, owner) && Pared(fs, gs, root)
    requires Counted(fs, roots, q) && Exact(fs, roots) ==> Exact(gs, roots)
    ensures Kept(fs, gs, roots, q)
  {
    ParedKeeps(fs, gs, roots, owner, root);
  }

  lemma UnmountedKeeps(fs: FS, gs: FS, roots: map<DriveId, Id>, owner: map<Id, DriveId>, drive: DriveId, path: string)
    requires Inv(fs, roots, owner) && drive in roots && Remove.LeafCut(fs, gs, roots[drive], path)
    requires Remove.Unmountable(fs, roots[drive], path)
    ensures Kept(fs, gs, roots, Unmount(drive, path))
  {
    UnmountExact(fs, roots, owner, drive, path);
    Remove.UnlinkKeeps(fs, roots, owner, roots[drive], path);
    PrunedIsKept(fs, gs, roots, owner, roots[drive], Unmount(drive, path));
  }

  lemma UnmountExact(fs: FS, roots: map<DriveId, Id>, owner: map<Id, DriveId>, drive: DriveId, path: string)
    requires Inv(fs, roots, owner) && drive in roots && Remove.Unmountable(fs, roots[drive], path)
    ensures Counted(fs, roots, Unmount(drive, path)) && Exact(fs, roots) ==>
              Exact(Cut(fs, {LeafLink(fs, roots[drive], path)}), roots)
  {
    if Counted(fs, roots, Unmount(drive, path)) {
      assert IsRoot(roots, roots[drive]);
      Remove.UnmountKeeps(fs, roots, owner, roots[drive], path);
    }
  }

  lemma RmKeeps(fs: FS, gs: FS, u: Setup, owner: map<Id, DriveId>, q: Request)
    requires Inv(fs, u.roots, owner) && q.Rm? && RmTakes(fs, gs, u, q.drive, q.paths, q.recursive)
    ensures Kept(fs, gs, u.roots, q)
  {
    if gs == fs {
      KeepsIsKept(fs, gs, u.roots, owner, q);
    } else {
      RmExact(fs, u.roots, owner, q);
      PrunedIsKept(fs, gs, u.roots, owner, u.roots[q.drive], q);
    }
  }

  lemma RmExact(fs: FS, roots: map<DriveId, Id>, owner: map<Id, DriveId>, q: Request)
    requires Inv(fs, roots, owner) && q.Rm? && q.drive in roots
    ensures Counted(fs, roots, q) && Exact(fs, roots) ==> Exact(RmAll(fs, roots[q.drive], q.paths), roots)
  {
    if Counted(fs, roots, q) && Exact(fs, roots) {
      assert IsRoot(roots, roots[q.drive]);
      RmAllKeepsExact(fs, roots, owner, roots[q.drive], q.paths);
    }
  }

  lemma MvKeeps(fs: FS, gs: FS, u: Setup, owner: map<Id, DriveId>, c: Call, id: Id)
    requires Inv(fs, u.roots, owner) && c.request.Mv? && Takes(fs, gs, u, c, id)
    ensures Kept(fs, gs, u.roots, c.request)
  {
    var q := c.request;
    MvPreserves(fs, u.roots, owner, q.drive, q.srcPaths, q.dstDrive, q.dstPath, q.recorderFails);
    MoveSpecKeepsInv(fs, u.roots, owner, q.drive, q.srcPaths, q.dstDrive, q.dstPath);
  }

  /** What any call does keeps the tree consistent, whatever the paths and whatever fails;
      counts stay exact and directories acyclic when the request respects the conditions. */
  lemma TakesKeeps(fs: FS, gs: FS, u: Setup, c: Call, id: Id)
    requires Consistent(fs, u.roots) && id !in fs && Takes(fs, gs, u, c, id)
    ensures Consistent(gs, u.roots) && Preserves(fs, gs, u.roots, c.request)
  {
    var owner :| Inv(fs, u.roots, owner);
    var q, may := c.request, u.Lasts(c);
    match q
    case Unmount(drive, path) =>
      if gs != fs { UnmountedKeeps(fs, gs, u.roots, owner, drive, path); }
    case Rm(_, _, _, _) => RmKeeps(fs, gs, u, owner, q);
    case Mv(_, _, _, _, _) => MvKeeps(fs, gs, u, owner, c, id);
    case Hardlink(drive, srcPath, path) =>
      if gs != fs { HardlinkKeeps(fs, u.roots, owner, drive, srcPath, path); }
    case _ => NewKeeps(fs, gs, u, owner, c, id);
  }

  lemma NewKeeps(fs: FS, gs: FS, u: Setup, owner: map<Id, DriveId>, c: Call, id: Id)
    requires Inv(fs, u.roots, owner) && id !in fs && Takes(fs, gs, u, c, id)
    requires var q := c.request; !q.Unmount? && !q.Rm? && !q.Mv? && !q.Hardlink?
    ensures Kept(fs, gs, u.roots, c.request)
  {
    var q, may := c.request, u.Lasts(c);
    if gs == fs { KeepsIsKept(fs, gs, u.roots, owner, q); return; }
    match q
    case Mkdir(drive, path) => AddsKeeps(fs, gs, u, owner, drive, path, id, Dir([]), may, q);
    case Touch(drive, path) => AddsKeeps(fs, gs, u, owner, drive, path, id, File(""), may, q);
    case Symlink(drive, target, path) => AddsKeeps(fs, gs, u, owner, drive, path, id, Content.Symlink(target), may, q);
    case WriteLarge(drive, path, obj, _) => AddsKeeps(fs, gs, u, owner, drive, path, id, Object(obj), may, q);
    case Mount(drive, path, source) => AddsKeeps(fs, gs, u, owner, drive, path, id, Content.Mount(source), may, q);
    case Write(drive, path, data) => WrittenKeeps(fs, gs, u.roots, owner, u.roots[drive], path, data, id, q);
  }

  // ---------------------------------------------------------------- serving a request

  /** A new id: any that no row has, and that has not just been handed out. */
  method NewID(s: Service, taken: set<Id>) returns (id: Id)
    ensures id !in s.nodes.db.fs && id !in taken
  {
    id := 0;
    ghost var tried: set<Id> := {};
    while id in s.nodes.db.fs || id in taken
      invariant tried <= s.nodes.db.fs.Keys + taken && forall k: Id :: k in tried <==> k < id
      decreases s.nodes.db.fs.Keys + taken - tried
    {
      tried := tried + {id};
      id := id + 1;
    }
  }

  /** Whether a result is an error, and which. */
  function Done<T>(r: Result<T>): Result<()> {
    if r.Ok? then Ok(()) else Err(r.error)
  }

  /** Serves one call. Only a failing call inside its caller's transaction may leave more
      behind than Takes says, for that transaction to undo. */
  method Serve(s: Service, c: Call) returns (r: Result<()>, ghost id: Id)
    requires s.Valid()
    modifies s, s.nodes.db
    ensures s.Valid() && s.nodes.db.Nested() && id !in old(s.nodes.db.fs)
    ensures r.Ok? || !s.nodes.db.open ==> Takes(old(s.nodes.db.fs), s.nodes.db.fs, SetupOf(s), c, id)
  {
    var unused := NewID(s, {});
    id := unused;
    match c.request
    case Unmount(drive, path) =>
      var out := Remove.Unmount(s, drive, path, c.faults);
      r := Done(out);
    case Rm(_, _, _, _) => r := ServeRm(s, c, id);
    case Mv(drive, srcPaths, dstDrive, dstPath, fails) =>
      var out := Move.Mv(s, drive, srcPaths, dstDrive, dstPath, fails, c.faults);
      r := Done(out);
    case _ => r := ServeNew(s, c, unused);
  }

  /** The requests that add entries or write data. */
  method ServeNew(s: Service, c: Call, id: Id) returns (r: Result<()>)
    requires s.Valid() && id !in s.nodes.db.fs && !c.request.Unmount? && !c.request.Rm? && !c.request.Mv?
    modifies s, s.nodes.db
    ensures s.Valid() && s.nodes.db.Nested()
    ensures Takes(old(s.nodes.db.fs), s.nodes.db.fs, SetupOf(s), c, id)
  {
    match c.request
    case Mkdir(drive, path) =>
      var out := s.Mkdir(drive, path, id, c.faults);
      r := Done(out);
    case Touch(drive, path) =>
      var out := s.Touch(drive, path, id, c.faults);
      r := Done(out);
    case Write(drive, path, data) =>
      var out := s.Write(drive, path, data, id, c.faults);
      r := Done(out);
    case WriteLarge(drive, path, obj, size) =>
      var out := s.WriteLarge(drive, path, obj, size, id, c.faults);
      r := Done(out);
    case Symlink(drive, target, path) =>
      var out := s.Symlink(drive, target, path, id, c.faults);
      r := Done(out);
    case Hardlink(drive, srcPath, path) =>
      var out := s.Hardlink(drive, srcPath, path, c.faults);
      r := Done(out);
    case Mount(drive, path, source) =>
      var out := s.Mount(drive, path, source, id, c.faults);
      r := Done(out);
  }

  method ServeRm(s: Service, c: Call, ghost id: Id) returns (r: Result<()>)
    requires s.Valid() && c.request.Rm?
    modifies s.nodes.db
    ensures s.Valid() && s.nodes.db.Nested()
    ensures r.Ok? || !s.nodes.db.open ==> Takes(old(s.nodes.db.fs), s.nodes.db.fs, SetupOf(s), c, id)
  {
    var q := c.request;
    var out := Remove.Rm(s, q.drive, q.paths, q.recursive, q.recorderFails, c.faults);
    r := Done(out);
  }

  // ---------------------------------------------------------------- runs

  /** One stage of a run: what the call does, and nothing else. */
  ghost predicate Stage(fs: FS, gs: FS, u: Setup, c: Call, id: Id) {
    id !in fs && Takes(fs, gs, u, c, id)
  }

  /** The states of a run: before the first call, and after each. */
  ghost predicate Trace(states: seq<FS>, ids: seq<Id>, calls: seq<Call>, u: Setup, n: nat) {
    n <= |calls| && |ids| == n && |states| == n + 1
    && forall j | 0 <= j < n :: Stage(states[j], states[j + 1], u, calls[j], ids[j])
  }

  lemma TraceExtends(states: seq<FS>, ids: seq<Id>, calls: seq<Call>, u: Setup, n: nat, gs: FS, id: Id)
    requires n < |calls| && Trace(states, ids, calls, u, n) && Stage(states[n], gs, u, calls[n], id)
    ensures Trace(states + [gs], ids + [id], calls, u, n + 1)
  {
    var more, further := states + [gs], ids + [id];
    forall j | 0 <= j < n + 1 ensures Stage(more[j], more[j + 1], u, calls[j], further[j]) {}
  }

  /** In every state of a run that starts consistent, directories, symlinks and mounts have
      one parent at most, roots none, and drives are disjoint; counts stay exact and
      directories acyclic as long as the requests respect the conditions. */
  lemma RunIsSafe(states: seq<FS>, ids: seq<Id>, calls: seq<Call>, u: Setup)
    requires Trace(states, ids, calls, u, |calls|) && Consistent(states[0], u.roots)
    ensures forall i | 0 <= i < |states| :: Consistent(states[i], u.roots)
    ensures Exact(states[0], u.roots)
            && (forall i | 0 <= i < |calls| :: Counted(states[i], u.roots, calls[i].request)) ==>
              forall i | 0 <= i < |states| :: Exact(states[i], u.roots)
    ensures Acyclic(states[0]) && (forall i | 0 <= i < |calls| :: Outward(states[i], u.roots, calls[i].request)) ==>
              forall i | 0 <= i < |states| :: Acyclic(states[i])
  {
    forall i | 0 <= i < |states| ensures Consistent(states[i], u.roots) {
      ConsistentAlong(states, ids, calls, u, i);
    }
    forall j | 0 <= j < |calls| ensures Preserves(states[j], states[j + 1], u.roots, calls[j].request) {
      ConsistentAlong(states, ids, calls, u, j);
      StageAt(states, ids, calls, u, j);
      TakesKeeps(states[j], states[j + 1], u, calls[j], ids[j]);
    }
    ExactAlong(states, calls, u.roots);
    AcyclicAlong(states, calls, u.roots);
  }

  lemma {:induction false} ConsistentAlong(states: seq<FS>, ids: seq<Id>, calls: seq<Call>, u: Setup, n: nat)
    requires n <= |calls| && Trace(states, ids, calls, u, |calls|) && Consistent(states[0], u.roots)
    ensures Consistent(states[n], u.roots)
    decreases n
  {
    if n > 0 {
      ConsistentAlong(states, ids, calls, u, n - 1);
      StageAt(states, ids, calls, u, n - 1);
      StaysConsistent(states[n - 1], states[n], u, calls[n - 1], ids[n - 1]);
    }
  }

  lemma StageAt(states: seq<FS>, ids: seq<Id>, calls: seq<Call>, u: Setup, j: nat)
    requires j < |calls| && Trace(states, ids, calls, u, |calls|)
    ensures Stage(states[j], states[j + 1], u, calls[j], ids[j])
  {
  }

  lemma StaysConsistent(fs: FS, gs: FS, u: Setup, c: Call, id: Id)
    requires Consistent(fs, u.roots) && Stage(fs, gs, u, c, id)
    ensures Consistent(gs, u.roots)
  {
    TakesKeeps(fs, gs, u, c, id);
  }

  lemma ExactAlong(states: seq<FS>, calls: seq<Call>, roots: map<DriveId, Id>)
    requires |states| == |calls| + 1
    requires forall j | 0 <= j < |calls| :: Preserves(states[j], states[j + 1], roots, calls[j].request)
    ensures Exact(states[0], roots) && (forall i | 0 <= i < |calls| :: Counted(states[i], roots, calls[i].request)) ==>
              forall i | 0 <= i < |states| :: Exact(states[i], roots)
  {
    if Exact(states[0], roots) && forall i | 0 <= i < |calls| :: Counted(states[i], roots, calls[i].request) {
      var n := 0;
      while n < |calls|
        invariant n <= |calls| && forall i | 0 <= i <= n :: Exact(states[i], roots)
      {
        assert Preserves(states[n], states[n + 1], roots, calls[n].request);
        n := n + 1;
      }
    }
  }

  lemma AcyclicAlong(states: seq<FS>, calls: seq<Call>, roots: map<DriveId, Id>)
    requires |states| == |calls| + 1
    requires forall j | 0 <= j < |calls| :: Preserves(states[j], states[j + 1], roots, calls[j].request)
    ensures Acyclic(states[0]) && (forall i | 0 <= i < |calls| :: Outward(states[i], roots, calls[i].request)) ==>
              forall i | 0 <= i < |states| :: Acyclic(states[i])
  {
    if Acyclic(states[0]) && forall i | 0 <= i < |calls| :: Outward(states[i], roots, calls[i].request) {
      var n := 0;
      while n < |calls|
        invariant n <= |calls| && forall i | 0 <= i <= n :: Acyclic(states[i])
      {
        assert Preserves(states[n], states[n + 1], roots, calls[n].request);
        n := n + 1;
      }
    }
  }

  /** Serves the calls in order, each in its own transaction. The service only ever makes
      runs, on the committed rows. */
  method Run(s: Service, calls: seq<Call>) returns (ghost states: seq<FS>, ghost ids: seq<Id>)
    requires s.Valid() && !s.nodes.db.open
    modifies s, s.nodes.db
    ensures s.Valid() && !s.nodes.db.open && Trace(states, ids, calls, SetupOf(s), |calls|)
    ensures states[0] == old(s.nodes.db.committed.fs) && states[|calls|] == s.nodes.db.committed.fs
  {
    states, ids := [s.nodes.db.fs], [];
    for i := 0 to |calls|
      invariant s.Valid() && !s.nodes.db.open && Trace(states, ids, calls, SetupOf(s), i)
      invariant states[0] == old(s.nodes.db.fs) && states[i] == s.nodes.db.fs
    {
      var _, id := Serve(s, calls[i]);
      TraceExtends(states, ids, calls, SetupOf(s), i, s.nodes.db.fs, id);
      states, ids := states + [s.nodes.db.fs], ids + [id];
    }
  }

  /** Serves the calls in one transaction, up to the first that fails. Every transaction of
      every call joins it, so either all calls are committed, as one run from the committed
      rows to the committed rows, or none is, with none of their tombstones. */
  method Transact(s: Service, calls: seq<Call>, f: Tx.Faults)
      returns (r: Result<()>, ghost states: seq<FS>, ghost ids: seq<Id>)
    requires s.Valid() && !s.nodes.db.open
    modifies s, s.nodes.db
    ensures s.Valid() && !s.nodes.db.open
    ensures r.Ok? ==> f.Calm() && Trace(states, ids, calls, SetupOf(s).(inTx := true), |calls|)
                      && states[0] == old(s.nodes.db.committed.fs) && states[|calls|] == s.nodes.db.committed.fs
    ensures r.Err? ==> s.nodes.db.committed == old(s.nodes.db.committed)
  {
    states, ids := [s.nodes.db.fs], [];
    ghost var owner := s.owner;
    var joined := s.nodes.db.Begin(f);
    if joined.Err? { return Err(joined.error), states, ids; }
    r, states, ids := ServeAll(s, calls);
    r := s.nodes.db.End(joined.value, r, f);
    if r.Err? { s.owner := owner; }
  }

  /** The callback of Transact. */
  method ServeAll(s: Service, calls: seq<Call>) returns (r: Result<()>, ghost states: seq<FS>, ghost ids: seq<Id>)
    requires s.Valid() && s.nodes.db.open
    modifies s, s.nodes.db
    ensures s.Valid() && s.nodes.db.Nested()
    ensures r.Ok? ==> Trace(states, ids, calls, SetupOf(s), |calls|)
                      && states[0] == old(s.nodes.db.fs) && states[|calls|] == s.nodes.db.fs
  {
    states, ids := [s.nodes.db.fs], [];
    for i := 0 to |calls|
      invariant s.Valid() && s.nodes.db.open && s.nodes.db.Nested() && Trace(states, ids, calls, SetupOf(s), i)
      invariant states[0] == old(s.nodes.db.fs) && states[i] == s.nodes.db.fs
    {
      var served, id := Serve(s, calls[i]);
      if served.Err? { return served, states, ids; }
      TraceExtends(states, ids, calls, SetupOf(s), i, s.nodes.db.fs, id);
      states, ids := states + [s.nodes.db.fs], ids + [id];
    }
    return Ok(()), states, ids;
  }
}

/** mvOne and mvBatch of internal/vfs/mv.go as functions of the store. */
module Batch {
  import opened Paths
  import opened Inodes
  import opened Graph
  import opened Moves
  import opened Walk
  import opened NodeOps
  import opened Removal

  /** The store, and the rows as the resolver's cached handles hold them. */
  datatype Tree = Tree(fs: FS, held: FS)

  /** A source of a move: the entry to move, and the inode its path resolves to. */
  datatype Source = Source(dir: Id, name: string, node: Id)

  predicate Ready(t: Tree, sp: Id, dp: Id) {
    sp in t.held && dp in t.held && t.held[dp].IsDir()
  }

  /** One MoveEntry through handles that may be older than the rows. */
  function Step(t: Tree, sp: Id, sn: string, dp: Id, dn: string): (r: Result<Tree>)
    requires Ready(t, sp, dp) && IsName(dn)
    ensures r.Ok? ==> r.value.held.Keys == t.held.Keys && r.value.held[dp].IsDir()
  {
    var src, dst := t.held[sp], t.held[dp];
    var e := MoveError(sp, src, sn, dp, dst, dn);
    if e.Some? then Err(e.value)
    else if AlreadyThere(sp, src, sn, dp, dst, dn) then Ok(t)
    else
      var v := View(t.fs, sp, src, dp, dst);
      var gs := MoveListings(v, sp, sn, dp, dn);
      Ok(Tree(MoveResult(v, sp, sn, dp, dn), t.held[sp := gs[sp]][dp := gs[dp]]))
  }

  /** captureOverwriteRef: whatever its link count, and whether or not it is overwritten. */
  function Captured(t: Tree, dp: Id, dn: string): seq<Ref>
    requires dp in t.held && t.held[dp].IsDir()
  {
    var e := Find(t.held[dp].content.entries, dn);
    if e.Some? && e.value.ino in t.fs then RefsOf(t.fs[e.value.ino]) else []
  }

  /** applyMoveEntry for every source, into one directory. */
  function Apply(t: Tree, srcs: seq<Source>, dp: Id): (r: Result<(Tree, seq<Ref>)>)
    requires forall s | s in srcs :: Ready(t, s.dir, dp) && IsName(s.name)
    requires dp in t.held && t.held[dp].IsDir()
    decreases |srcs|
  {
    if srcs == [] then Ok((t, []))
    else
      var s := srcs[0];
      var u := Step(t, s.dir, s.name, dp, s.name);
      if u.Err? then Err(u.error)
      else
        assert forall k | k in srcs[1..] :: k in srcs && Ready(t, k.dir, dp) && k.dir in u.value.held.Keys;
        var rest := Apply(u.value, srcs[1..], dp);
        if rest.Err? then rest else Ok((rest.value.0, Captured(t, dp, s.name) + rest.value.1))
  }

  /** The tree when the moves stop, at the end or at the first that is refused. */
  function Tried(t: Tree, srcs: seq<Source>, dp: Id): Tree
    requires forall s | s in srcs :: Ready(t, s.dir, dp) && IsName(s.name)
    decreases |srcs|
  {
    if srcs == [] then t
    else
      var u := Step(t, srcs[0].dir, srcs[0].name, dp, srcs[0].name);
      if u.Err? then t
      else
        assert forall k | k in srcs[1..] :: k in srcs && Ready(t, k.dir, dp) && k.dir in u.value.held.Keys;
        Tried(u.value, srcs[1..], dp)
  }

  lemma {:induction false} TriedIsApplied(t: Tree, srcs: seq<Source>, dp: Id)
    requires forall s | s in srcs :: Ready(t, s.dir, dp) && IsName(s.name)
    requires dp in t.held && t.held[dp].IsDir() && Apply(t, srcs, dp).Ok?
    ensures Tried(t, srcs, dp) == Apply(t, srcs, dp).value.0
    decreases |srcs|
  {
    if srcs != [] {
      var u := Step(t, srcs[0].dir, srcs[0].name, dp, srcs[0].name).value;
      forall k | k in srcs[1..] ensures Ready(u, k.dir, dp) { assert k in srcs && k.dir in u.held.Keys; }
      TriedIsApplied(u, srcs[1..], dp);
    }
  }

  /** The resolved sources of a batch, with no basename twice. */
  function Gather(fs: FS, root: Id, paths: seq<string>, seen: set<string>): (r: Result<seq<Source>>)
    ensures r.Ok? ==> forall s | s in r.value :: s.dir in fs && IsName(s.name) && s.name !in seen
    ensures r.Ok? ==> forall i, j | 0 <= i < j < |r.value| :: r.value[i].name != r.value[j].name
    ensures r.Ok? ==> |r.value| == |paths|
  {
    if paths == [] then Ok([])
    else
      var out := ResolvePath(fs, root, paths[0], true);
      if out.Err? then Err(out.error)
      else if out.value.rest != [] then Err(CrossDrive)
      else
        var at := ResolveParent(fs, root, paths[0]);
        if at.Err? then Err(at.error)
        else if at.value.1 in seen then Err(DuplicateBasename)
        else
          ParentInStore(fs, root, paths[0]);
          var rest := Gather(fs, root, paths[1..], seen + {at.value.1});
          if rest.Err? then rest else Ok([Source(at.value.0, at.value.1, out.value.ino)] + rest.value)
  }

  lemma ParentInStore(fs: FS, root: Id, p: string)
    requires ResolveParent(fs, root, p).Ok?
    ensures var at := ResolveParent(fs, root, p).value; at.0 in fs && IsName(at.1)
  {
    CompsAreNames(p);
    ResolvePlace(fs, root, ParentPath(p), true);
  }

  /** mvBatch */
  function MoveMany(fs: FS, root: Id, srcPaths: seq<string>, dstPath: string): Result<(Tree, seq<Ref>)> {
    var dst := ResolvePath(fs, root, dstPath, true);
    if dst.Err? then Err(dst.error)
    else if !(dst.value.ino in fs && fs[dst.value.ino].IsDir()) then Err(NotDirectory)
    else
      var srcs := Gather(fs, root, srcPaths, {});
      if srcs.Err? then Err(srcs.error)
      else if exists s :: s in srcs.value && s.node == dst.value.ino then Err(IntoItself)
      else Apply(Tree(fs, fs), srcs.value, dst.value.ino)
  }

  /** The store when mvBatch returns, with an error or without. */
  function MovedSoFar(fs: FS, root: Id, srcPaths: seq<string>, dstPath: string): FS {
    var dst, srcs := ResolvePath(fs, root, dstPath, true), Gather(fs, root, srcPaths, {});
    if dst.Err? || !(dst.value.ino in fs && fs[dst.value.ino].IsDir()) || srcs.Err?
       || exists s :: s in srcs.value && s.node == dst.value.ino
    then fs
    else Tried(Tree(fs, fs), srcs.value, dst.value.ino).fs
  }

  datatype Plan = Plan(sp: Id, sn: string, dp: Id, dn: string)

  /** The entry and the new place that mvOne settles on. */
  function MovePlan(fs: FS, root: Id, srcPath: string, dstPath: string): (r: Result<Plan>)
    ensures r.Ok? ==> r.value.sp in fs && IsName(r.value.sn)
                      && r.value.dp in fs && fs[r.value.dp].IsDir() && IsName(r.value.dn)
  {
    var out := ResolvePath(fs, root, srcPath, true);
    if out.Err? then Err(out.error)
    else if out.value.rest != [] then Err(CrossDrive)
    else
      var src, dst := ResolveParent(fs, root, srcPath), ResolveParent(fs, root, dstPath);
      if src.Err? then Err(src.error)
      else if dst.Err? then Err(dst.error)
      else if !(dst.value.0 in fs && fs[dst.value.0].IsDir()) then Err(NotDirectory)
      else
        ParentInStore(fs, root, srcPath);
        ParentInStore(fs, root, dstPath);
        Ok(Plan(src.value.0, src.value.1, dst.value.0, dst.value.1))
  }

  /** mvOne */
  function MoveOne(fs: FS, root: Id, srcPath: string, dstPath: string): Result<(Tree, seq<Ref>)> {
    var plan := MovePlan(fs, root, srcPath, dstPath);
    if plan.Err? then Err(plan.error)
    else
      var p := plan.value;
      var u := Step(Tree(fs, fs), p.sp, p.sn, p.dp, p.dn);
      if u.Err? then Err(u.error) else Ok((u.value, Captured(Tree(fs, fs), p.dp, p.dn)))
  }

  // ---------------------------------------------------------------- invariants through stale handles

  /** The store is a good tree v without some rows that no entry names; directory handles
      agree with v, so a deleted directory may still be held. */
  ghost predicate Overlay(t: Tree, v: FS, gone: set<Id>, roots: map<DriveId, Id>, owner: map<Id, DriveId>) {
    Inv(v, roots, owner) && Unnamed(v, roots, gone) && t.fs == v - gone
    && forall d | d in t.held && t.held[d].IsDir() :: d in v && t.held[d] == v[d]
  }

  lemma OverlayStart(fs: FS, roots: map<DriveId, Id>, owner: map<Id, DriveId>)
    requires Inv(fs, roots, owner)
    ensures Overlay(Tree(fs, fs), fs, {}, roots, owner)
  {
    assert fs - {} == fs;
  }

  lemma OverlayKeepsInv(t: Tree, v: FS, gone: set<Id>, roots: map<DriveId, Id>, owner: map<Id, DriveId>)
    requires Overlay(t, v, gone, roots, owner)
    ensures Inv(t.fs, roots, owner)
  {
    DropRowsKeepInv(v, roots, owner, gone);
  }

  /** What MoveEntry sees through the handles is the tree without rows nobody names. */
  lemma OverlayView(t: Tree, v: FS, gone: set<Id>, sp: Id, dp: Id)
    requires t.fs == v - gone && Ready(t, sp, dp) && sp in v && dp in v
    requires t.held[sp] == v[sp] && t.held[dp] == v[dp]
    ensures View(t.fs, sp, t.held[sp], dp, t.held[dp]) == v - (gone - {sp, dp})
  {
  }

  lemma OverlayEntries(t: Tree, v: FS, gone: set<Id>, roots: map<DriveId, Id>, dp: Id)
    requires WellFormed(v) && Unnamed(v, roots, gone) && t.fs == v - gone
    requires dp in t.held && dp in v && t.held[dp] == v[dp] && v[dp].IsDir()
    ensures forall e | e in t.held[dp].content.entries :: e.ino in t.fs
  {
    forall e | e in v[dp].content.entries ensures e.ino in t.fs {
      FindUnique(v[dp].content.entries, e);
      assert Link(dp, e.name, e.ino) in Links(v);
    }
  }

  lemma MoveListingsWithout(v: FS, g: set<Id>, sp: Id, sn: string, dp: Id, dn: string)
    requires Movable(v, sp, sn, dp, dn) && sp !in g && dp !in g
    ensures Movable(v - g, sp, sn, dp, dn)
    ensures MoveListings(v - g, sp, sn, dp, dn) == MoveListings(v, sp, sn, dp, dn) - g
  {
  }

  lemma StillUnnamed(v: FS, roots: map<DriveId, Id>, g: set<Id>, sp: Id, sn: string, dp: Id, dn: string)
    requires Movable(v, sp, sn, dp, dn) && Unnamed(v, roots, g)
    ensures Unnamed(MoveListings(v, sp, sn, dp, dn), roots, g)
  {
    assert HasLink(v, Link(sp, sn, Moved(v, sp, sn).ino));
    forall x, l | x in g && l in Links(MoveListings(v, sp, sn, dp, dn)) ensures l.ino != x {
      MoveLink(v, sp, sn, dp, dn, l);
    }
  }

  lemma ReleaseWithout(v: FS, g: set<Id>, o: Id)
    requires o in v && o !in g
    ensures v[o].nlink <= 1 ==> Release(v - g, o) == v - (g + {o})
    ensures v[o].nlink > 1 ==> Release(v - g, o) == Release(v, o) - g
  {
    if v[o].nlink <= 1 { assert v - g - {o} == v - (g + {o}); }
  }

  /** The same entries, and the same rows but for link counts. */
  ghost predicate SameTree(v: FS, v': FS) {
    Links(v) == Links(v') && v.Keys == v'.Keys && forall x | x in v :: v'[x].content == v[x].content
  }

  ghost predicate SameDirs(v: FS, v': FS) {
    forall d | d in v && v[d].IsDir() :: d in v' && v'[d] == v[d]
  }

  lemma SharedIsNoDir(v: FS, roots: map<DriveId, Id>, o: Id)
    requires CountsOk(v, roots) && o in v && !IsRoot(roots, o) && v[o].nlink > 1
    ensures SameDirs(v, Release(v, o))
  {
    assert CountOk(v[o], |To(Links(v), o)|);
  }

  lemma UnnamedAfterRelease(v: FS, roots: map<DriveId, Id>, g: set<Id>, o: Id)
    requires Unnamed(v, roots, g) && o in v
    ensures Unnamed(Release(v, o), roots, g) && (v[o].nlink > 1 ==> SameTree(v, Release(v, o)))
  {
    ReleaseLinks(v, o);
  }

  /** Releasing the overwritten inode, in the tree and in the store. */
  lemma OverlayRelease(v: FS, g: set<Id>, o: Id, roots: map<DriveId, Id>, owner: map<Id, DriveId>)
      returns (v': FS, gone: set<Id>)
    requires Inv(v, roots, owner) && Unnamed(v, roots, g)
    requires o in v && o !in g && !IsRoot(roots, o) && |To(Links(v), o)| < v[o].nlink
    ensures Inv(v', roots, owner) && Unnamed(v', roots, gone) && Release(v - g, o) == v' - gone && SameDirs(v, v')
    ensures SameTree(v, v')
  {
    ReleaseWithout(v, g, o);
    if v[o].nlink <= 1 {
      UncountedIsUnnamed(v, roots, o);
      v', gone := v, g + {o};
    } else {
      ReleaseKeepsInv(v, roots, owner, o);
      UnnamedAfterRelease(v, roots, g, o);
      SharedIsNoDir(v, roots, o);
      v', gone := Release(v, o), g;
    }
  }

  /** The invariant survives a MoveEntry through the handles. */
  lemma OverlayStep(t: Tree, v: FS, gone: set<Id>, roots: map<DriveId, Id>, owner: map<Id, DriveId>,
                    sp: Id, sn: string, dp: Id, dn: string) returns (v': FS, gone': set<Id>)
    requires Overlay(t, v, gone, roots, owner) && Ready(t, sp, dp) && IsName(dn)
    requires sp in owner && dp in owner && owner[sp] == owner[dp]
    requires Step(t, sp, sn, dp, dn).Ok?
    ensures Overlay(Step(t, sp, sn, dp, dn).value, v', gone', roots, owner)
  {
    if AlreadyThere(sp, t.held[sp], sn, dp, t.held[dp], dn) {
      v', gone' := v, gone;
    } else {
      v', gone' := OverlayMove(t, v, gone, roots, owner, sp, sn, dp, dn);
    }
  }

  /** The step, seen on the tree. */
  lemma StepMoves(t: Tree, v: FS, gone: set<Id>, roots: map<DriveId, Id>, sp: Id, sn: string, dp: Id, dn: string)
    requires t.fs == v - gone && Unnamed(v, roots, gone) && Ready(t, sp, dp) && IsName(dn)
    requires forall d | d in t.held && t.held[d].IsDir() :: d in v && t.held[d] == v[d]
    requires Step(t, sp, sn, dp, dn).Ok? && !AlreadyThere(sp, t.held[sp], sn, dp, t.held[dp], dn)
    ensures Movable(v, sp, sn, dp, dn)
    ensures var w, g, over := MoveListings(v, sp, sn, dp, dn), gone - {sp, dp}, Find(v[dp].content.entries, dn);
            (over.Some? ==> over.value.ino !in g)
            && Step(t, sp, sn, dp, dn).value ==
               Tree(if over.Some? && over.value.ino in w then Release(w - g, over.value.ino) else w - g,
                    t.held[sp := w[sp]][dp := w[dp]])
  {
    OverlayView(t, v, gone, sp, dp);
    assert Movable(v, sp, sn, dp, dn);
    MoveListingsWithout(v, gone - {sp, dp}, sp, sn, dp, dn);
    var over := Find(v[dp].content.entries, dn);
    if over.Some? { assert Link(dp, dn, over.value.ino) in Links(v); }
  }

  lemma HeldAfterMove(held: FS, v: FS, v': FS, sp: Id, sn: string, dp: Id, dn: string)
    requires Movable(v, sp, sn, dp, dn) && sp in held && dp in held
    requires forall d | d in held && held[d].IsDir() :: d in v && held[d] == v[d]
    requires SameDirs(MoveListings(v, sp, sn, dp, dn), v')
    ensures var w := MoveListings(v, sp, sn, dp, dn);
            var held' := held[sp := w[sp]][dp := w[dp]];
            forall d | d in held' && held'[d].IsDir() :: d in v' && held'[d] == v'[d]
  {
    var w := MoveListings(v, sp, sn, dp, dn);
    var held' := held[sp := w[sp]][dp := w[dp]];
    forall d | d in held' && held'[d].IsDir() ensures d in w && held'[d] == w[d] {}
  }

  lemma OverlayMove(t: Tree, v: FS, gone: set<Id>, roots: map<DriveId, Id>, owner: map<Id, DriveId>,
                    sp: Id, sn: string, dp: Id, dn: string) returns (v': FS, gone': set<Id>)
    requires Overlay(t, v, gone, roots, owner) && Ready(t, sp, dp) && IsName(dn)
    requires sp in owner && dp in owner && owner[sp] == owner[dp]
    requires Step(t, sp, sn, dp, dn).Ok? && !AlreadyThere(sp, t.held[sp], sn, dp, t.held[dp], dn)
    ensures Overlay(Step(t, sp, sn, dp, dn).value, v', gone', roots, owner)
    ensures Movable(v, sp, sn, dp, dn) && SameTree(MoveListings(v, sp, sn, dp, dn), v')
  {
    StepMoves(t, v, gone, roots, sp, sn, dp, dn);
    MoveListingsKeepInv(v, roots, owner, sp, sn, dp, dn);
    v', gone' := ReleaseIfOver(v, gone - {sp, dp}, roots, owner, sp, sn, dp, dn);
    HeldAfterMove(t.held, v, v', sp, sn, dp, dn);
  }

  lemma ReleaseIfOver(v: FS, g: set<Id>, roots: map<DriveId, Id>, owner: map<Id, DriveId>,
                      sp: Id, sn: string, dp: Id, dn: string) returns (v': FS, gone: set<Id>)
    requires Inv(v, roots, owner) && Movable(v, sp, sn, dp, dn) && Inv(MoveListings(v, sp, sn, dp, dn), roots, owner)
    requires Unnamed(v, roots, g) && var over := Find(v[dp].content.entries, dn); over.Some? ==> over.value.ino !in g
    ensures Inv(v', roots, owner) && Unnamed(v', roots, gone) && SameDirs(MoveListings(v, sp, sn, dp, dn), v')
    ensures SameTree(MoveListings(v, sp, sn, dp, dn), v')
    ensures var w, over := MoveListings(v, sp, sn, dp, dn), Find(v[dp].content.entries, dn);
            v' - gone == if over.Some? && over.value.ino in w then Release(w - g, over.value.ino) else w - g
  {
    StillUnnamed(v, roots, g, sp, sn, dp, dn);
    var w, over := MoveListings(v, sp, sn, dp, dn), Find(v[dp].content.entries, dn);
    if over.Some? {
      MoveOverwritten(v, roots, owner, sp, sn, dp, dn);
      v', gone := OverlayRelease(w, g, over.value.ino, roots, owner);
    } else {
      v', gone := w, g;
    }
  }

  /** Both ends of a move were reached from one drive's root. */
  lemma PlanOwners(fs: FS, roots: map<DriveId, Id>, owner: map<Id, DriveId>, d: DriveId, srcPath: string,
                   dstPath: string)
    requires Inv(fs, roots, owner) && d in roots && MovePlan(fs, roots[d], srcPath, dstPath).Ok?
    ensures var p := MovePlan(fs, roots[d], srcPath, dstPath).value;
            p.sp in owner && p.dp in owner && owner[p.sp] == d && owner[p.dp] == d
  {
    ParentOwner(fs, roots, owner, d, srcPath);
    ParentOwner(fs, roots, owner, d, dstPath);
  }

  lemma ParentOwner(fs: FS, roots: map<DriveId, Id>, owner: map<Id, DriveId>, d: DriveId, path: string)
    requires Inv(fs, roots, owner) && d in roots && ResolveParent(fs, roots[d], path).Ok?
    ensures var x := ResolveParent(fs, roots[d], path).value.0; x in owner && owner[x] == d
  {
    ResolvePlace(fs, roots[d], ParentPath(path), true);
    AtOwner(fs, roots, owner, d, ResolvePath(fs, roots[d], ParentPath(path), true).value.place);
  }

  /** The invariant after mvOne, whatever it moved. */
  lemma MoveOneKeepsInv(fs: FS, roots: map<DriveId, Id>, owner: map<Id, DriveId>, d: DriveId, srcPath: string,
                        dstPath: string)
    requires Inv(fs, roots, owner) && d in roots
    ensures var r := MoveOne(fs, roots[d], srcPath, dstPath); r.Ok? ==> Inv(r.value.0.fs, roots, owner)
  {
    var plan := MovePlan(fs, roots[d], srcPath, dstPath);
    if plan.Ok? {
      var p := plan.value;
      PlanOwners(fs, roots, owner, d, srcPath, dstPath);
      OverlayStart(fs, roots, owner);
      if Step(Tree(fs, fs), p.sp, p.sn, p.dp, p.dn).Ok? {
        var v, gone := OverlayStep(Tree(fs, fs), fs, {}, roots, owner, p.sp, p.sn, p.dp, p.dn);
        OverlayKeepsInv(Step(Tree(fs, fs), p.sp, p.sn, p.dp, p.dn).value, v, gone, roots, owner);
      }
    }
  }

  lemma {:induction false} ApplyKeepsInv(t: Tree, v: FS, gone: set<Id>, roots: map<DriveId, Id>,
                                         owner: map<Id, DriveId>, srcs: seq<Source>, dp: Id)
    requires Overlay(t, v, gone, roots, owner) && dp in t.held && t.held[dp].IsDir() && dp in owner
    requires forall s | s in srcs ::
               Ready(t, s.dir, dp) && IsName(s.name) && s.dir in owner && owner[s.dir] == owner[dp]
    requires Apply(t, srcs, dp).Ok?
    ensures Inv(Apply(t, srcs, dp).value.0.fs, roots, owner)
    decreases |srcs|
  {
    if srcs == [] {
      OverlayKeepsInv(t, v, gone, roots, owner);
    } else {
      var s := srcs[0];
      var u := Step(t, s.dir, s.name, dp, s.name).value;
      var v', gone' := OverlayStep(t, v, gone, roots, owner, s.dir, s.name, dp, s.name);
      forall k | k in srcs[1..]
        ensures Ready(u, k.dir, dp) && IsName(k.name) && k.dir in owner && owner[k.dir] == owner[dp] {
        assert k in srcs && k.dir in u.held.Keys;
      }
      ApplyKeepsInv(u, v', gone', roots, owner, srcs[1..], dp);
    }
  }

  /** The invariant after mvBatch, whatever it moved, through handles however old. */
  lemma MoveManyKeepsInv(fs: FS, roots: map<DriveId, Id>, owner: map<Id, DriveId>, d: DriveId, srcPaths: seq<string>,
                         dstPath: string)
    requires Inv(fs, roots, owner) && d in roots
    ensures var r := MoveMany(fs, roots[d], srcPaths, dstPath); r.Ok? ==> Inv(r.value.0.fs, roots, owner)
  {
    if MoveMany(fs, roots[d], srcPaths, dstPath).Ok? {
      var dst := ResolvePath(fs, roots[d], dstPath, true).value;
      ResolvePlace(fs, roots[d], dstPath, true);
      AtOwner(fs, roots, owner, d, dst.place);
      GatherOwners(fs, roots, owner, d, srcPaths, {});
      OverlayStart(fs, roots, owner);
      ApplyKeepsInv(Tree(fs, fs), fs, {}, roots, owner, Gather(fs, roots[d], srcPaths, {}).value, dst.ino);
    }
  }

  lemma {:induction false} GatherOwners(fs: FS, roots: map<DriveId, Id>, owner: map<Id, DriveId>, d: DriveId,
                                        paths: seq<string>, seen: set<string>)
    requires Inv(fs, roots, owner) && d in roots
    ensures var r := Gather(fs, roots[d], paths, seen);
            r.Ok? ==> forall k | k in r.value :: k.dir in owner && owner[k.dir] == d
    decreases |paths|
  {
    if paths != [] {
      var at := ResolveParent(fs, roots[d], paths[0]);
      if at.Ok? {
        ParentOwner(fs, roots, owner, d, paths[0]);
        GatherOwners(fs, roots, owner, d, paths[1..], seen + {at.value.1});
      }
    }
  }

  /** Mv without its transaction: same-drive moves only, one source or several. */
  function MoveSpec(fs: FS, roots: map<DriveId, Id>, srcDrive: DriveId, srcPaths: seq<string>, dstDrive: DriveId,
                    dstPath: string)
      : Result<(Tree, seq<Ref>)> {
    if srcDrive != dstDrive then Err(CrossDrive)
    else if srcDrive !in roots then Err(NotFound)
    else if |srcPaths| == 1 then MoveOne(fs, roots[srcDrive], srcPaths[0], dstPath)
    else MoveMany(fs, roots[srcDrive], srcPaths, dstPath)
  }

  lemma MoveSpecKeepsInv(fs: FS, roots: map<DriveId, Id>, owner: map<Id, DriveId>,
                         srcDrive: DriveId, srcPaths: seq<string>, dstDrive: DriveId, dstPath: string)
    requires Inv(fs, roots, owner)
    ensures var r := MoveSpec(fs, roots, srcDrive, srcPaths, dstDrive, dstPath); r.Ok? ==>
              Inv(r.value.0.fs, roots, owner)
  {
    if srcDrive in roots {
      if |srcPaths| == 1 {
        MoveOneKeepsInv(fs, roots, owner, srcDrive, srcPaths[0], dstPath);
      } else {
        MoveManyKeepsInv(fs, roots, owner, srcDrive, srcPaths, dstPath);
      }
    }
  }
}

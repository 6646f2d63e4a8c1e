/** internal/vfs/mv.go */
module Move {
  import opened Paths
  import opened Inodes
  import opened Graph
  import opened Moves
  import opened Walk
  import opened NodeOps
  import opened Transactions
  import opened Resolvers
  import opened Removal
  import opened Vfs
  import opened Batch
  import MoveFacts

  /** A handle, as the tree has it held. */
  ghost predicate HeldAs(t: Tree, h: Handle)
    reads h
  {
    h.id in t.held && t.held[h.id] == h.inode
  }

  method CaptureOverwriteRef(s: Service, dstParent: Handle, dstName: string) returns (r: Option<Ref>)
    requires dstParent.inode.IsDir()
    ensures var e := Find(dstParent.inode.content.entries, dstName);
            (if r.Some? then [r.value] else []) ==
            if e.Some? && e.value.ino in s.nodes.db.fs then RefsOf(s.nodes.db.fs[e.value.ino]) else []
  {
    var existing := Find(dstParent.inode.content.entries, dstName);
    if existing.None? { return None; }
    var child := s.nodes.GetByID(existing.value.ino);
    if child.Err? || !child.value.inode.content.Object? { return None; }
    var oc := child.value.inode.content.obj;
    if oc.bucket == "" || oc.key == "" { return None; }
    return Some(oc);
  }

  /** One move, inside the transaction of Mv. */
  method ApplyMoveEntry(s: Service, srcParent: Handle, srcName: string, dstParent: Handle, dstName: string, f: Faults,
                        ghost t: Tree)
      returns (r: Result<seq<Ref>>)
    requires s.nodes.db.Valid() && s.nodes.db.open && (srcParent.id == dstParent.id ==> srcParent == dstParent)
    requires t.fs == s.nodes.db.fs && HeldAs(t, srcParent) && HeldAs(t, dstParent)
    requires dstParent.inode.IsDir() && IsName(dstName)
    requires forall e | e in dstParent.inode.content.entries :: e.ino in s.nodes.db.fs
    modifies s.nodes.db, srcParent, dstParent
    ensures s.Quiet()
    ensures match Step(t, srcParent.id, srcName, dstParent.id, dstName)
            case Err(e) =>
              r == Err(e) && s.nodes.db.fs == old(s.nodes.db.fs)
              && srcParent.inode == old(srcParent.inode) && dstParent.inode == old(dstParent.inode)
            case Ok(u) =>
              r == Ok(Captured(t, dstParent.id, dstName)) && s.nodes.db.fs == u.fs && HeldAs(u, srcParent)
              && HeldAs(u, dstParent)
  {
    var overwriteRef := CaptureOverwriteRef(s, dstParent, dstName);
    var moved := s.nodes.MoveEntry(srcParent, srcName, dstParent, dstName, f);
    if moved.Err? { return Err(moved.error); }
    if overwriteRef.Some? { return Ok([overwriteRef.value]); }
    return Ok([]);
  }

  // ---------------------------------------------------------------- one source

  ghost predicate PlanHandles(fs: FS, plan: Result<Plan>, r: Result<(Handle, string, Handle, string)>)
    reads if r.Ok? then {r.value.0, r.value.2} else {}
  {
    match plan
    case Err(e) => r == Err(e)
    case Ok(p) =>
      r.Ok? && Loaded(fs, p.sp, r.value.0) && r.value.1 == p.sn && Loaded(fs, p.dp, r.value.2) && r.value.3 == p.dn
      && (p.sp == p.dp ==> r.value.0 == r.value.2)
  }

  method MvOneEnds(s: Service, rootID: Id, srcPath: string, dstPath: string)
      returns (r: Result<(Handle, string, Handle, string)>)
    ensures PlanHandles(s.nodes.db.fs, MovePlan(s.nodes.db.fs, rootID, srcPath, dstPath), r)
    ensures r.Ok? ==> fresh(r.value.0) && fresh(r.value.2)
  {
    var resolver := new Resolver(s.nodes);
    ResolveNames(s.nodes.db.fs, rootID, srcPath, true);
    var srcOut := resolver.ResolvePath(rootID, srcPath, true);
    if srcOut.Err? { return Err(srcOut.error); }
    if srcOut.value.1 != "" { return Err(CrossDrive); }
    var src := resolver.ResolveParent(rootID, srcPath);
    if src.Err? { return Err(src.error); }
    var dst := resolver.ResolveParent(rootID, dstPath);
    if dst.Err? { return Err(dst.error); }
    if !dst.value.0.inode.IsDir() { return Err(NotDirectory); }
    return Ok((src.value.0, src.value.1, dst.value.0, dst.value.1));
  }

  method MvOne(s: Service, drive: DriveId, srcPath: string, dstPath: string, f: Faults) returns (r: Result<seq<Ref>>)
    requires s.Valid() && s.nodes.db.open
    modifies s.nodes.db
    ensures s.Valid() && s.Quiet()
    ensures Outcome(old(s.nodes.db.fs), s.nodes.db.fs,
                    if drive in s.roots then MoveOne(old(s.nodes.db.fs), s.roots[drive], srcPath, dstPath)
                        else Err(NotFound), r)
  {
    var rootID := s.GetRootNodeID(drive);
    if rootID.Err? { return Err(rootID.error); }
    ghost var fs := s.nodes.db.fs;
    MoveOneKeepsInv(fs, s.roots, s.owner, drive, srcPath, dstPath);
    var ends := MvOneEnds(s, rootID.value, srcPath, dstPath);
    if ends.Err? { return Err(ends.error); }
    var (srcParent, srcName, dstParent, dstName) := ends.value;
    r := ApplyMoveEntry(s, srcParent, srcName, dstParent, dstName, f, Tree(fs, fs));
  }

  ghost predicate Outcome(fs: FS, gs: FS, spec: Result<(Tree, seq<Ref>)>, r: Result<seq<Ref>>) {
    match spec
    case Err(e) => r == Err(e) && gs == fs
    case Ok(x) => r == Ok(x.1) && gs == x.0.fs
  }

  // ---------------------------------------------------------------- several sources

  datatype SrcInfo = SrcInfo(node: Handle, baseName: string, srcParent: Handle, srcName: string) {
    function Source(): Source { Batch.Source(srcParent.id, srcName, node.id) }
  }

  function Sources(infos: seq<SrcInfo>): (r: seq<Source>)
    ensures |r| == |infos| && forall i | 0 <= i < |r| :: r[i] == infos[i].Source()
  {
    seq(|infos|, i requires 0 <= i < |infos| => infos[i].Source())
  }

  /** What is left of a computation whose first results are known. */
  ghost function Prepend(done: seq<Source>, r: Result<seq<Source>>): Result<seq<Source>> {
    if r.Err? then r else Ok(done + r.value)
  }

  ghost predicate FromCache(cache: map<Id, Handle>, infos: seq<SrcInfo>) {
    forall k | k in infos :: k.baseName == k.srcName && k.srcParent.id in cache && cache[k.srcParent.id] == k.srcParent
  }

  method GatherSources(s: Service, resolver: Resolver, rootID: Id, srcPaths: seq<string>)
      returns (r: Result<seq<SrcInfo>>)
    requires resolver.client == s.nodes && resolver.Coherent()
    modifies resolver
    ensures resolver.Coherent() && resolver.Grew()
    ensures match Gather(s.nodes.db.fs, rootID, srcPaths, {})
            case Err(e) => r == Err(e)
            case Ok(srcs) => r.Ok? && Sources(r.value) == srcs && FromCache(resolver.cache, r.value)
  {
    ghost var fs, goal := s.nodes.db.fs, Gather(s.nodes.db.fs, rootID, srcPaths, {});
    var sources: seq<SrcInfo> := [];
    var seen: set<string> := {};
    assert srcPaths[0..] == srcPaths;
    PrependNothing(goal);
    for i := 0 to |srcPaths|
      invariant resolver.Coherent() && resolver.Grew()
      invariant FromCache(resolver.cache, sources)
      invariant Prepend(Sources(sources), Gather(fs, rootID, srcPaths[i..], seen)) == goal
    {
      var one := GatherSource(s, resolver, rootID, srcPaths[i], seen);
      GatherAdvances(fs, rootID, srcPaths, i, seen, sources, one, goal);
      if one.Err? { return Err(one.error); }
      seen := seen + {one.value.srcName};
      sources := sources + [one.value];
    }
    assert srcPaths[|srcPaths|..] == [];
    return Ok(sources);
  }

  lemma PrependNothing(r: Result<seq<Source>>)
    ensures Prepend(Sources([]), r) == r
  {
    if r.Ok? { assert Sources([]) + r.value == r.value; }
  }

  /** One source of the batch: the head of Gather. */
  ghost function Head(fs: FS, root: Id, path: string, seen: set<string>): Result<Source> {
    var out, at := ResolvePath(fs, root, path, true), ResolveParent(fs, root, path);
    if out.Err? then Err(out.error)
    else if out.value.rest != [] then Err(CrossDrive)
    else if at.Err? then Err(at.error)
    else if at.value.1 in seen then Err(DuplicateBasename)
    else Ok(Source(at.value.0, at.value.1, out.value.ino))
  }

  ghost predicate IsHead(r: Result<SrcInfo>, spec: Result<Source>, cache: map<Id, Handle>) {
    match spec
    case Err(e) => r == Err(e)
    case Ok(src) => r.Ok? && r.value.Source() == src && FromCache(cache, [r.value])
  }

  lemma GatherHead(fs: FS, root: Id, paths: seq<string>, seen: set<string>)
    requires paths != []
    ensures Gather(fs, root, paths, seen) ==
            var h := Head(fs, root, paths[0], seen);
            if h.Err? then Err(h.error) else Prepend([h.value], Gather(fs, root, paths[1..], seen + {h.value.name}))
  {
  }

  lemma PrependTwice(done: seq<SrcInfo>, one: SrcInfo, r: Result<seq<Source>>)
    ensures Prepend(Sources(done), Prepend([one.Source()], r)) == Prepend(Sources(done + [one]), r)
  {
    if r.Ok? {
      assert Sources(done + [one]) + r.value == Sources(done) + ([one.Source()] + r.value);
    }
  }

  lemma GatherAdvances(fs: FS, root: Id, paths: seq<string>, i: nat, seen: set<string>, done: seq<SrcInfo>,
                       one: Result<SrcInfo>, goal: Result<seq<Source>>)
    requires i < |paths| && Prepend(Sources(done), Gather(fs, root, paths[i..], seen)) == goal
    requires match Head(fs, root, paths[i], seen)
             case Err(e) => one == Err(e)
             case Ok(src) => one.Ok? && one.value.Source() == src
    ensures one.Err? ==> goal == Err(one.error)
    ensures one.Ok? ==>
              Prepend(Sources(done + [one.value]), Gather(fs, root, paths[i + 1..], seen + {one.value.srcName})) == goal
  {
    assert paths[i..][0] == paths[i] && paths[i..][1..] == paths[i + 1..];
    GatherHead(fs, root, paths[i..], seen);
    if one.Ok? {
      PrependTwice(done, one.value, Gather(fs, root, paths[i + 1..], seen + {one.value.srcName}));
    }
  }

  method GatherSource(s: Service, resolver: Resolver, rootID: Id, srcPath: string, seen: set<string>)
      returns (r: Result<SrcInfo>)
    requires resolver.client == s.nodes && resolver.Coherent()
    modifies resolver
    ensures resolver.Coherent() && resolver.Grew()
    ensures IsHead(r, Head(s.nodes.db.fs, rootID, srcPath, seen), resolver.cache)
  {
    ResolveNames(s.nodes.db.fs, rootID, srcPath, true);
    var srcOut := resolver.ResolvePath(rootID, srcPath, true);
    if srcOut.Err? { return Err(srcOut.error); }
    if srcOut.value.1 != "" { return Err(CrossDrive); }
    var at := resolver.ResolveParent(rootID, srcPath);
    if at.Err? { return Err(at.error); }
    var (sp, sn) := at.value;
    if sn in seen { return Err(DuplicateBasename); }
    return Ok(SrcInfo(srcOut.value.0, sn, sp, sn));
  }

  /** Every cached handle is held in the tree as it is. */
  ghost predicate CacheHeld(cache: map<Id, Handle>, t: Tree)
    reads cache.Values
  {
    forall id | id in cache :: cache[id].id == id && HeldAs(t, cache[id])
  }

  ghost predicate SourcesReady(t: Tree, srcs: seq<Source>, dp: Id, owner: map<Id, DriveId>) {
    dp in t.held && t.held[dp].IsDir() && dp in owner
    && forall k | k in srcs :: k.dir in t.held && IsName(k.name) && k.dir in owner && owner[k.dir] == owner[dp]
  }

  lemma ReadyToApply(t: Tree, srcs: seq<Source>, dp: Id, owner: map<Id, DriveId>)
    requires SourcesReady(t, srcs, dp, owner)
    ensures forall k | k in srcs :: Ready(t, k.dir, dp) && IsName(k.name)
  {
  }

  /** The moves still to do, after those that gave refs. */
  ghost predicate Remaining(t: Tree, srcs: seq<Source>, dp: Id, owner: map<Id, DriveId>, refs: seq<Ref>,
                            goal: Result<(Tree, seq<Ref>)>, stop: Tree) {
    SourcesReady(t, srcs, dp, owner)
    && (ReadyToApply(t, srcs, dp, owner);
        var rest := Apply(t, srcs, dp);
        stop == Tried(t, srcs, dp)
        && goal == if rest.Err? then Err(rest.error) else Ok((rest.value.0, refs + rest.value.1)))
  }

  /** The result of Apply, and the store it has come to. */
  ghost predicate Applied(t: Tree, srcs: seq<Source>, dp: Id, owner: map<Id, DriveId>, gs: FS, r: Result<seq<Ref>>)
    requires SourcesReady(t, srcs, dp, owner)
  {
    ReadyToApply(t, srcs, dp, owner);
    gs == Tried(t, srcs, dp).fs
    && match Apply(t, srcs, dp)
       case Err(e) => r == Err(e)
       case Ok(x) => r == Ok(x.1)
  }

  lemma RemainingStarts(t: Tree, srcs: seq<Source>, dp: Id, owner: map<Id, DriveId>)
    requires SourcesReady(t, srcs, dp, owner)
    ensures forall k | k in srcs :: Ready(t, k.dir, dp) && IsName(k.name)
    ensures Remaining(t, srcs, dp, owner, [], Apply(t, srcs, dp), Tried(t, srcs, dp))
  {
    var rest := Apply(t, srcs, dp);
    if rest.Ok? { assert [] + rest.value.1 == rest.value.1; }
  }

  lemma RemainingEnds(t: Tree, dp: Id, owner: map<Id, DriveId>, refs: seq<Ref>, goal: Result<(Tree, seq<Ref>)>,
                      stop: Tree)
    requires Remaining(t, [], dp, owner, refs, goal, stop)
    ensures goal == Ok((t, refs)) && stop == t
  {
    assert refs + [] == refs;
  }

  lemma RemainingNext(t: Tree, srcs: seq<Source>, dp: Id, owner: map<Id, DriveId>, refs: seq<Ref>,
                      goal: Result<(Tree, seq<Ref>)>, stop: Tree)
    requires srcs != [] && Remaining(t, srcs, dp, owner, refs, goal, stop)
    ensures Ready(t, srcs[0].dir, dp) && IsName(srcs[0].name)
    ensures var u := Step(t, srcs[0].dir, srcs[0].name, dp, srcs[0].name);
            match u
            case Err(e) => goal == Err(e) && stop == t
            case Ok(u) => Remaining(u, srcs[1..], dp, owner, refs + Captured(t, dp, srcs[0].name), goal, stop)
  {
    ReadyToApply(t, srcs, dp, owner);
    var k := srcs[0];
    assert k in srcs;
    var u := Step(t, k.dir, k.name, dp, k.name);
    if u.Ok? {
      forall j | j in srcs[1..] ensures j in srcs && j.dir in u.value.held {
        assert j in srcs && j.dir in u.value.held.Keys;
      }
      var rest := Apply(u.value, srcs[1..], dp);
      if rest.Ok? {
        assert refs + (Captured(t, dp, k.name) + rest.value.1) == refs + Captured(t, dp, k.name) + rest.value.1;
      }
    }
  }

  lemma StepHeldElsewhere(t: Tree, sp: Id, sn: string, dp: Id, dn: string, id: Id)
    requires Ready(t, sp, dp) && IsName(dn) && Step(t, sp, sn, dp, dn).Ok?
    requires id in t.held && id != sp && id != dp
    ensures id in Step(t, sp, sn, dp, dn).value.held && Step(t, sp, sn, dp, dn).value.held[id] == t.held[id]
  {
  }

  /** One turn of the loop over the sources. */
  method MoveSource(s: Service, si: SrcInfo, dstDir: Handle, f: Faults, ghost cache: map<Id, Handle>, ghost t: Tree)
      returns (r: Result<seq<Ref>>)
    requires s.nodes.db.Valid() && s.nodes.db.open
    requires FromCache(cache, [si]) && CacheHeld(cache, t) && dstDir.id in cache && cache[dstDir.id] == dstDir
    requires t.fs == s.nodes.db.fs && Ready(t, si.srcParent.id, dstDir.id) && IsName(si.srcName)
    requires forall e | e in dstDir.inode.content.entries :: e.ino in s.nodes.db.fs
    modifies s.nodes.db, cache.Values
    ensures s.Quiet()
    ensures match Step(t, si.srcParent.id, si.srcName, dstDir.id, si.srcName)
            case Err(e) => r == Err(e) && s.nodes.db.fs == old(s.nodes.db.fs)
            case Ok(u) => r == Ok(Captured(t, dstDir.id, si.srcName)) && s.nodes.db.fs == u.fs && CacheHeld(cache, u)
  {
    assert si in [si];
    ghost var sp, dp := si.srcParent.id, dstDir.id;
    r := ApplyMoveEntry(s, si.srcParent, si.srcName, dstDir, si.baseName, f, t);
    ghost var step := Step(t, sp, si.srcName, dp, si.srcName);
    if step.Ok? {
      forall id | id in cache ensures cache[id].id == id && HeldAs(step.value, cache[id]) {
        if id != sp && id != dp {
          assert cache[id] != si.srcParent && cache[id] != dstDir;
          StepHeldElsewhere(t, sp, si.srcName, dp, si.srcName, id);
        }
      }
    }
  }

  /** The loop over the resolved sources. All handles come from one resolver, so handles
      of one inode are one object. */
  method MoveSources(s: Service, sources: seq<SrcInfo>, dstDir: Handle, f: Faults, ghost cache: map<Id, Handle>,
                     ghost t0: Tree)
      returns (r: Result<seq<Ref>>)
    requires s.Valid() && s.nodes.db.open && t0 == Tree(s.nodes.db.fs, s.nodes.db.fs)
    requires FromCache(cache, sources) && CacheHeld(cache, t0) && dstDir.id in cache && cache[dstDir.id] == dstDir
    requires SourcesReady(t0, Sources(sources), dstDir.id, s.owner)
    modifies s.nodes.db, cache.Values
    ensures s.Valid() && s.Quiet()
    ensures Applied(t0, Sources(sources), dstDir.id, s.owner, s.nodes.db.fs, r)
  {
    ghost var srcs, dp := Sources(sources), dstDir.id;
    ghost var t, v, gone: set<Id> := t0, s.nodes.db.fs, {};
    RemainingStarts(t, srcs, dp, s.owner);
    ghost var goal, stop := Apply(t, srcs, dp), Tried(t, srcs, dp);
    OverlayStart(s.nodes.db.fs, s.roots, s.owner);
    assert srcs[0..] == srcs;
    var overwriteRefs: seq<Ref> := [];
    for i := 0 to |sources|
      invariant s.nodes.db.open && s.Quiet()
      invariant Overlay(t, v, gone, s.roots, s.owner) && t.fs == s.nodes.db.fs && CacheHeld(cache, t)
      invariant Remaining(t, srcs[i..], dp, s.owner, overwriteRefs, goal, stop)
    {
      var si := sources[i];
      assert srcs[i..][0] == si.Source() && srcs[i..][1..] == srcs[i + 1..];
      RemainingNext(t, srcs[i..], dp, s.owner, overwriteRefs, goal, stop);
      OverlayEntries(t, v, gone, s.roots, dp);
      var refs := MoveSource(s, si, dstDir, f, cache, t);
      if refs.Err? {
        OverlayKeepsInv(t, v, gone, s.roots, s.owner);
        return Err(refs.error);
      }
      ghost var u := Step(t, si.srcParent.id, si.srcName, dp, si.srcName).value;
      v, gone := OverlayStep(t, v, gone, s.roots, s.owner, si.srcParent.id, si.srcName, dp, si.srcName);
      t := u;
      overwriteRefs := overwriteRefs + refs.value;
    }
    assert srcs[|sources|..] == [];
    RemainingEnds(t, dp, s.owner, overwriteRefs, goal, stop);
    OverlayKeepsInv(t, v, gone, s.roots, s.owner);
    return Ok(overwriteRefs);
  }

  /** On an error the moves before it stay, for the transaction around them to undo. */
  method MvBatch(s: Service, drive: DriveId, srcPaths: seq<string>, dstPath: string, f: Faults)
      returns (r: Result<seq<Ref>>)
    requires s.Valid() && s.nodes.db.open
    modifies s.nodes.db
    ensures s.Valid() && s.Quiet()
    ensures if drive in s.roots
            then BatchOutcome(old(s.nodes.db.fs), s.nodes.db.fs, s.roots[drive], srcPaths, dstPath, r)
            else r == Err(NotFound) && s.nodes.db.fs == old(s.nodes.db.fs)
  {
    var rootID := s.GetRootNodeID(drive);
    if rootID.Err? { return Err(rootID.error); }
    ghost var fs := s.nodes.db.fs;
    var ends, cache := MvBatchEnds(s, rootID.value, srcPaths, dstPath);
    if ends.Err? { return Err(ends.error); }
    var (dstDir, sources) := ends.value;
    BatchReady(fs, s.roots, s.owner, drive, srcPaths, dstPath);
    r := MoveSources(s, sources, dstDir, f, cache, Tree(fs, fs));
    AppliedIsOutcome(fs, s.nodes.db.fs, rootID.value, srcPaths, dstPath, Sources(sources), dstDir.id, s.owner, r);
  }

  /** The destination and the sources, checked, in handles of one resolver. */
  method MvBatchEnds(s: Service, rootID: Id, srcPaths: seq<string>, dstPath: string)
      returns (r: Result<(Handle, seq<SrcInfo>)>, ghost cache: map<Id, Handle>)
    ensures fresh(cache.Values)
    ensures r.Err? ==> BatchOutcome(s.nodes.db.fs, s.nodes.db.fs, rootID, srcPaths, dstPath, Err(r.error))
    ensures r.Ok? ==>
              BatchStarts(s.nodes.db.fs, rootID, srcPaths, dstPath, Sources(r.value.1), r.value.0.id)
              && FromCache(cache, r.value.1) && r.value.0.id in cache && cache[r.value.0.id] == r.value.0
              && CacheHeld(cache, Tree(s.nodes.db.fs, s.nodes.db.fs))
  {
    var resolver := new Resolver(s.nodes);
    cache := map[];
    var dstOut := resolver.ResolvePath(rootID, dstPath, true);
    if dstOut.Err? { return Err(dstOut.error), cache; }
    var dstDir := dstOut.value.0;
    if !dstDir.inode.IsDir() { return Err(NotDirectory), cache; }
    var sources := GatherSources(s, resolver, rootID, srcPaths);
    if sources.Err? { return Err(sources.error), cache; }
    var into := MovesIntoItself(sources.value, dstDir.id);
    if into { return Err(IntoItself), cache; }
    cache := resolver.cache;
    return Ok((dstDir, sources.value)), cache;
  }

  /** The outcome of MoveMany, and where it stopped. */
  ghost predicate BatchOutcome(fs: FS, gs: FS, root: Id, srcPaths: seq<string>, dstPath: string, r: Result<seq<Ref>>) {
    gs == MovedSoFar(fs, root, srcPaths, dstPath)
    && match MoveMany(fs, root, srcPaths, dstPath)
       case Err(e) => r == Err(e)
       case Ok(x) => r == Ok(x.1) && gs == x.0.fs
  }

  /** All checks of mvBatch have passed. */
  ghost predicate BatchStarts(fs: FS, root: Id, srcPaths: seq<string>, dstPath: string, srcs: seq<Source>, dp: Id) {
    var dst := ResolvePath(fs, root, dstPath, true);
    dst.Ok? && dst.value.ino == dp && dp in fs && fs[dp].IsDir() && Gather(fs, root, srcPaths, {}) == Ok(srcs)
    && !exists k :: k in srcs && k.node == dp
  }

  lemma AppliedIsOutcome(fs: FS, gs: FS, root: Id, srcPaths: seq<string>, dstPath: string, srcs: seq<Source>, dp: Id,
                         owner: map<Id, DriveId>, r: Result<seq<Ref>>)
    requires BatchStarts(fs, root, srcPaths, dstPath, srcs, dp) && SourcesReady(Tree(fs, fs), srcs, dp, owner)
    requires Applied(Tree(fs, fs), srcs, dp, owner, gs, r)
    ensures BatchOutcome(fs, gs, root, srcPaths, dstPath, r)
  {
    ReadyToApply(Tree(fs, fs), srcs, dp, owner);
    if r.Ok? { TriedIsApplied(Tree(fs, fs), srcs, dp); }
  }

  method MovesIntoItself(sources: seq<SrcInfo>, dst: Id) returns (r: bool)
    ensures r <==> exists k :: k in Sources(sources) && k.node == dst
  {
    for i := 0 to |sources|
      invariant forall k | k in Sources(sources)[..i] :: k.node != dst
    {
      if sources[i].node.id == dst {
        assert sources[i].Source() in Sources(sources);
        return true;
      }
    }
    return false;
  }

  lemma BatchReady(fs: FS, roots: map<DriveId, Id>, owner: map<Id, DriveId>, d: DriveId, srcPaths: seq<string>,
                   dstPath: string)
    requires Inv(fs, roots, owner) && d in roots && ResolvePath(fs, roots[d], dstPath, true).Ok?
    requires var dp := ResolvePath(fs, roots[d], dstPath, true).value.ino; dp in fs && fs[dp].IsDir()
    requires Gather(fs, roots[d], srcPaths, {}).Ok?
    ensures SourcesReady(Tree(fs, fs), Gather(fs, roots[d], srcPaths, {}).value,
                         ResolvePath(fs, roots[d], dstPath, true).value.ino, owner)
  {
    ResolvePlace(fs, roots[d], dstPath, true);
    AtOwner(fs, roots, owner, d, ResolvePath(fs, roots[d], dstPath, true).value.place);
    GatherOwners(fs, roots, owner, d, srcPaths, {});
  }

  // ---------------------------------------------------------------- Mv

  /** Where the rows of the transaction are when the moves have ended, with or without error. */
  function StoppedAt(fs: FS, roots: map<DriveId, Id>, drive: DriveId, srcPaths: seq<string>, dstPath: string): FS {
    if drive !in roots then fs
    else if |srcPaths| == 1 then
      var r := MoveOne(fs, roots[drive], srcPaths[0], dstPath);
      if r.Ok? then r.value.0.fs else fs
    else MovedSoFar(fs, roots[drive], srcPaths, dstPath)
  }

  /** The error of a move, of its tombstones, or none. */
  function MvError(spec: Result<(Tree, seq<Ref>)>, recorder: bool, recorderFails: bool): Result<()> {
    if spec.Err? then Err(spec.error)
    else if recorder && spec.value.1 != [] && recorderFails then Err(RecorderFailed)
    else Ok(())
  }

  /** All sources are moved and their tombstones recorded, or nothing happened at all. */
  ghost predicate AllOrNothing(before: Tables, after: Tables, recorder: bool, spec: Result<(Tree, seq<Ref>)>,
                               ok: bool) {
    after == if spec.Ok? && ok then Tables(spec.value.0.fs, before.tombstones + if recorder then spec.value.1 else [])
             else before
  }

  method MvSources(s: Service, drive: DriveId, srcPaths: seq<string>, dstPath: string, f: Faults)
      returns (r: Result<seq<Ref>>)
    requires s.Valid() && s.nodes.db.open
    modifies s.nodes.db
    ensures s.Valid() && s.Quiet()
    ensures match MoveSpec(old(s.nodes.db.fs), s.roots, drive, srcPaths, drive, dstPath)
            case Err(e) => r == Err(e)
            case Ok(x) => r == Ok(x.1) && s.nodes.db.fs == x.0.fs
    ensures s.nodes.db.fs == StoppedAt(old(s.nodes.db.fs), s.roots, drive, srcPaths, dstPath)
  {
    if |srcPaths| == 1 {
      r := MvOne(s, drive, srcPaths[0], dstPath, f);
    } else {
      r := MvBatch(s, drive, srcPaths, dstPath, f);
    }
  }

  /** The callback of Mv. */
  method MvRows(s: Service, drive: DriveId, srcPaths: seq<string>, dstPath: string, recorderFails: bool, f: Faults)
      returns (r: Result<()>)
    requires s.Valid() && s.nodes.db.open
    modifies s.nodes.db
    ensures s.Valid() && s.nodes.db.Nested()
    ensures var spec := MoveSpec(old(s.nodes.db.fs), s.roots, drive, srcPaths, drive, dstPath);
            r == MvError(spec, s.hasRecorder, recorderFails)
            && (r.Ok? ==> AllOrNothing(Tables(old(s.nodes.db.fs), old(s.nodes.db.tombstones)),
                                       Tables(s.nodes.db.fs, s.nodes.db.tombstones), s.hasRecorder, spec, true))
    ensures r.Err? ==> s.nodes.db.fs == StoppedAt(old(s.nodes.db.fs), s.roots, drive, srcPaths, dstPath)
                       && s.nodes.db.tombstones == old(s.nodes.db.tombstones)
  {
    var moved := MvSources(s, drive, srcPaths, dstPath, f);
    if moved.Err? { return Err(moved.error); }
    r := s.RecordGarbage(moved.value, recorderFails);
  }

  lemma ClashStops(fs: FS, roots: map<DriveId, Id>, owner: map<Id, DriveId>, d: DriveId, srcPaths: seq<string>,
                   dstPath: string)
    requires Inv(fs, roots, owner)
    ensures d in roots && MoveFacts.Clashing(fs, roots[d], srcPaths, dstPath) ==>
              MoveSpec(fs, roots, d, srcPaths, d, dstPath) == Err(TypeMismatch)
              && StoppedAt(fs, roots, d, srcPaths, dstPath) == fs
  {
    if d in roots && MoveFacts.Clashing(fs, roots[d], srcPaths, dstPath) {
      MoveFacts.ClashRefused(fs, roots, d, srcPaths, dstPath);
    }
  }

  /** One transaction, or part of its caller's. On its own it commits all moves and their
      tombstones, or, on an error of a source, of the tombstone insert, of begin or of
      commit, nothing. Joined, an error leaves the moves made so far to the outer
      transaction. */
  method Mv(s: Service, srcDrive: DriveId, srcPaths: seq<string>, dstDrive: DriveId, dstPath: string,
            recorderFails: bool, f: Faults)
      returns (r: Result<()>)
    requires s.Valid()
    modifies s.nodes.db
    ensures s.Valid() && s.nodes.db.Nested()
    ensures var spec := MoveSpec(old(s.nodes.db.fs), s.roots, srcDrive, srcPaths, dstDrive, dstPath);
            (r.Ok? <==> MvError(spec, s.hasRecorder, recorderFails).Ok? && old(s.nodes.db.Lasts(f)))
            && (!f.begin && !f.rollback && spec.Err? ==> r == Err(spec.error))
            && (r.Ok? || !old(s.nodes.db.open) ==>
                  AllOrNothing(Tables(old(s.nodes.db.fs), old(s.nodes.db.tombstones)),
                               Tables(s.nodes.db.fs, s.nodes.db.tombstones), s.hasRecorder, spec, r.Ok?))
    ensures r.Err? && old(s.nodes.db.open) ==>
              s.nodes.db.tombstones == old(s.nodes.db.tombstones)
              && s.nodes.db.fs == if srcDrive == dstDrive
                 then StoppedAt(old(s.nodes.db.fs), s.roots, srcDrive, srcPaths, dstPath)
                                  else old(s.nodes.db.fs)
    ensures srcDrive == dstDrive && srcDrive in s.roots
            && MoveFacts.Clashing(old(s.nodes.db.fs), s.roots[srcDrive], srcPaths, dstPath) ==>
              r.Err? && s.nodes.db.fs == old(s.nodes.db.fs) && s.nodes.db.tombstones == old(s.nodes.db.tombstones)
  {
    ClashStops(s.nodes.db.fs, s.roots, s.owner, srcDrive, srcPaths, dstPath);
    if srcDrive != dstDrive { return Err(CrossDrive); }
    var joined := s.nodes.db.Begin(f);
    if joined.Err? { return Err(joined.error); }
    r := MvRows(s, srcDrive, srcPaths, dstPath, recorderFails, f);
    r := s.nodes.db.End(joined.value, r, f);
  }
}

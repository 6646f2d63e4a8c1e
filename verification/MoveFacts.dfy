/** What mv delivers, keeps and loses. */
module MoveFacts {
  import opened Paths
  import opened Inodes
  import opened Graph
  import opened Moves
  import opened Walk
  import opened NodeOps
  import opened Removal
  import opened Batch

  /** The destination already has an entry of that name for that very inode. */
  ghost predicate InPlace(fs: FS, sp: Id, sn: string, dp: Id, dn: string) {
    Child(fs, sp, sn).Some? && Child(fs, sp, sn) == Child(fs, dp, dn)
  }

  lemma NoSelfEntry(fs: FS, roots: map<DriveId, Id>, root: Id, q: seq<string>, d: Id, n: string)
    requires RootsOk(fs, roots) && CountsOk(fs, roots) && IsRoot(roots, root)
    requires At(fs, root, q) == Some(d) && d in fs && fs[d].IsDir()
    ensures Child(fs, d, n) != Some(d)
  {
    if Child(fs, d, n) == Some(d) {
      AtSnoc(fs, root, q, n);
      AtUnique(fs, roots, root, q, q + [n]);
    }
  }

  // ---------------------------------------------------------------- one source

  lemma StepOnStore(fs: FS, sp: Id, sn: string, dp: Id, dn: string)
    requires sp in fs && dp in fs && fs[dp].IsDir() && IsName(dn) && Step(Tree(fs, fs), sp, sn, dp, dn).Ok?
    ensures Child(fs, sp, sn).Some?
    ensures var u := Step(Tree(fs, fs), sp, sn, dp, dn).value;
            if InPlace(fs, sp, sn, dp, dn) then u == Tree(fs, fs)
            else Movable(fs, sp, sn, dp, dn) && u.fs == MoveResult(fs, sp, sn, dp, dn)
                 && u.held == fs[sp := MoveListings(fs, sp, sn, dp, dn)[sp]][dp := MoveListings(fs, sp, sn, dp, dn)[dp]]
  {
    assert View(fs, sp, fs[sp], dp, fs[dp]) == fs;
  }

  // ---------------------------------------------------------------- when a move goes through

  /** Both names lead to inodes, to different ones of different kinds. */
  ghost predicate KindClash(fs: FS, sp: Id, sn: string, dp: Id, dn: string) {
    var x, y := Child(fs, sp, sn), Child(fs, dp, dn);
    x.Some? && y.Some? && x != y && x.value in fs && y.value in fs && fs[x.value].Kind() != fs[y.value].Kind()
  }

  lemma StepIff(fs: FS, sp: Id, sn: string, dp: Id, dn: string)
    requires WellFormed(fs) && sp in fs && dp in fs && fs[dp].IsDir() && IsName(dn)
    ensures Step(Tree(fs, fs), sp, sn, dp, dn).Ok? <==> Child(fs, sp, sn).Some? && !KindClash(fs, sp, sn, dp, dn)
    ensures KindClash(fs, sp, sn, dp, dn) ==> Step(Tree(fs, fs), sp, sn, dp, dn) == Err(TypeMismatch)
  {
    KindOfEntry(fs, sp, sn);
    KindOfEntry(fs, dp, dn);
  }

  lemma KindOfEntry(fs: FS, d: Id, n: string)
    requires WellFormed(fs)
    ensures Child(fs, d, n).Some? ==>
              var e := Find(fs[d].content.entries, n).value;
              e.ino == Child(fs, d, n).value && e.ino in fs && e.kind == fs[e.ino].Kind()
  {
  }

  /** mvOne goes through iff the source resolves without a mount in between, both parents
      resolve, the new one to a directory, the old one lists the source, and the new name is
      free, or leads to that inode already or to one of its kind. */
  lemma MoveOneIff(fs: FS, root: Id, srcPath: string, dstPath: string)
    requires WellFormed(fs)
    ensures var out := ResolvePath(fs, root, srcPath, true);
            var from, to := ResolveParent(fs, root, srcPath), ResolveParent(fs, root, dstPath);
            MoveOne(fs, root, srcPath, dstPath).Ok? <==>
            out.Ok? && out.value.rest == [] && from.Ok? && to.Ok?
            && to.value.0 in fs && fs[to.value.0].IsDir() && Child(fs, from.value.0, from.value.1).Some?
            && !KindClash(fs, from.value.0, from.value.1, to.value.0, to.value.1)
  {
    var plan := MovePlan(fs, root, srcPath, dstPath);
    if plan.Ok? { StepIff(fs, plan.value.sp, plan.value.sn, plan.value.dp, plan.value.dn); }
  }

  /** The entry arrives at the new name, with its inode untouched, and leaves the old one. */
  lemma MoveOneDelivers(fs: FS, roots: map<DriveId, Id>, owner: map<Id, DriveId>, d: DriveId, srcPath: string,
                        dstPath: string)
    requires Inv(fs, roots, owner) && d in roots && MoveOne(fs, roots[d], srcPath, dstPath).Ok?
    ensures var p, gs := MovePlan(fs, roots[d], srcPath, dstPath).value,
            MoveOne(fs, roots[d], srcPath, dstPath).value.0.fs;
            var x := Child(fs, p.sp, p.sn);
            x.Some? && Child(gs, p.dp, p.dn) == x
            && (p.sp != p.dp || p.sn != p.dn ==> InPlace(fs, p.sp, p.sn, p.dp, p.dn) || Child(gs, p.sp, p.sn).None?)
            && (forall y | y in fs && y != p.sp && y != p.dp && Child(fs, p.dp, p.dn) != Some(y) ::
                  y in gs && gs[y] == fs[y])
  {
    var p := MovePlan(fs, roots[d], srcPath, dstPath).value;
    StepOnStore(fs, p.sp, p.sn, p.dp, p.dn);
    if !InPlace(fs, p.sp, p.sn, p.dp, p.dn) {
      DestinationStays(fs, roots, roots[d], dstPath, p.dn);
      Delivered(fs, p.sp, p.sn, p.dp, p.dn);
    }
  }

  lemma DestinationStays(fs: FS, roots: map<DriveId, Id>, root: Id, dstPath: string, dn: string)
    requires RootsOk(fs, roots) && CountsOk(fs, roots) && IsRoot(roots, root) && ResolveParent(fs, root, dstPath).Ok?
    requires ResolveParent(fs, root, dstPath).value.0 in fs && fs[ResolveParent(fs, root, dstPath).value.0].IsDir()
    ensures Child(fs, ResolveParent(fs, root, dstPath).value.0, dn) != Some(ResolveParent(fs, root, dstPath).value.0)
  {
    var dp := ResolveParent(fs, root, dstPath).value.0;
    ResolvePlace(fs, root, ParentPath(dstPath), true);
    NoSelfEntry(fs, roots, root, ResolvePath(fs, root, ParentPath(dstPath), true).value.place, dp, dn);
  }

  lemma Delivered(fs: FS, sp: Id, sn: string, dp: Id, dn: string)
    requires Movable(fs, sp, sn, dp, dn) && Child(fs, dp, dn) != Some(dp)
    ensures var gs := MoveResult(fs, sp, sn, dp, dn);
            Child(gs, dp, dn) == Child(fs, sp, sn) && Child(gs, sp, sn).None?
            && forall y | y in fs && y != sp && y != dp && Child(fs, dp, dn) != Some(y) :: y in gs && gs[y] == fs[y]
  {
    var ls := MoveListings(fs, sp, sn, dp, dn);
    DeliveredListings(fs, sp, sn, dp, dn);
    var over := Child(fs, dp, dn);
    if over.Some? && over.value in ls { ReleaseKeepsEntries(ls, over.value, dp, dn, sp, sn); }
  }

  lemma DeliveredListings(fs: FS, sp: Id, sn: string, dp: Id, dn: string)
    requires Movable(fs, sp, sn, dp, dn)
    ensures var ls := MoveListings(fs, sp, sn, dp, dn);
            Child(ls, dp, dn) == Child(fs, sp, sn) && Child(ls, sp, sn).None?
  {
    var e := Moved(fs, sp, sn).(name := dn);
    if sp == dp {
      var es := fs[sp].content.entries;
      RenamedFind(es, sn, e, dn);
      RenamedFind(es, sn, e, sn);
      if Find(es, dn).None? {
        FindAppend(Renamed(es, sn, e), e, dn);
        FindAppend(Renamed(es, sn, e), e, sn);
      } else {
        assert RenamedListing(es, sn, e) == Renamed(es, sn, e);
      }
    } else {
      FindKeep(fs[sp].content.entries, {sn}, sn);
    }
  }

  lemma ReleaseKeepsEntries(ls: FS, x: Id, dp: Id, dn: string, sp: Id, sn: string)
    requires x in ls && x != dp && Child(ls, sp, sn).None?
    ensures Child(Release(ls, x), dp, dn) == Child(ls, dp, dn) && Child(Release(ls, x), sp, sn).None?
  {
  }

  /** The same row by row: both directories are rewritten, the overwritten inode loses its link,
      and nothing else is different; a move in place changes nothing at all. */
  lemma MoveOneRows(fs: FS, root: Id, srcPath: string, dstPath: string)
    requires WellFormed(fs) && MoveOne(fs, root, srcPath, dstPath).Ok?
    ensures var gs := MoveOne(fs, root, srcPath, dstPath).value.0.fs;
            var (sp, sn), (dp, dn) := ResolveParent(fs, root, srcPath).value, ResolveParent(fs, root, dstPath).value;
            Child(fs, sp, sn).Some?
            && var i := Index(fs[sp].content.entries, sn);
               if InPlace(fs, sp, sn, dp, dn) then gs == fs
               else EntryMoved(fs, gs, sp, i, dp, fs[sp].content.entries[i].(name := dn), Child(fs, dp, dn))
  {
    var p := MovePlan(fs, root, srcPath, dstPath).value;
    StepOnStore(fs, p.sp, p.sn, p.dp, p.dn);
    if !InPlace(fs, p.sp, p.sn, p.dp, p.dn) { MoveRows(fs, p.sp, p.sn, p.dp, p.dn); }
  }

  /** mv of one source keeps exact link counts iff it drops nothing: nlink goes wrong as
      soon as the destination, another directory, lists anything else. */
  lemma MoveOneKeepsExact(fs: FS, roots: map<DriveId, Id>, owner: map<Id, DriveId>, d: DriveId, srcPath: string,
                          dstPath: string)
    requires Inv(fs, roots, owner) && Exact(fs, roots) && d in roots && MoveOne(fs, roots[d], srcPath, dstPath).Ok?
    ensures var p := MovePlan(fs, roots[d], srcPath, dstPath).value;
            Exact(MoveOne(fs, roots[d], srcPath, dstPath).value.0.fs, roots) <==>
            InPlace(fs, p.sp, p.sn, p.dp, p.dn)
            || (Movable(fs, p.sp, p.sn, p.dp, p.dn) && Lossless(fs, p.sp, p.sn, p.dp, p.dn))
  {
    var p := MovePlan(fs, roots[d], srcPath, dstPath).value;
    StepOnStore(fs, p.sp, p.sn, p.dp, p.dn);
    if !InPlace(fs, p.sp, p.sn, p.dp, p.dn) {
      MoveKeepsExact(fs, roots, owner, p.sp, p.sn, p.dp, p.dn);
    }
  }

  /** The directory graph stays acyclic iff the source does not contain the destination;
      nothing in mvOne checks that. */
  lemma MoveOneKeepsAcyclic(fs: FS, roots: map<DriveId, Id>, owner: map<Id, DriveId>, d: DriveId, srcPath: string,
                            dstPath: string)
    requires Inv(fs, roots, owner) && Acyclic(fs) && d in roots && MoveOne(fs, roots[d], srcPath, dstPath).Ok?
    ensures var p := MovePlan(fs, roots[d], srcPath, dstPath).value;
            Acyclic(MoveOne(fs, roots[d], srcPath, dstPath).value.0.fs) <==>
            InPlace(fs, p.sp, p.sn, p.dp, p.dn)
            || (Child(fs, p.sp, p.sn).Some? && !Below(fs, Child(fs, p.sp, p.sn).value, p.dp))
  {
    var p := MovePlan(fs, roots[d], srcPath, dstPath).value;
    StepOnStore(fs, p.sp, p.sn, p.dp, p.dn);
    if !InPlace(fs, p.sp, p.sn, p.dp, p.dn) {
      MoveKeepsAcyclic(fs, roots, p.sp, p.sn, p.dp, p.dn);
    }
  }

  lemma MoveDeletedRefs(fs: FS, sp: Id, sn: string, dp: Id, dn: string)
    requires WellFormed(fs) && Movable(fs, sp, sn, dp, dn)
    ensures var x := Child(fs, dp, dn);
            DeletedRefs(fs, MoveResult(fs, sp, sn, dp, dn)) ==
            if x.Some? && x.value in fs && fs[x.value].nlink <= 1 then SetOf(RefsOf(fs[x.value])) else {}
  {
    var gs, x := MoveResult(fs, sp, sn, dp, dn), Child(fs, dp, dn);
    forall y | y in fs ensures y !in gs <==> x == Some(y) && fs[y].nlink <= 1 {
      MoveResultRow(fs, sp, sn, dp, dn, y);
    }
  }

  /** The reference of the object an entry names. */
  ghost function EntryRefs(fs: FS, d: Id, n: string): set<Ref> {
    var x := Child(fs, d, n);
    if x.Some? && x.value in fs then SetOf(RefsOf(fs[x.value])) else {}
  }

  lemma CapturedIsEntry(fs: FS, dp: Id, n: string)
    requires dp in fs && fs[dp].IsDir()
    ensures SetOf(Captured(Tree(fs, fs), dp, n)) == EntryRefs(fs, dp, n)
  {
  }

  /** What a move records is the complete reference of the object the new name leads to. */
  lemma MoveOneCaptures(fs: FS, root: Id, srcPath: string, dstPath: string)
    requires MoveOne(fs, root, srcPath, dstPath).Ok?
    ensures var (dp, dn) := ResolveParent(fs, root, dstPath).value;
            MoveOne(fs, root, srcPath, dstPath).value.1 ==
            match Child(fs, dp, dn)
            case None => []
            case Some(y) =>
              if y in fs && fs[y].content.Object? && fs[y].content.obj.bucket != "" && fs[y].content.obj.key != ""
              then [fs[y].content.obj] else []
  {
  }

  /** The tombstones of a move are the references of the objects it deleted iff the new name
      leads to no object, or to a different inode that loses its last link. */
  lemma MoveOneTombstones(fs: FS, roots: map<DriveId, Id>, owner: map<Id, DriveId>, d: DriveId, srcPath: string,
                          dstPath: string)
    requires Inv(fs, roots, owner) && d in roots && MoveOne(fs, roots[d], srcPath, dstPath).Ok?
    ensures var p, r := MovePlan(fs, roots[d], srcPath, dstPath).value, MoveOne(fs, roots[d], srcPath, dstPath).value;
            SetOf(r.1) == DeletedRefs(fs, r.0.fs) <==>
            EntryRefs(fs, p.dp, p.dn) == {}
            || (!InPlace(fs, p.sp, p.sn, p.dp, p.dn) && fs[Child(fs, p.dp, p.dn).value].nlink <= 1)
  {
    var p := MovePlan(fs, roots[d], srcPath, dstPath).value;
    StepOnStore(fs, p.sp, p.sn, p.dp, p.dn);
    CapturedIsEntry(fs, p.dp, p.dn);
    if InPlace(fs, p.sp, p.sn, p.dp, p.dn) {
      assert DeletedRefs(fs, fs) == {};
    } else {
      MoveDeletedRefs(fs, p.sp, p.sn, p.dp, p.dn);
    }
  }

  /** No inode of the store has one of the references. */
  ghost predicate SparesSurvivors(gs: FS, refs: set<Ref>) {
    forall x | x in gs && gs[x].Garbage().Some? :: gs[x].Garbage().value !in refs
  }

  ghost predicate SameGarbage(fs: FS, gs: FS) {
    forall x | x in gs :: x in fs && gs[x].Garbage() == fs[x].Garbage()
  }

  lemma DeletedSpares(fs: FS, gs: FS)
    requires DistinctRefs(fs) && SameGarbage(fs, gs)
    ensures SparesSurvivors(gs, DeletedRefs(fs, gs))
  {
  }

  lemma MoveGarbage(fs: FS, sp: Id, sn: string, dp: Id, dn: string)
    requires Movable(fs, sp, sn, dp, dn)
    ensures SameGarbage(fs, MoveResult(fs, sp, sn, dp, dn))
  {
  }

  /** With one link for each object and one object for each reference, no surviving inode is
      tombstoned by a move iff it moves something or the new name leads to no object. */
  lemma MoveOneSparesSurvivors(fs: FS, roots: map<DriveId, Id>, owner: map<Id, DriveId>, d: DriveId,
                               srcPath: string, dstPath: string)
    requires Inv(fs, roots, owner) && d in roots && MoveOne(fs, roots[d], srcPath, dstPath).Ok?
    requires SingleLinkObjects(fs) && DistinctRefs(fs)
    ensures var p, r := MovePlan(fs, roots[d], srcPath, dstPath).value, MoveOne(fs, roots[d], srcPath, dstPath).value;
            SparesSurvivors(r.0.fs, SetOf(r.1)) <==>
            EntryRefs(fs, p.dp, p.dn) == {} || !InPlace(fs, p.sp, p.sn, p.dp, p.dn)
  {
    var p, r := MovePlan(fs, roots[d], srcPath, dstPath).value, MoveOne(fs, roots[d], srcPath, dstPath).value;
    StepOnStore(fs, p.sp, p.sn, p.dp, p.dn);
    CapturedIsEntry(fs, p.dp, p.dn);
    if InPlace(fs, p.sp, p.sn, p.dp, p.dn) {
      if EntryRefs(fs, p.dp, p.dn) != {} { assert fs[Child(fs, p.dp, p.dn).value].Garbage().Some?; }
    } else {
      MoveOneTombstones(fs, roots, owner, d, srcPath, dstPath);
      MoveGarbage(fs, p.sp, p.sn, p.dp, p.dn);
      if EntryRefs(fs, p.dp, p.dn) != {} { DeletedSpares(fs, r.0.fs); }
    }
  }

  // ---------------------------------------------------------------- several sources

  ghost predicate Distinct(srcs: seq<Source>) {
    forall i, j | 0 <= i < j < |srcs| :: srcs[i].name != srcs[j].name
  }

  ghost predicate AllReady(t: Tree, srcs: seq<Source>, dp: Id) {
    dp in t.held && t.held[dp].IsDir() && forall k | k in srcs :: Ready(t, k.dir, dp) && IsName(k.name)
  }

  /** The destination lists one entry. */
  ghost predicate Single(t: Tree, dp: Id, name: string, x: Id) {
    dp in t.held && dp in t.fs && t.fs[dp] == t.held[dp] && t.held[dp].IsDir()
    && |t.held[dp].content.entries| == 1
    && t.held[dp].content.entries[0].name == name && t.held[dp].content.entries[0].ino == x
  }

  lemma ApplyHead(t: Tree, srcs: seq<Source>, dp: Id)
    requires srcs != [] && AllReady(t, srcs, dp) && Apply(t, srcs, dp).Ok?
    ensures var k := srcs[0];
            Step(t, k.dir, k.name, dp, k.name).Ok?
            && AllReady(Step(t, k.dir, k.name, dp, k.name).value, srcs[1..], dp)
            && Apply(Step(t, k.dir, k.name, dp, k.name).value, srcs[1..], dp).Ok?
            && Apply(t, srcs, dp).value.0 == Apply(Step(t, k.dir, k.name, dp, k.name).value, srcs[1..], dp).value.0
            && Apply(t, srcs, dp).value.1 ==
               Captured(t, dp, k.name) + Apply(Step(t, k.dir, k.name, dp, k.name).value, srcs[1..], dp).value.1
  {
    var k := srcs[0];
    assert k in srcs;
    var u := Step(t, k.dir, k.name, dp, k.name).value;
    forall j | j in srcs[1..] ensures j in srcs && j.dir in u.held { assert j in srcs && j.dir in u.held.Keys; }
  }

  /** Into a directory that lists one other name, a step is a move that overwrites nothing. */
  lemma StepAfterMove(t: Tree, sp: Id, sn: string, dp: Id, m: string, y: Id)
    requires Ready(t, sp, dp) && IsName(sn) && Single(t, dp, m, y) && sn != m && Step(t, sp, sn, dp, sn).Ok?
    ensures sp != dp && t.held[sp].IsDir() && Child(t.held, sp, sn).Some?
    ensures Find(t.held[dp].content.entries, sn).None? && !AlreadyThere(sp, t.held[sp], sn, dp, t.held[dp], sn)
    ensures Single(Step(t, sp, sn, dp, sn).value, dp, sn, Child(t.held, sp, sn).value)
  {
    assert t.held[dp].content.entries[1..] == [];
  }

  /** Other names of other directories are held as before. */
  lemma StepElsewhere(t: Tree, sp: Id, sn: string, dp: Id, d: Id, m: string)
    requires Ready(t, sp, dp) && IsName(sn) && sp != dp && Step(t, sp, sn, dp, sn).Ok?
    requires d != dp && m != sn
    ensures Child(Step(t, sp, sn, dp, sn).value.held, d, m) == Child(t.held, d, m)
  {
    if d == sp && t.held[sp].IsDir() { FindKeep(t.held[sp].content.entries, {sn}, m); }
  }

  /** Once one source has really been moved, each further one replaces the whole listing. */
  lemma {:induction false} ApplyAfterMove(t: Tree, srcs: seq<Source>, dp: Id, m: string, y: Id)
    requires AllReady(t, srcs, dp) && Single(t, dp, m, y) && Distinct(srcs) && (forall k | k in srcs :: k.name != m)
    requires Apply(t, srcs, dp).Ok?
    ensures var u := Apply(t, srcs, dp).value.0;
            if srcs == [] then Single(u, dp, m, y)
            else var l := srcs[|srcs| - 1];
                 Child(t.held, l.dir, l.name).Some? && Single(u, dp, l.name, Child(t.held, l.dir, l.name).value)
    ensures Apply(t, srcs, dp).value.1 == []
    decreases |srcs|
  {
    if srcs != [] {
      var k, l := srcs[0], srcs[|srcs| - 1];
      ApplyHead(t, srcs, dp);
      StepAfterMove(t, k.dir, k.name, dp, m, y);
      var u := Step(t, k.dir, k.name, dp, k.name).value;
      forall j | j in srcs[1..] ensures j.name != k.name {}
      ApplyAfterMove(u, srcs[1..], dp, k.name, Child(t.held, k.dir, k.name).value);
      if |srcs| > 1 {
        LastIsElsewhere(t, srcs, dp, m, y);
        StepElsewhere(t, k.dir, k.name, dp, l.dir, l.name);
      }
    }
  }

  lemma {:induction false} LastIsElsewhere(t: Tree, srcs: seq<Source>, dp: Id, m: string, y: Id)
    requires srcs != [] && AllReady(t, srcs, dp) && Single(t, dp, m, y) && Distinct(srcs)
    requires (forall k | k in srcs :: k.name != m) && Apply(t, srcs, dp).Ok?
    ensures srcs[|srcs| - 1].dir != dp
    decreases |srcs|
  {
    var k := srcs[0];
    ApplyHead(t, srcs, dp);
    StepAfterMove(t, k.dir, k.name, dp, m, y);
    if |srcs| > 1 {
      forall j | j in srcs[1..] ensures j.name != k.name {}
      LastIsElsewhere(Step(t, k.dir, k.name, dp, k.name).value, srcs[1..], dp, k.name,
                      Child(t.held, k.dir, k.name).value);
    }
  }

  /** How many sources, from the front, are already in the destination. */
  function Leading(fs: FS, srcs: seq<Source>, dp: Id): (n: nat)
    ensures n <= |srcs|
    ensures forall i | 0 <= i < n :: InPlace(fs, srcs[i].dir, srcs[i].name, dp, srcs[i].name)
    ensures n < |srcs| ==> !InPlace(fs, srcs[n].dir, srcs[n].name, dp, srcs[n].name)
  {
    if srcs == [] then 0
    else if Child(fs, srcs[0].dir, srcs[0].name).Some?
         && Child(fs, srcs[0].dir, srcs[0].name) == Child(fs, dp, srcs[0].name)
    then 1 + Leading(fs, srcs[1..], dp)
    else 0
  }

  /** Sources in place change nothing. */
  lemma {:induction false} ApplyLeading(fs: FS, srcs: seq<Source>, dp: Id)
    requires AllReady(Tree(fs, fs), srcs, dp) && Apply(Tree(fs, fs), srcs, dp).Ok?
    ensures var rest := srcs[Leading(fs, srcs, dp)..];
            AllReady(Tree(fs, fs), rest, dp) && Apply(Tree(fs, fs), rest, dp).Ok?
            && Apply(Tree(fs, fs), srcs, dp).value.0 == Apply(Tree(fs, fs), rest, dp).value.0
    decreases |srcs|
  {
    var n := Leading(fs, srcs, dp);
    if n > 0 {
      var k := srcs[0];
      ApplyHead(Tree(fs, fs), srcs, dp);
      StepOnStore(fs, k.dir, k.name, dp, k.name);
      ApplyLeading(fs, srcs[1..], dp);
      assert srcs[1..][n - 1..] == srcs[n..];
    } else {
      assert srcs[0..] == srcs;
    }
  }

  /** Moving source k into another directory gave u; the rest is still to be moved. */
  ghost predicate Launched(fs: FS, k: Source, dp: Id, u: Tree, rest: seq<Source>) {
    Ready(Tree(fs, fs), k.dir, dp) && IsName(k.name) && k.dir != dp && Child(fs, k.dir, k.name).Some?
    && Step(Tree(fs, fs), k.dir, k.name, dp, k.name) == Ok(u)
    && Queue(u, rest, dp, k.name, Child(fs, k.dir, k.name).value)
  }

  /** The first source that is not in place is moved as by mvOne, the others after it. */
  lemma FirstMove(fs: FS, srcs: seq<Source>, dp: Id) returns (u: Tree, rest: seq<Source>)
    requires AllReady(Tree(fs, fs), srcs, dp) && Distinct(srcs) && Apply(Tree(fs, fs), srcs, dp).Ok?
    requires Leading(fs, srcs, dp) < |srcs|
    requires forall n :: Child(fs, dp, n) != Some(dp)
    ensures var k := srcs[Leading(fs, srcs, dp)];
            Launched(fs, k, dp, u, rest) && !InPlace(fs, k.dir, k.name, dp, k.name)
            && Movable(fs, k.dir, k.name, dp, k.name) && u.fs == MoveResult(fs, k.dir, k.name, dp, k.name)
            && rest == srcs[Leading(fs, srcs, dp) + 1..]
            && Apply(Tree(fs, fs), srcs, dp).value.0 == Apply(u, rest, dp).value.0
  {
    var n := Leading(fs, srcs, dp);
    var k := srcs[n];
    ApplyLeading(fs, srcs, dp);
    assert srcs[n..][0] == k && srcs[n..][1..] == srcs[n + 1..];
    ApplyHead(Tree(fs, fs), srcs[n..], dp);
    u, rest := Step(Tree(fs, fs), k.dir, k.name, dp, k.name).value, srcs[n + 1..];
    FirstMoveListing(fs, k.dir, k.name, dp, u);
    DistinctTail(srcs, n);
  }

  lemma DistinctTail(srcs: seq<Source>, n: nat)
    requires Distinct(srcs) && n < |srcs|
    ensures Distinct(srcs[n + 1..]) && forall j | j in srcs[n + 1..] :: j.name != srcs[n].name
  {
  }

  /** The move of a source that is not in place, into a directory of one's own. */
  lemma FirstMoveListing(fs: FS, sp: Id, sn: string, dp: Id, u: Tree)
    requires sp in fs && dp in fs && fs[dp].IsDir() && IsName(sn) && Step(Tree(fs, fs), sp, sn, dp, sn) == Ok(u)
    requires !InPlace(fs, sp, sn, dp, sn) && forall n :: Child(fs, dp, n) != Some(dp)
    ensures Child(fs, sp, sn).Some? && sp != dp && Movable(fs, sp, sn, dp, sn) && u.fs == MoveResult(fs, sp, sn, dp, sn)
    ensures Single(u, dp, sn, Child(fs, sp, sn).value)
  {
    StepOnStore(fs, sp, sn, dp, sn);
  }

  // ---------------------------------------------------------------- when a batch goes through

  /** Into a directory that lists one other name, a source can be moved iff it is listed in some
      other directory. */
  lemma StepIntoSingle(t: Tree, k: Source, dp: Id, m: string, y: Id)
    requires Ready(t, k.dir, dp) && IsName(k.name) && Single(t, dp, m, y) && k.name != m
    ensures Step(t, k.dir, k.name, dp, k.name).Ok? <==> k.dir != dp && Child(t.held, k.dir, k.name).Some?
  {
    assert t.held[dp].content.entries[1..] == [];
  }

  ghost predicate ListedElsewhere(held: FS, srcs: seq<Source>, dp: Id) {
    forall k | k in srcs :: k.dir != dp && Child(held, k.dir, k.name).Some?
  }

  lemma {:induction false} QueueIff(t: Tree, srcs: seq<Source>, dp: Id, m: string, y: Id)
    requires AllReady(t, srcs, dp) && Single(t, dp, m, y) && Distinct(srcs) && forall k | k in srcs :: k.name != m
    ensures Apply(t, srcs, dp).Ok? <==> ListedElsewhere(t.held, srcs, dp)
    decreases |srcs|
  {
    if srcs != [] {
      var k := srcs[0];
      assert k in srcs;
      StepIntoSingle(t, k, dp, m, y);
      var u := Step(t, k.dir, k.name, dp, k.name);
      if u.Ok? {
        StepAfterMove(t, k.dir, k.name, dp, m, y);
        TailReady(t, u.value, srcs, dp);
        DistinctTail(srcs, 0);
        QueueIff(u.value, srcs[1..], dp, k.name, Child(t.held, k.dir, k.name).value);
        StillListed(t, u.value, srcs, dp);
      }
    }
  }

  lemma TailReady(t: Tree, u: Tree, srcs: seq<Source>, dp: Id)
    requires srcs != [] && AllReady(t, srcs, dp) && u.held.Keys == t.held.Keys && dp in u.held && u.held[dp].IsDir()
    ensures AllReady(u, srcs[1..], dp)
  {
    forall k | k in srcs[1..] ensures Ready(u, k.dir, dp) && IsName(k.name) {
      assert k in srcs && k.dir in t.held.Keys;
    }
  }

  /** A move does not change what the other sources are in other directories. */
  lemma StillListed(t: Tree, u: Tree, srcs: seq<Source>, dp: Id)
    requires srcs != [] && AllReady(t, srcs, dp) && Distinct(srcs) && srcs[0].dir != dp
    requires IsName(srcs[0].name) && Ready(t, srcs[0].dir, dp) && Child(t.held, srcs[0].dir, srcs[0].name).Some?
    requires Step(t, srcs[0].dir, srcs[0].name, dp, srcs[0].name) == Ok(u)
    ensures ListedElsewhere(u.held, srcs[1..], dp) <==> ListedElsewhere(t.held, srcs, dp)
  {
    var k := srcs[0];
    assert forall j | j in srcs :: j == k || j in srcs[1..];
    DistinctTail(srcs, 0);
    forall j | j in srcs[1..] && j.dir != dp
      ensures Child(u.held, j.dir, j.name) == Child(t.held, j.dir, j.name) && j in srcs
    {
      StepElsewhere(t, k.dir, k.name, dp, j.dir, j.name);
    }
  }

  /** All sources are listed; from the first that is not in place on they are listed elsewhere,
      and that one does not clash with what it overwrites. */
  ghost predicate CanMove(fs: FS, srcs: seq<Source>, dp: Id) {
    var n := Leading(fs, srcs, dp);
    ListedElsewhere(fs, srcs[n..], dp)
    && (n < |srcs| ==> !KindClash(fs, srcs[n].dir, srcs[n].name, dp, srcs[n].name))
  }

  lemma {:induction false} ApplyIff(fs: FS, srcs: seq<Source>, dp: Id)
    requires WellFormed(fs) && AllReady(Tree(fs, fs), srcs, dp) && Distinct(srcs)
    requires forall n :: Child(fs, dp, n) != Some(dp)
    ensures Apply(Tree(fs, fs), srcs, dp).Ok? <==> CanMove(fs, srcs, dp)
    decreases |srcs|
  {
    if srcs != [] {
      var k, t := srcs[0], Tree(fs, fs);
      assert k in srcs;
      StepIff(fs, k.dir, k.name, dp, k.name);
      var u := Step(t, k.dir, k.name, dp, k.name);
      if u.Ok? {
        TailReady(t, u.value, srcs, dp);
        DistinctTail(srcs, 0);
        if InPlace(fs, k.dir, k.name, dp, k.name) {
          StepOnStore(fs, k.dir, k.name, dp, k.name);
          ApplyIff(fs, srcs[1..], dp);
          LeadingTail(fs, srcs, dp);
        } else {
          FirstMoveListing(fs, k.dir, k.name, dp, u.value);
          QueueIff(u.value, srcs[1..], dp, k.name, Child(fs, k.dir, k.name).value);
          StillListed(t, u.value, srcs, dp);
          assert srcs[0..] == srcs;
        }
      } else {
        assert srcs[0..][0] == k;
      }
    }
  }

  lemma LeadingTail(fs: FS, srcs: seq<Source>, dp: Id)
    requires srcs != [] && InPlace(fs, srcs[0].dir, srcs[0].name, dp, srcs[0].name)
    ensures CanMove(fs, srcs, dp) <==> CanMove(fs, srcs[1..], dp)
  {
    var n := Leading(fs, srcs[1..], dp);
    assert srcs[1..][n..] == srcs[n + 1..];
  }

  /** The path leads to the source's node with no mount in between, and its parent to the
      source's directory. */
  ghost predicate SourceOf(fs: FS, root: Id, path: string, k: Source) {
    var out, at := ResolvePath(fs, root, path, true), ResolveParent(fs, root, path);
    out.Ok? && out.value.rest == [] && out.value.ino == k.node && at.Ok? && at.value == (k.dir, k.name)
  }

  ghost predicate SourcesOf(fs: FS, root: Id, paths: seq<string>, srcs: seq<Source>) {
    |srcs| == |paths| && Distinct(srcs) && forall i | 0 <= i < |paths| :: SourceOf(fs, root, paths[i], srcs[i])
  }

  lemma GatherStep(fs: FS, root: Id, paths: seq<string>, seen: set<string>, k: Source, rest: seq<Source>)
    requires paths != []
    ensures Gather(fs, root, paths, seen) == Ok([k] + rest) <==>
            SourceOf(fs, root, paths[0], k) && k.name !in seen
            && Gather(fs, root, paths[1..], seen + {k.name}) == Ok(rest)
  {
    var out, at := ResolvePath(fs, root, paths[0], true), ResolveParent(fs, root, paths[0]);
    if out.Ok? && at.Ok? {
      var h := Source(at.value.0, at.value.1, out.value.ino);
      var more := Gather(fs, root, paths[1..], seen + {h.name});
      if more.Ok? {
        assert ([h] + more.value)[0] == h && ([h] + more.value)[1..] == more.value;
        assert ([k] + rest)[0] == k && ([k] + rest)[1..] == rest;
      }
    }
  }

  /** The sources are gathered iff each path has one and no two have the same basename. */
  lemma {:induction false} GatherIff(fs: FS, root: Id, paths: seq<string>, seen: set<string>, srcs: seq<Source>)
    ensures Gather(fs, root, paths, seen) == Ok(srcs) <==>
            SourcesOf(fs, root, paths, srcs) && forall k | k in srcs :: k.name !in seen
    decreases |paths|
  {
    if paths != [] && srcs != [] {
      var k, rest := srcs[0], srcs[1..];
      assert srcs == [k] + rest;
      assert forall j | j in srcs :: j == k || j in rest;
      GatherStep(fs, root, paths, seen, k, rest);
      GatherIff(fs, root, paths[1..], seen + {k.name}, rest);
      SourcesHead(fs, root, paths, srcs);
    }
  }

  lemma SourcesHead(fs: FS, root: Id, paths: seq<string>, srcs: seq<Source>)
    requires paths != [] && srcs != []
    ensures SourcesOf(fs, root, paths, srcs) <==>
            SourceOf(fs, root, paths[0], srcs[0]) && SourcesOf(fs, root, paths[1..], srcs[1..])
            && forall k | k in srcs[1..] :: k.name != srcs[0].name
  {
    DistinctHead(srcs);
    if |srcs| == |paths| {
      assert forall i | 0 < i < |paths| :: paths[i] == paths[1..][i - 1] && srcs[i] == srcs[1..][i - 1];
      assert forall i | 0 <= i < |paths| - 1 :: paths[1..][i] == paths[i + 1] && srcs[1..][i] == srcs[i + 1];
    }
  }

  lemma DistinctHead(srcs: seq<Source>)
    requires srcs != []
    ensures Distinct(srcs) <==> Distinct(srcs[1..]) && forall k | k in srcs[1..] :: k.name != srcs[0].name
  {
    if Distinct(srcs) { DistinctTail(srcs, 0); }
    if Distinct(srcs[1..]) && forall k | k in srcs[1..] :: k.name != srcs[0].name {
      forall i, j | 0 <= i < j < |srcs| ensures srcs[i].name != srcs[j].name {
        assert srcs[j] == srcs[1..][j - 1];
        if i > 0 { assert srcs[i] == srcs[1..][i - 1]; }
      }
    }
  }

  /** The paths have these sources, the destination is this directory, and none of them is it. */
  ghost predicate Batched(fs: FS, root: Id, srcPaths: seq<string>, dstPath: string, srcs: seq<Source>, dp: Id) {
    var dst := ResolvePath(fs, root, dstPath, true);
    dst.Ok? && dst.value.ino == dp && dp in fs && fs[dp].IsDir()
    && SourcesOf(fs, root, srcPaths, srcs) && forall k | k in srcs :: k.node != dp
  }

  lemma BatchedApplies(fs: FS, roots: map<DriveId, Id>, root: Id, srcPaths: seq<string>, dstPath: string,
                       srcs: seq<Source>, dp: Id)
    requires RootsOk(fs, roots) && CountsOk(fs, roots) && IsRoot(roots, root)
    requires Batched(fs, root, srcPaths, dstPath, srcs, dp)
    ensures AllReady(Tree(fs, fs), srcs, dp) && Distinct(srcs) && forall n :: Child(fs, dp, n) != Some(dp)
    ensures MoveMany(fs, root, srcPaths, dstPath) == Apply(Tree(fs, fs), srcs, dp)
    ensures MovedSoFar(fs, root, srcPaths, dstPath) == Tried(Tree(fs, fs), srcs, dp).fs
  {
    GatherIff(fs, root, srcPaths, {}, srcs);
    ResolvePlace(fs, root, dstPath, true);
    forall n ensures Child(fs, dp, n) != Some(dp) {
      NoSelfEntry(fs, roots, root, ResolvePath(fs, root, dstPath, true).value.place, dp, n);
    }
  }

  /** mvBatch goes through iff the destination is a directory, every path leads to a source of
      this drive other than it, with its own basename, and all these can be moved. */
  lemma MoveManyIff(fs: FS, roots: map<DriveId, Id>, root: Id, srcPaths: seq<string>, dstPath: string)
    requires WellFormed(fs) && RootsOk(fs, roots) && CountsOk(fs, roots) && IsRoot(roots, root)
    ensures MoveMany(fs, root, srcPaths, dstPath).Ok? <==>
            exists srcs, dp :: Batched(fs, root, srcPaths, dstPath, srcs, dp) && CanMove(fs, srcs, dp)
  {
    if MoveMany(fs, root, srcPaths, dstPath).Ok? {
      var srcs, dp := Gather(fs, root, srcPaths, {}).value, ResolvePath(fs, root, dstPath, true).value.ino;
      GatherIff(fs, root, srcPaths, {}, srcs);
      BatchedApplies(fs, roots, root, srcPaths, dstPath, srcs, dp);
      ApplyIff(fs, srcs, dp);
    }
    if srcs, dp :| Batched(fs, root, srcPaths, dstPath, srcs, dp) && CanMove(fs, srcs, dp) {
      BatchedApplies(fs, roots, root, srcPaths, dstPath, srcs, dp);
      ApplyIff(fs, srcs, dp);
    }
  }

  /** Sources in place, and then one that clashes: nothing has been written when it is refused. */
  lemma {:induction false} ClashStops(fs: FS, srcs: seq<Source>, dp: Id, n: nat)
    requires WellFormed(fs) && AllReady(Tree(fs, fs), srcs, dp) && n < |srcs|
    requires forall i | 0 <= i < n :: InPlace(fs, srcs[i].dir, srcs[i].name, dp, srcs[i].name)
    requires KindClash(fs, srcs[n].dir, srcs[n].name, dp, srcs[n].name)
    ensures Apply(Tree(fs, fs), srcs, dp) == Err(TypeMismatch) && Tried(Tree(fs, fs), srcs, dp) == Tree(fs, fs)
    decreases |srcs|
  {
    var k, t := srcs[0], Tree(fs, fs);
    assert k in srcs;
    StepIff(fs, k.dir, k.name, dp, k.name);
    if n > 0 {
      StepOnStore(fs, k.dir, k.name, dp, k.name);
      TailReady(t, t, srcs, dp);
      ClashStops(fs, srcs[1..], dp, n - 1);
    }
  }

  /** A source would overwrite an inode of another kind: the one source of mvOne, or the first
      of a batch that is not in place. */
  ghost predicate Clashing(fs: FS, root: Id, srcPaths: seq<string>, dstPath: string) {
    if |srcPaths| == 1 then
      var out := ResolvePath(fs, root, srcPaths[0], true);
      var from, to := ResolveParent(fs, root, srcPaths[0]), ResolveParent(fs, root, dstPath);
      out.Ok? && out.value.rest == [] && from.Ok? && to.Ok?
      && KindClash(fs, from.value.0, from.value.1, to.value.0, to.value.1)
    else
      exists srcs, dp, n :: Batched(fs, root, srcPaths, dstPath, srcs, dp) && ClashAt(fs, srcs, dp, n)
  }

  ghost predicate ClashAt(fs: FS, srcs: seq<Source>, dp: Id, n: nat) {
    n < |srcs| && KindClash(fs, srcs[n].dir, srcs[n].name, dp, srcs[n].name)
    && forall i | 0 <= i < n :: InPlace(fs, srcs[i].dir, srcs[i].name, dp, srcs[i].name)
  }

  lemma OneClashRefused(fs: FS, root: Id, srcPath: string, dstPath: string)
    requires WellFormed(fs) && Clashing(fs, root, [srcPath], dstPath)
    ensures MoveOne(fs, root, srcPath, dstPath) == Err(TypeMismatch)
  {
    var p := MovePlan(fs, root, srcPath, dstPath).value;
    StepIff(fs, p.sp, p.sn, p.dp, p.dn);
  }

  /** Then the move is refused, with nothing written. */
  lemma ClashRefused(fs: FS, roots: map<DriveId, Id>, d: DriveId, srcPaths: seq<string>, dstPath: string)
    requires WellFormed(fs) && RootsOk(fs, roots) && CountsOk(fs, roots) && d in roots
    requires Clashing(fs, roots[d], srcPaths, dstPath)
    ensures MoveSpec(fs, roots, d, srcPaths, d, dstPath) == Err(TypeMismatch)
    ensures |srcPaths| != 1 ==> MovedSoFar(fs, roots[d], srcPaths, dstPath) == fs
  {
    if |srcPaths| == 1 {
      assert srcPaths == [srcPaths[0]];
      OneClashRefused(fs, roots[d], srcPaths[0], dstPath);
    } else {
      var srcs, dp, n :| Batched(fs, roots[d], srcPaths, dstPath, srcs, dp) && ClashAt(fs, srcs, dp, n);
      assert IsRoot(roots, roots[d]);
      BatchedApplies(fs, roots, roots[d], srcPaths, dstPath, srcs, dp);
      ClashStops(fs, srcs, dp, n);
    }
  }

  // ---------------------------------------------------------------- what a batch delivers

  /** Sources still to be moved into a directory that lists one other name. */
  ghost predicate Queue(t: Tree, srcs: seq<Source>, dp: Id, m: string, x: Id) {
    AllReady(t, srcs, dp) && Single(t, dp, m, x) && Distinct(srcs)
    && (forall k | k in srcs :: k.name != m) && Apply(t, srcs, dp).Ok?
  }

  /** A batch that moves anything leaves the destination with the last source alone. */
  lemma BatchKeepsLast(fs: FS, srcs: seq<Source>, dp: Id, name: string)
    requires AllReady(Tree(fs, fs), srcs, dp) && Distinct(srcs) && Apply(Tree(fs, fs), srcs, dp).Ok?
    requires forall n :: Child(fs, dp, n) != Some(dp)
    requires Leading(fs, srcs, dp) < |srcs|
    ensures var gs, l := Apply(Tree(fs, fs), srcs, dp).value.0.fs, srcs[|srcs| - 1];
            Child(fs, l.dir, l.name).Some?
            && Child(gs, dp, name) == if name == l.name then Child(fs, l.dir, l.name) else None
  {
    var l := srcs[|srcs| - 1];
    var x := BatchEndsAlone(fs, srcs, dp, l);
    SingleChild(Apply(Tree(fs, fs), srcs, dp).value.0, dp, l.name, x, name);
  }

  lemma BatchEndsAlone(fs: FS, srcs: seq<Source>, dp: Id, l: Source) returns (x: Id)
    requires AllReady(Tree(fs, fs), srcs, dp) && Distinct(srcs) && Apply(Tree(fs, fs), srcs, dp).Ok?
    requires forall n :: Child(fs, dp, n) != Some(dp)
    requires Leading(fs, srcs, dp) < |srcs| && l == srcs[|srcs| - 1]
    ensures Child(fs, l.dir, l.name) == Some(x) && Single(Apply(Tree(fs, fs), srcs, dp).value.0, dp, l.name, x)
  {
    var n := Leading(fs, srcs, dp);
    var u, rest := FirstMove(fs, srcs, dp);
    var k := LastOfTail(srcs, n, rest, l);
    x := LastAlone(fs, k, dp, u, rest, l);
  }

  lemma LastOfTail(srcs: seq<Source>, n: nat, rest: seq<Source>, l: Source) returns (k: Source)
    requires n < |srcs| && rest == srcs[n + 1..] && l == srcs[|srcs| - 1]
    ensures k == srcs[n] && l == if rest == [] then k else rest[|rest| - 1]
  {
    k := srcs[n];
  }

  /** The last of a first move and the moves after it is alone in the destination. */
  lemma LastAlone(fs: FS, k: Source, dp: Id, u: Tree, rest: seq<Source>, l: Source) returns (x: Id)
    requires Launched(fs, k, dp, u, rest)
    requires l == if rest == [] then k else rest[|rest| - 1]
    ensures Child(fs, l.dir, l.name) == Some(x) && Single(Apply(u, rest, dp).value.0, dp, l.name, x)
  {
    x := Child(fs, k.dir, k.name).value;
    ApplyAfterMove(u, rest, dp, k.name, x);
    if rest != [] {
      LastIsElsewhere(u, rest, dp, k.name, x);
      StepElsewhere(Tree(fs, fs), k.dir, k.name, dp, l.dir, l.name);
      x := Child(u.held, l.dir, l.name).value;
    }
  }

  lemma SingleChild(t: Tree, dp: Id, m: string, x: Id, name: string)
    requires Single(t, dp, m, x)
    ensures Child(t.fs, dp, name) == if name == m then Some(x) else None
  {
    assert t.held[dp].content.entries[1..] == [];
  }

  /** The destination directory and the sources of a batch that was not refused outright. */
  ghost predicate BatchOf(fs: FS, root: Id, srcPaths: seq<string>, dstPath: string, srcs: seq<Source>, dp: Id) {
    ResolvePath(fs, root, dstPath, true).Ok? && ResolvePath(fs, root, dstPath, true).value.ino == dp
    && dp in fs && fs[dp].IsDir() && Gather(fs, root, srcPaths, {}) == Ok(srcs)
  }

  lemma BatchReady(fs: FS, roots: map<DriveId, Id>, root: Id, srcPaths: seq<string>, dstPath: string, srcs: seq<Source>,
                   dp: Id)
    requires RootsOk(fs, roots) && CountsOk(fs, roots) && IsRoot(roots, root)
    requires BatchOf(fs, root, srcPaths, dstPath, srcs, dp) && MoveMany(fs, root, srcPaths, dstPath).Ok?
    ensures AllReady(Tree(fs, fs), srcs, dp) && Distinct(srcs) && (forall n :: Child(fs, dp, n) != Some(dp))
    ensures MoveMany(fs, root, srcPaths, dstPath) == Apply(Tree(fs, fs), srcs, dp)
  {
    ResolvePlace(fs, root, dstPath, true);
    forall n ensures Child(fs, dp, n) != Some(dp) {
      NoSelfEntry(fs, roots, root, ResolvePath(fs, root, dstPath, true).value.place, dp, n);
    }
  }

  ghost predicate AllInPlace(fs: FS, srcs: seq<Source>, dp: Id) {
    forall k | k in srcs :: InPlace(fs, k.dir, k.name, dp, k.name)
  }

  lemma LeadingAll(fs: FS, srcs: seq<Source>, dp: Id)
    ensures AllInPlace(fs, srcs, dp) <==> Leading(fs, srcs, dp) == |srcs|
  {
    var n := Leading(fs, srcs, dp);
    if n < |srcs| { assert srcs[n] in srcs; }
  }

  /** A successful batch puts every source at destination/basename iff it is given at most
      one source, or every source was there already. */
  lemma BatchDelivers(fs: FS, roots: map<DriveId, Id>, root: Id, srcPaths: seq<string>, dstPath: string,
                      srcs: seq<Source>, dp: Id)
    requires RootsOk(fs, roots) && CountsOk(fs, roots) && IsRoot(roots, root)
    requires BatchOf(fs, root, srcPaths, dstPath, srcs, dp) && MoveMany(fs, root, srcPaths, dstPath).Ok?
    ensures var gs := MoveMany(fs, root, srcPaths, dstPath).value.0.fs;
            (forall k | k in srcs :: Child(gs, dp, k.name) == Child(fs, k.dir, k.name))
            <==> |srcs| <= 1 || AllInPlace(fs, srcs, dp)
  {
    BatchReady(fs, roots, root, srcPaths, dstPath, srcs, dp);
    LeadingAll(fs, srcs, dp);
    if AllInPlace(fs, srcs, dp) {
      ApplyLeading(fs, srcs, dp);
      assert srcs[|srcs|..] == [];
    } else {
      ApplyHead(Tree(fs, fs), srcs, dp);
      StepOnStore(fs, srcs[0].dir, srcs[0].name, dp, srcs[0].name);
      forall k | k in srcs { BatchKeepsLast(fs, srcs, dp, k.name); }
      if |srcs| > 1 { assert srcs[0] in srcs; }
    }
  }

  // ---------------------------------------------------------------- link counts of a batch

  /** y has more links on record than the tree has entries for it. */
  ghost predicate Lossy(v: FS, gone: set<Id>, roots: map<DriveId, Id>, y: Id) {
    y in v && y !in gone && !IsRoot(roots, y) && |To(Links(v), y)| < v[y].nlink
  }

  lemma LossyIsInexact(t: Tree, v: FS, gone: set<Id>, roots: map<DriveId, Id>, y: Id)
    requires t.fs == v - gone && Lossy(v, gone, roots, y)
    ensures LinkLost(t.fs, roots)
  {
    forall l ensures l in Links(v - gone) ==> l in Links(v) { DropRowsLinks(v, gone, l); }
    ToMono(Links(v - gone), Links(v), y);
  }

  /** A step that overwrites nothing, seen on the tree. */
  lemma OverlayPlainMove(t: Tree, v: FS, gone: set<Id>, roots: map<DriveId, Id>, owner: map<Id, DriveId>,
                         sp: Id, sn: string, dp: Id) returns (gone': set<Id>)
    requires Overlay(t, v, gone, roots, owner) && Ready(t, sp, dp) && IsName(sn)
    requires sp in owner && dp in owner && owner[sp] == owner[dp]
    requires Step(t, sp, sn, dp, sn).Ok? && !AlreadyThere(sp, t.held[sp], sn, dp, t.held[dp], sn)
    requires Find(t.held[dp].content.entries, sn).None?
    ensures Movable(v, sp, sn, dp, sn) && gone' <= gone
    ensures Overlay(Step(t, sp, sn, dp, sn).value, MoveListings(v, sp, sn, dp, sn), gone', roots, owner)
  {
    StepMoves(t, v, gone, roots, sp, sn, dp, sn);
    MoveListingsKeepInv(v, roots, owner, sp, sn, dp, sn);
    gone' := gone - {sp, dp};
    StillUnnamed(v, roots, gone', sp, sn, dp, sn);
    HeldAfterMove(t.held, v, MoveListings(v, sp, sn, dp, sn), sp, sn, dp, sn);
  }

  lemma MoveStaysLossy(v: FS, gone: set<Id>, roots: map<DriveId, Id>, sp: Id, sn: string, dp: Id, y: Id)
    requires Movable(v, sp, sn, dp, sn) && Lossy(v, gone, roots, y)
    ensures Lossy(MoveListings(v, sp, sn, dp, sn), gone, roots, y)
  {
    MoveCount(v, sp, sn, dp, sn, y);
  }

  /** The entry the destination lists is dropped by the next move. */
  lemma MoveLoses(v: FS, gone: set<Id>, roots: map<DriveId, Id>, sp: Id, sn: string, dp: Id, m: string, y: Id)
    requires WellFormed(v) && RootsOk(v, roots) && CountsOk(v, roots) && Unnamed(v, roots, gone)
    requires Movable(v, sp, sn, dp, sn) && sp != dp && HasLink(v, Link(dp, m, y))
    ensures Lossy(MoveListings(v, sp, sn, dp, sn), gone, roots, y)
  {
    var l := Link(dp, m, y);
    assert l in Links(v);
    LinkTarget(v, l);
    ToProper(Dropped(v, sp, dp, sn), {}, l);
    MoveUndercounts(v, roots, sp, sn, dp, sn, y);
  }

  ghost predicate OneDrive(srcs: seq<Source>, dp: Id, owner: map<Id, DriveId>) {
    dp in owner && forall k | k in srcs :: k.dir in owner && owner[k.dir] == owner[dp]
  }

  lemma QueueNext(t: Tree, srcs: seq<Source>, dp: Id, m: string, x: Id) returns (u: Tree, x': Id)
    requires srcs != [] && Queue(t, srcs, dp, m, x)
    ensures Ready(t, srcs[0].dir, dp) && IsName(srcs[0].name) && srcs[0].name != m
    ensures Step(t, srcs[0].dir, srcs[0].name, dp, srcs[0].name) == Ok(u)
    ensures Queue(u, srcs[1..], dp, srcs[0].name, x')
    ensures Apply(t, srcs, dp).value.0 == Apply(u, srcs[1..], dp).value.0
  {
    var k := srcs[0];
    assert k in srcs;
    ApplyHead(t, srcs, dp);
    StepAfterMove(t, k.dir, k.name, dp, m, x);
    u, x' := Step(t, k.dir, k.name, dp, k.name).value, Child(t.held, k.dir, k.name).value;
    assert forall j | j in srcs[1..] :: j in srcs && j.name != k.name;
  }

  /** Some count is wrong already, or the next move will make it so. */
  ghost predicate Losing(t: Tree, v: FS, gone: set<Id>, roots: map<DriveId, Id>, owner: map<Id, DriveId>,
                         srcs: seq<Source>, dp: Id, m: string, x: Id, y: Id) {
    Overlay(t, v, gone, roots, owner) && Queue(t, srcs, dp, m, x) && OneDrive(srcs, dp, owner)
    && (Lossy(v, gone, roots, y) || (y == x && srcs != []))
  }

  /** After the first real move every further one leaves somebody's count wrong. */
  lemma {:induction false} ApplyLoses(t: Tree, v: FS, gone: set<Id>, roots: map<DriveId, Id>, owner: map<Id, DriveId>,
                                      srcs: seq<Source>, dp: Id, m: string, x: Id, y: Id)
    requires Losing(t, v, gone, roots, owner, srcs, dp, m, x, y)
    ensures LinkLost(Apply(t, srcs, dp).value.0.fs, roots)
    decreases |srcs|
  {
    if srcs == [] {
      LossyIsInexact(t, v, gone, roots, y);
    } else {
      var u, w, gone', x' := LosingNext(t, v, gone, roots, owner, srcs, dp, m, x, y);
      ApplyLoses(u, w, gone', roots, owner, srcs[1..], dp, srcs[0].name, x', y);
    }
  }

  lemma LosingNext(t: Tree, v: FS, gone: set<Id>, roots: map<DriveId, Id>, owner: map<Id, DriveId>,
                   srcs: seq<Source>, dp: Id, m: string, x: Id, y: Id) returns (u: Tree, w: FS, gone': set<Id>, x': Id)
    requires srcs != [] && Losing(t, v, gone, roots, owner, srcs, dp, m, x, y)
    ensures Losing(u, w, gone', roots, owner, srcs[1..], dp, srcs[0].name, x', y)
    ensures Apply(t, srcs, dp).value.0 == Apply(u, srcs[1..], dp).value.0
  {
    u, x' := QueueNext(t, srcs, dp, m, x);
    assert srcs[0] in srcs;
    gone' := LosesNow(t, v, gone, roots, owner, srcs[0], dp, m, x, y);
    w := MoveListings(v, srcs[0].dir, srcs[0].name, dp, srcs[0].name);
  }

  lemma LosesNow(t: Tree, v: FS, gone: set<Id>, roots: map<DriveId, Id>, owner: map<Id, DriveId>,
                 k: Source, dp: Id, m: string, x: Id, y: Id) returns (gone': set<Id>)
    requires Overlay(t, v, gone, roots, owner) && Single(t, dp, m, x) && Ready(t, k.dir, dp) && IsName(k.name)
             && k.name != m
    requires k.dir in owner && dp in owner && owner[k.dir] == owner[dp] && Step(t, k.dir, k.name, dp, k.name).Ok?
    requires Lossy(v, gone, roots, y) || y == x
    ensures Movable(v, k.dir, k.name, dp, k.name)
    ensures var w := MoveListings(v, k.dir, k.name, dp, k.name);
            Overlay(Step(t, k.dir, k.name, dp, k.name).value, w, gone', roots, owner) && Lossy(w, gone', roots, y)
  {
    StepAfterMove(t, k.dir, k.name, dp, m, x);
    gone' := OverlayPlainMove(t, v, gone, roots, owner, k.dir, k.name, dp);
    LossyAfter(v, gone, roots, k, dp, m, x, y);
  }

  lemma LossyAfter(v: FS, gone: set<Id>, roots: map<DriveId, Id>, k: Source, dp: Id, m: string, x: Id, y: Id)
    requires WellFormed(v) && RootsOk(v, roots) && CountsOk(v, roots) && Unnamed(v, roots, gone)
    requires Movable(v, k.dir, k.name, dp, k.name) && k.dir != dp
    requires |v[dp].content.entries| == 1 && v[dp].content.entries[0].name == m && v[dp].content.entries[0].ino == x
    requires Lossy(v, gone, roots, y) || y == x
    ensures Lossy(MoveListings(v, k.dir, k.name, dp, k.name), gone, roots, y)
  {
    if Lossy(v, gone, roots, y) {
      MoveStaysLossy(v, gone, roots, k.dir, k.name, dp, y);
    } else {
      MoveLoses(v, gone, roots, k.dir, k.name, dp, m, y);
    }
  }

  lemma BatchOwners(fs: FS, roots: map<DriveId, Id>, owner: map<Id, DriveId>, d: DriveId,
                    srcPaths: seq<string>, dstPath: string, srcs: seq<Source>, dp: Id)
    requires Inv(fs, roots, owner) && d in roots && BatchOf(fs, roots[d], srcPaths, dstPath, srcs, dp)
    ensures OneDrive(srcs, dp, owner)
  {
    ResolvePlace(fs, roots[d], dstPath, true);
    AtOwner(fs, roots, owner, d, ResolvePath(fs, roots[d], dstPath, true).value.place);
    GatherOwners(fs, roots, owner, d, srcPaths, {});
  }

  /** A batch keeps exact link counts iff every source was in place, or all but the last
      were and moving that one drops nothing. */
  lemma BatchKeepsExact(fs: FS, roots: map<DriveId, Id>, owner: map<Id, DriveId>, d: DriveId,
                        srcPaths: seq<string>, dstPath: string, srcs: seq<Source>, dp: Id)
    requires Inv(fs, roots, owner) && Exact(fs, roots) && d in roots
    requires BatchOf(fs, roots[d], srcPaths, dstPath, srcs, dp) && MoveMany(fs, roots[d], srcPaths, dstPath).Ok?
    ensures Exact(MoveMany(fs, roots[d], srcPaths, dstPath).value.0.fs, roots) <==>
            var n := Leading(fs, srcs, dp);
            n == |srcs| || (n == |srcs| - 1 && Movable(fs, srcs[n].dir, srcs[n].name, dp, srcs[n].name)
                            && Lossless(fs, srcs[n].dir, srcs[n].name, dp, srcs[n].name))
  {
    var n := Leading(fs, srcs, dp);
    BatchReady(fs, roots, roots[d], srcPaths, dstPath, srcs, dp);
    if n == |srcs| {
      ApplyLeading(fs, srcs, dp);
      assert srcs[n..] == [];
    } else {
      var k := srcs[n];
      var u, rest := FirstMove(fs, srcs, dp);
      if rest == [] {
        MoveKeepsExact(fs, roots, owner, k.dir, k.name, dp, k.name);
      } else {
        BatchOwners(fs, roots, owner, d, srcPaths, dstPath, srcs, dp);
        RestLoses(fs, roots, owner, srcs, dp, u, rest);
      }
    }
  }

  lemma RestLoses(fs: FS, roots: map<DriveId, Id>, owner: map<Id, DriveId>, srcs: seq<Source>, dp: Id, u: Tree,
                  rest: seq<Source>)
    requires Inv(fs, roots, owner) && OneDrive(srcs, dp, owner) && Leading(fs, srcs, dp) < |srcs|
    requires AllReady(Tree(fs, fs), srcs, dp)
    requires var k := srcs[Leading(fs, srcs, dp)];
             Child(fs, k.dir, k.name).Some? && Step(Tree(fs, fs), k.dir, k.name, dp, k.name) == Ok(u)
             && Queue(u, rest, dp, k.name, Child(fs, k.dir, k.name).value)
    requires rest == srcs[Leading(fs, srcs, dp) + 1..] && rest != []
    ensures !Exact(Apply(u, rest, dp).value.0.fs, roots)
  {
    var k := srcs[Leading(fs, srcs, dp)];
    var x := Child(fs, k.dir, k.name).value;
    assert k in srcs && forall j | j in rest :: j in srcs;
    OverlayStart(fs, roots, owner);
    var v, gone := OverlayStep(Tree(fs, fs), fs, {}, roots, owner, k.dir, k.name, dp, k.name);
    ApplyLoses(u, v, gone, roots, owner, rest, dp, k.name, x, x);
    LinkLostIsInexact(Apply(u, rest, dp).value.0.fs, roots);
  }

  // ---------------------------------------------------------------- tombstones of a batch

  /** The references captured for the leading sources that are in place. */
  ghost function LeadingRefs(fs: FS, srcs: seq<Source>, dp: Id): set<Ref> {
    if Leading(fs, srcs, dp) == 0 then {} else EntryRefs(fs, dp, srcs[0].name) + LeadingRefs(fs, srcs[1..], dp)
  }

  lemma {:induction false} ApplyLeadingRefs(fs: FS, srcs: seq<Source>, dp: Id)
    requires AllReady(Tree(fs, fs), srcs, dp) && Apply(Tree(fs, fs), srcs, dp).Ok?
    ensures var rest := srcs[Leading(fs, srcs, dp)..];
            AllReady(Tree(fs, fs), rest, dp) && Apply(Tree(fs, fs), rest, dp).Ok?
            && SetOf(Apply(Tree(fs, fs), srcs, dp).value.1) ==
               LeadingRefs(fs, srcs, dp) + SetOf(Apply(Tree(fs, fs), rest, dp).value.1)
    decreases |srcs|
  {
    var n := Leading(fs, srcs, dp);
    if n > 0 {
      ApplyInPlace(fs, srcs, dp);
      assert srcs[1..][n - 1..] == srcs[n..];
      ApplyLeadingRefs(fs, srcs[1..], dp);
    } else {
      assert srcs[0..] == srcs;
    }
  }

  /** A source that is in place only adds its own reference. */
  lemma ApplyInPlace(fs: FS, srcs: seq<Source>, dp: Id)
    requires AllReady(Tree(fs, fs), srcs, dp) && Apply(Tree(fs, fs), srcs, dp).Ok? && Leading(fs, srcs, dp) > 0
    ensures var t := Tree(fs, fs);
            AllReady(t, srcs[1..], dp) && Apply(t, srcs[1..], dp).Ok?
            && SetOf(Apply(t, srcs, dp).value.1) == EntryRefs(fs, dp, srcs[0].name)
               + SetOf(Apply(t, srcs[1..], dp).value.1)
  {
    var t, k := Tree(fs, fs), srcs[0];
    ApplyHead(t, srcs, dp);
    StepOnStore(fs, k.dir, k.name, dp, k.name);
    CapturedIsEntry(fs, dp, k.name);
    SetOfConcat(Captured(t, dp, k.name), Apply(t, srcs[1..], dp).value.1);
  }

  /** The references a batch hands over: those in place, and that of the one overwritten entry. */
  lemma BatchRefs(fs: FS, srcs: seq<Source>, dp: Id)
    requires AllReady(Tree(fs, fs), srcs, dp) && Distinct(srcs) && Apply(Tree(fs, fs), srcs, dp).Ok?
    requires forall n :: Child(fs, dp, n) != Some(dp)
    ensures var n := Leading(fs, srcs, dp);
            SetOf(Apply(Tree(fs, fs), srcs, dp).value.1) ==
            LeadingRefs(fs, srcs, dp) + if n < |srcs| then EntryRefs(fs, dp, srcs[n].name) else {}
  {
    var n, t := Leading(fs, srcs, dp), Tree(fs, fs);
    ApplyLeadingRefs(fs, srcs, dp);
    if n < |srcs| {
      var k := srcs[n];
      var u, rest := FirstMove(fs, srcs, dp);
      assert srcs[n..][0] == k && srcs[n..][1..] == rest;
      ApplyHead(t, srcs[n..], dp);
      ApplyAfterMove(u, rest, dp, k.name, Child(fs, k.dir, k.name).value);
      CapturedIsEntry(fs, dp, k.name);
      assert Captured(t, dp, k.name) + [] == Captured(t, dp, k.name);
    } else {
      assert srcs[n..] == [];
    }
  }

  /** After the first move only rows of held directories may come back. */
  lemma {:induction false} QueueKeepsRows(t: Tree, srcs: seq<Source>, dp: Id, m: string, x: Id, y: Id)
    requires Queue(t, srcs, dp, m, x) && (y in t.held ==> !t.held[y].IsDir())
    ensures y in Apply(t, srcs, dp).value.0.fs <==> y in t.fs
    decreases |srcs|
  {
    if srcs != [] {
      var u, x' := QueueNext(t, srcs, dp, m, x);
      StepKeepsRow(t, srcs[0].dir, srcs[0].name, dp, m, x, y);
      QueueKeepsRows(u, srcs[1..], dp, srcs[0].name, x', y);
    }
  }

  lemma StepKeepsRow(t: Tree, sp: Id, sn: string, dp: Id, m: string, x: Id, y: Id)
    requires Ready(t, sp, dp) && IsName(sn) && Single(t, dp, m, x) && sn != m && Step(t, sp, sn, dp, sn).Ok?
    requires y in t.held ==> !t.held[y].IsDir()
    ensures var u := Step(t, sp, sn, dp, sn).value;
            (y in u.fs <==> y in t.fs) && (y in u.held ==> !u.held[y].IsDir())
  {
    StepAfterMove(t, sp, sn, dp, m, x);
  }

  lemma BatchDeletedRefs(fs: FS, srcs: seq<Source>, dp: Id)
    requires WellFormed(fs) && SingleLinkObjects(fs)
    requires AllReady(Tree(fs, fs), srcs, dp) && Distinct(srcs) && Apply(Tree(fs, fs), srcs, dp).Ok?
    requires forall n :: Child(fs, dp, n) != Some(dp)
    ensures var n := Leading(fs, srcs, dp);
            DeletedRefs(fs, Apply(Tree(fs, fs), srcs, dp).value.0.fs) ==
            if n < |srcs| then EntryRefs(fs, dp, srcs[n].name) else {}
  {
    var n, gs := Leading(fs, srcs, dp), Apply(Tree(fs, fs), srcs, dp).value.0.fs;
    if n < |srcs| {
      var k := srcs[n];
      var u, rest := FirstMove(fs, srcs, dp);
      forall y | y in fs && fs[y].Garbage().Some? ensures y in gs <==> y in u.fs {
        HeldAfterFirst(fs, k.dir, k.name, dp, u, y);
        QueueKeepsRows(u, rest, dp, k.name, Child(fs, k.dir, k.name).value, y);
      }
      SameDeletedRefs(fs, gs, u.fs);
      MoveDeletedRefs(fs, k.dir, k.name, dp, k.name);
    } else {
      ApplyLeading(fs, srcs, dp);
      assert srcs[n..] == [];
      assert DeletedRefs(fs, fs) == {};
    }
  }

  lemma HeldAfterFirst(fs: FS, sp: Id, sn: string, dp: Id, u: Tree, y: Id)
    requires sp in fs && dp in fs && fs[dp].IsDir() && IsName(sn) && Step(Tree(fs, fs), sp, sn, dp, sn) == Ok(u)
    requires !InPlace(fs, sp, sn, dp, sn) && y in fs && !fs[y].IsDir()
    ensures y in u.held && !u.held[y].IsDir()
  {
    StepOnStore(fs, sp, sn, dp, sn);
  }

  lemma SameDeletedRefs(fs: FS, gs: FS, hs: FS)
    requires forall y | y in fs && fs[y].Garbage().Some? :: y in gs <==> y in hs
    ensures DeletedRefs(fs, gs) == DeletedRefs(fs, hs)
  {
  }

  lemma {:induction false} LeadingRefIsObject(fs: FS, srcs: seq<Source>, dp: Id, r: Ref) returns (i: nat)
    requires r in LeadingRefs(fs, srcs, dp)
    ensures i < Leading(fs, srcs, dp) && r in EntryRefs(fs, dp, srcs[i].name)
    decreases |srcs|
  {
    if r in EntryRefs(fs, dp, srcs[0].name) {
      i := 0;
    } else {
      i := LeadingRefIsObject(fs, srcs[1..], dp, r);
      i := i + 1;
    }
  }

  /** Different entries of one listing name different objects, with different references. */
  lemma EntryRefsDiffer(fs: FS, roots: map<DriveId, Id>, dp: Id, m: string, n: string, r: Ref)
    requires RootsOk(fs, roots) && CountsOk(fs, roots) && SingleLinkObjects(fs) && DistinctRefs(fs)
    requires m != n && r in EntryRefs(fs, dp, m)
    ensures r !in EntryRefs(fs, dp, n)
  {
    if r in EntryRefs(fs, dp, n) {
      var x := Child(fs, dp, m).value;
      assert Child(fs, dp, n).value == x;
      var k, l := Link(dp, m, x), Link(dp, n, x);
      assert k in Links(fs) && l in Links(fs);
      assert CountOk(fs[x], |To(Links(fs), x)|);
      AtMostOne(To(Links(fs), x), k, l);
    }
  }

  /** With one link for each object and one object for each reference, the tombstones of a
      batch are exactly the references of the objects it deleted iff no source that was in
      place is an object. */
  lemma BatchTombstones(fs: FS, roots: map<DriveId, Id>, root: Id, srcPaths: seq<string>, dstPath: string,
                        srcs: seq<Source>, dp: Id)
    requires WellFormed(fs) && RootsOk(fs, roots) && CountsOk(fs, roots) && IsRoot(roots, root)
    requires SingleLinkObjects(fs) && DistinctRefs(fs)
    requires BatchOf(fs, root, srcPaths, dstPath, srcs, dp) && MoveMany(fs, root, srcPaths, dstPath).Ok?
    ensures var r := MoveMany(fs, root, srcPaths, dstPath).value;
            SetOf(r.1) == DeletedRefs(fs, r.0.fs) <==> LeadingRefs(fs, srcs, dp) == {}
  {
    BatchReady(fs, roots, root, srcPaths, dstPath, srcs, dp);
    BatchRefs(fs, srcs, dp);
    BatchDeletedRefs(fs, srcs, dp);
    var n := Leading(fs, srcs, dp);
    if r :| r in LeadingRefs(fs, srcs, dp) {
      var i := LeadingRefIsObject(fs, srcs, dp, r);
      if n < |srcs| { EntryRefsDiffer(fs, roots, dp, srcs[i].name, srcs[n].name, r); }
    }
  }
}

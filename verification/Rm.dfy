/** internal/vfs/rm.go, and Unmount of internal/vfs/mount.go. */
module Remove {
  import opened Paths
  import opened Inodes
  import opened Graph
  import opened Walk
  import opened Removal
  import opened Moves
  import opened NodeOps
  import opened Transactions
  import opened Resolvers
  import opened Vfs

  /** The unlinked entry is the one resolveParent points at. */
  ghost predicate LeafCut(fs: FS, gs: FS, root: Id, path: string) {
    HasLeaf(fs, root, path) && LeafLink(fs, root, path) in Links(fs) && LeafLink(fs, root, path).ino in fs
    && gs == Cut(fs, {LeafLink(fs, root, path)})
  }

  /** The step rm and Unmount share: the parent is resolved anew, and the last name
      unlinked from it. */
  method UnlinkLeaf(s: Service, resolver: Resolver, rootID: Id, path: string, f: Faults)
      returns (r: Result<Option<Handle>>)
    requires s.Valid() && IsRoot(s.roots, rootID) && resolver.client == s.nodes && resolver.Coherent()
    modifies s.nodes.db, resolver, resolver.cache.Values
    ensures s.Valid() && s.Quiet() && Pared(old(s.nodes.db.fs), s.nodes.db.fs, rootID)
    ensures r.Ok? <==> HasLeaf(old(s.nodes.db.fs), rootID, path) && old(s.nodes.db.Lasts(f))
    ensures r.Ok? ==>
              LeafCut(old(s.nodes.db.fs), s.nodes.db.fs, rootID, path)
              && var n := old(s.nodes.db.fs)[LeafLink(old(s.nodes.db.fs), rootID, path).ino];
                 (r.value.Some? <==> n.nlink <= 1) && (r.value.Some? ==> r.value.value.inode.Garbage() == n.Garbage())
    ensures r.Err? ==> s.nodes.db.fs == old(s.nodes.db.fs)
  {
    ghost var fs := s.nodes.db.fs;
    ParedItself(fs, rootID);
    var at := resolver.ResolveParent(rootID, path);
    if at.Err? { return Err(at.error); }
    r := s.nodes.Unlink(at.value.0, at.value.1, f);
    if r.Ok? { UnlinkKeeps(fs, s.roots, s.owner, rootID, path); }
  }

  /** rm: unlinks the entry a path names. The reference returned is that of the deleted
      inode or, when links remain, of the inode n the caller resolved. */
  method RmLeaf(s: Service, rootID: Id, n: Handle, path: string, f: Faults) returns (r: Result<seq<Ref>>)
    requires s.Valid() && s.nodes.db.open && IsRoot(s.roots, rootID)
    modifies s.nodes.db
    ensures s.Valid() && s.Quiet()
    ensures r.Ok? <==> HasLeaf(old(s.nodes.db.fs), rootID, path)
    ensures r.Ok? ==>
              var fs := old(s.nodes.db.fs);
              LeafCut(fs, s.nodes.db.fs, rootID, path)
              && var x := LeafLink(fs, rootID, path).ino;
                 r.value == RefsOf(if fs[x].nlink <= 1 then fs[x] else n.inode)
    ensures r.Err? ==> s.nodes.db.fs == old(s.nodes.db.fs)
  {
    var resolver := new Resolver(s.nodes);
    var deleted := UnlinkLeaf(s, resolver, rootID, path, f);
    if deleted.Err? { return Err(deleted.error); }
    var target := if deleted.value.Some? then deleted.value.value.inode else n.inode;
    if !target.content.Object? { return Ok([]); }
    var oc := target.content.obj;
    if oc.bucket == "" || oc.key == "" { return Ok([]); }
    return Ok([oc]);
  }

  lemma UnlinkKeeps(fs: FS, roots: map<DriveId, Id>, owner: map<Id, DriveId>, root: Id, path: string)
    requires Inv(fs, roots, owner) && HasLeaf(fs, root, path) && LeafLink(fs, root, path) in Links(fs)
    ensures var gs := Cut(fs, {LeafLink(fs, root, path)}); Inv(gs, roots, owner) && Pared(fs, gs, root)
  {
    CutKeepsInv(fs, roots, owner, {LeafLink(fs, root, path)});
    LeafPares(fs, root, path);
  }

  lemma LeafPares(fs: FS, root: Id, path: string)
    requires HasLeaf(fs, root, path) && LeafLink(fs, root, path) in Links(fs)
    ensures Pared(fs, Cut(fs, {LeafLink(fs, root, path)}), root)
  {
    var place := ParentPlace(fs, root, path);
    assert Pares(fs, Cut(fs, {LeafLink(fs, root, path)}), root, {LeafLink(fs, root, path)});
  }

  lemma WithinItself(fs: FS)
    ensures Within(fs, fs)
  {
  }

  /** A property of stores that the removal of any single entry keeps. */
  ghost predicate StepKept(keeps: FS -> bool, root: Id) {
    forall fs, gs, path :: keeps(fs) && LeafCut(fs, gs, root, path) ==> keeps(gs)
  }

  lemma LeafKept(keeps: FS -> bool, cur: FS, gs: FS, base: FS, root: Id, path: string, r: Result<seq<Ref>>)
    requires StepKept(keeps, root) && keeps(cur) && Within(cur, base)
    requires if r.Ok? then LeafCut(cur, gs, root, path) else gs == cur
    ensures keeps(gs) && Within(gs, base)
  {
    if r.Ok? {
      CutWithin(cur, {LeafLink(cur, root, path)});
      WithinTransitive(gs, cur, base);
    }
  }

  /** Removing entries one by one only ever pares the store down. */
  lemma ParingKept(fs: FS, roots: map<DriveId, Id>, root: Id)
    requires TreeOk(fs, roots, root)
    ensures StepKept(gs => Pared(fs, gs, root), root) && Pared(fs, fs, root)
  {
    ParedItself(fs, root);
    forall gs, hs, path | Pared(fs, gs, root) && LeafCut(gs, hs, root, path) ensures Pared(fs, hs, root) {
      LeafPares(gs, root, path);
      ParedTwice(fs, gs, hs, roots, root);
    }
  }

  lemma WithinTransitive(a: FS, b: FS, c: FS)
    requires Within(a, b) && Within(b, c)
    ensures Within(a, c)
  {
    forall x | x in a && a[x].IsDir()
      ensures forall n :: Find(a[x].content.entries, n).Some? ==>
                Find(c[x].content.entries, n).Some?
                && Find(c[x].content.entries, n).value.ino == Find(a[x].content.entries, n).value.ino
    {
      assert b[x].IsDir() && c[x].IsDir();
    }
  }

  // ---------------------------------------------------------------- rm -r

  /** base is the store rm -r started on; the directory n sits at q there and now, and the
      path string still says how to get to it. */
  ghost predicate Tracked(base: FS, fs: FS, root: Id, path: string, n: Id, inode: Inode, q: seq<string>) {
    TidyStore(base) && AllTidy(Split(path)) && ResolvePath(base, root, path, true) == Ok(Found(n, q, []))
    && At(fs, root, q) == Some(n) && n in fs && fs[n] == inode
  }

  /** Exactly the entries at and below q went, and the entry the path names. */
  ghost predicate Pruned(base: FS, fs: FS, gs: FS, root: Id, path: string, q: seq<string>, refs: seq<Ref>) {
    HasLeaf(base, root, path)
    && var c := SubLinks(fs, root, q) + {LeafLink(base, root, path)};
       c <= Links(fs) && gs == Cut(fs, c) && SetOf(refs) == Garbage(fs, c)
  }

  ghost predicate Snapshot(base: FS, n: Id, inode: Inode) {
    n in base && base[n].IsDir() && inode.IsDir() && UniqueNames(inode.content.entries)
    && forall e | e in inode.content.entries :: IsName(e.name) && Child(base, n, e.name) == Some(e.ino)
  }

  /** The path leads somewhere. */
  ghost predicate Reaches(fs: FS, root: Id, path: string) { ResolvePath(fs, root, path, true).Ok? }

  /** What is gone below q when the entry i is unlinked. */
  ghost function Turn(fs: FS, root: Id, q: seq<string>, es: seq<Entry>, i: nat): set<Link>
    requires i < |es|
  {
    Done(fs, root, q, EntryNames(es[..i])) + SubLinks(fs, root, q + [es[i].name])
  }

  /** The path leads there when the entry i is unlinked. */
  ghost predicate InTurn(fs: FS, root: Id, path: string, es: seq<Entry>, q: seq<string>, i: nat)
    requires i < |es|
  {
    Reaches(Cut(fs, Turn(fs, root, q, es, i)), root, path)
  }

  ghost predicate EntriesGo(fs: FS, root: Id, path: string, es: seq<Entry>, q: seq<string>) {
    forall i | 0 <= i < |es| :: InTurn(fs, root, path, es, q, i)
  }

  /** rm -r of the directory at q, with entries es, gets through: the path still leads there
      when each entry is unlinked, and then names an entry itself. */
  ghost predicate TreeGoes(fs: FS, root: Id, path: string, es: seq<Entry>, q: seq<string>) {
    EntriesGo(fs, root, path, es, q) && HasLeaf(Cut(fs, SubLinks(fs, root, q)), root, path)
  }

  method RmRecursive(s: Service, rootID: Id, n: Handle, path: string, f: Faults, ghost base: FS,
                     ghost keeps: FS -> bool, ghost q: seq<string>)
      returns (r: Result<seq<Ref>>)
    requires s.Valid() && s.nodes.db.open && TreeOk(base, s.roots, rootID) && Within(s.nodes.db.fs, base)
    requires StepKept(keeps, rootID) && keeps(s.nodes.db.fs)
    requires At(base, rootID, q) == Some(n.id) && Snapshot(base, n.id, n.inode)
    modifies s.nodes.db
    ensures s.Valid() && s.Quiet() && Within(s.nodes.db.fs, base) && keeps(s.nodes.db.fs)
    ensures r.Ok? ==> HasLeaf(base, rootID, path)
    ensures Tracked(base, old(s.nodes.db.fs), rootID, path, n.id, n.inode, q) ==>
              (r.Ok? ==> Pruned(base, old(s.nodes.db.fs), s.nodes.db.fs, rootID, path, q, r.value))
              && (r.Ok? <==> TreeGoes(old(s.nodes.db.fs), rootID, path, n.inode.content.entries, q))
    decreases |base| - |q|, 2
  {
    ghost var fs := s.nodes.db.fs;
    r := RmEntries(s, rootID, n, path, f, fs, base, keeps, q);
    if r.Ok? {
      ghost var cur := s.nodes.db.fs;
      if Tracked(base, fs, rootID, path, n.id, n.inode, q) {
        AllDone(base, fs, cur, rootID, path, n.id, n.inode, q, r.value);
      }
      var last := RmLeaf(s, rootID, n, path, f);
      LeafKept(keeps, cur, s.nodes.db.fs, base, rootID, path, last);
      if last.Ok? {
        SameLeaf(base, cur, rootID, path);
        if Tracked(base, fs, rootID, path, n.id, n.inode, q) {
          FinishPruning(base, fs, cur, s.nodes.db.fs, s.roots, rootID, path, n.id, n.inode, q, r.value, last.value);
        }
        r := Ok(r.value + last.value);
      } else {
        r := last;
      }
    }
  }

  /** The loop over the entries the directory listed when it was loaded. */
  method RmEntries(s: Service, rootID: Id, n: Handle, path: string, f: Faults, ghost fs: FS, ghost base: FS,
                   ghost keeps: FS -> bool, ghost q: seq<string>)
      returns (r: Result<seq<Ref>>)
    requires s.Valid() && s.nodes.db.open && TreeOk(base, s.roots, rootID) && Within(s.nodes.db.fs, base)
    requires StepKept(keeps, rootID) && keeps(s.nodes.db.fs)
    requires At(base, rootID, q) == Some(n.id) && Snapshot(base, n.id, n.inode)
    requires fs == s.nodes.db.fs
    modifies s.nodes.db
    ensures s.Valid() && s.Quiet() && Within(s.nodes.db.fs, base) && keeps(s.nodes.db.fs)
    ensures Tracked(base, fs, rootID, path, n.id, n.inode, q) ==>
              (r.Ok? ==> PartlyPruned(fs, s.nodes.db.fs, rootID, q, EntryNames(n.inode.content.entries), r.value))
              && (r.Ok? <==> EntriesGo(fs, rootID, path, n.inode.content.entries, q))
    decreases |base| - |q|, 1
  {
    ghost var tracked := Tracked(base, fs, rootID, path, n.id, n.inode, q);
    var es := n.inode.content.entries;
    var allRefs: seq<Ref> := [];
    EntriesStart(fs, rootID, path, es, q);
    for i := 0 to |es|
      invariant s.Valid() && s.Quiet() && Within(s.nodes.db.fs, base) && keeps(s.nodes.db.fs)
      invariant tracked ==> EntriesGone(fs, s.nodes.db.fs, rootID, path, es, q, i, allRefs)
    {
      var refs := RmChild(s, rootID, n, path, i, f, fs, base, keeps, q, allRefs);
      if refs.Err? { return refs; }
      allRefs := allRefs + refs.value;
    }
    if tracked { EntriesEnd(fs, s.nodes.db.fs, rootID, path, es, q, allRefs); }
    return Ok(allRefs);
  }

  /** The entries behind names are gone, and refs are their references. */
  ghost predicate PartlyPruned(fs: FS, gs: FS, root: Id, q: seq<string>, names: set<string>, refs: seq<Ref>) {
    gs == Cut(fs, Done(fs, root, q, names)) && SetOf(refs) == Garbage(fs, Done(fs, root, q, names))
  }

  /** The first i entries are gone, and so the path led there at each turn. */
  ghost predicate EntriesGone(fs: FS, gs: FS, root: Id, path: string, es: seq<Entry>, q: seq<string>, i: nat,
                              refs: seq<Ref>) {
    i <= |es| && PartlyPruned(fs, gs, root, q, EntryNames(es[..i]), refs)
    && forall k | 0 <= k < i :: InTurn(fs, root, path, es, q, k)
  }

  lemma EntriesStart(fs: FS, root: Id, path: string, es: seq<Entry>, q: seq<string>)
    ensures EntriesGone(fs, fs, root, path, es, q, 0, [])
  {
    assert es[..0] == [] && EntryNames([]) == {} && SetOf([]) == {};
    DoneNothing(fs, root, q);
    CutNothing(fs);
    assert Garbage(fs, {}) == {};
  }

  lemma EntriesEnd(fs: FS, gs: FS, root: Id, path: string, es: seq<Entry>, q: seq<string>, refs: seq<Ref>)
    requires EntriesGone(fs, gs, root, path, es, q, |es|, refs)
    ensures PartlyPruned(fs, gs, root, q, EntryNames(es), refs) && EntriesGo(fs, root, path, es, q)
  {
    assert es[..|es|] == es;
  }

  /** One turn of the loop over the entries: the child is loaded, and removed by a path
      that is resolved anew. */
  method RmChild(s: Service, rootID: Id, n: Handle, path: string, i: nat, f: Faults,
                 ghost fs: FS, ghost base: FS, ghost keeps: FS -> bool, ghost q: seq<string>, ghost before: seq<Ref>)
      returns (r: Result<seq<Ref>>)
    requires s.Valid() && s.nodes.db.open && TreeOk(base, s.roots, rootID) && Within(s.nodes.db.fs, base)
             && TreeOk(fs, s.roots, rootID)
    requires StepKept(keeps, rootID) && keeps(s.nodes.db.fs)
    requires At(base, rootID, q) == Some(n.id) && Snapshot(base, n.id, n.inode) && i < |n.inode.content.entries|
    modifies s.nodes.db
    ensures s.Valid() && s.Quiet() && Within(s.nodes.db.fs, base) && keeps(s.nodes.db.fs)
    ensures AtStep(base, fs, old(s.nodes.db.fs), s.roots, rootID, path, n.id, n.inode, q, i, before) ==>
              (r.Ok? ==>
                 PartlyPruned(fs, s.nodes.db.fs, rootID, q, EntryNames(n.inode.content.entries[..i + 1]),
                              before + r.value))
              && (r.Ok? <==> InTurn(fs, rootID, path, n.inode.content.entries, q, i))
    decreases |base| - |q|, 0
  {
    var e := n.inode.content.entries[i];
    ghost var cur := s.nodes.db.fs;
    var loaded := s.nodes.GetByID(e.ino);
    if loaded.Err? {
      if AtStep(base, fs, s.nodes.db.fs, s.roots, rootID, path, n.id, n.inode, q, i, before) {
        NextChild(base, fs, s.nodes.db.fs, s.roots, rootID, path, n.id, n.inode, q, i, before);
      }
      return Err(loaded.error);
    }
    if loaded.value.inode.IsDir() {
      r := RmChildDir(s, rootID, n, loaded.value, path, i, f, fs, cur, base, keeps, q, before);
    } else {
      r := RmChildLeaf(s, rootID, n, loaded.value, path, i, f, fs, cur, base, keeps, q, before);
    }
  }

  method RmChildDir(s: Service, rootID: Id, n: Handle, child: Handle, path: string, i: nat, f: Faults,
                    ghost fs: FS, ghost cur: FS, ghost base: FS, ghost keeps: FS -> bool, ghost q: seq<string>,
                    ghost before: seq<Ref>)
      returns (r: Result<seq<Ref>>)
    requires s.Valid() && s.nodes.db.open && TreeOk(base, s.roots, rootID) && Within(s.nodes.db.fs, base)
    requires StepKept(keeps, rootID) && keeps(s.nodes.db.fs)
    requires At(base, rootID, q) == Some(n.id) && Snapshot(base, n.id, n.inode)
    requires i < |n.inode.content.entries| && child.id == n.inode.content.entries[i].ino
    requires child.id in s.nodes.db.fs && child.inode == s.nodes.db.fs[child.id] && child.inode.IsDir()
    requires cur == s.nodes.db.fs
    modifies s.nodes.db
    ensures s.Valid() && s.Quiet() && Within(s.nodes.db.fs, base) && keeps(s.nodes.db.fs)
    ensures AtStep(base, fs, cur, s.roots, rootID, path, n.id, n.inode, q, i, before) ==>
              (r.Ok? ==>
                 PartlyPruned(fs, s.nodes.db.fs, rootID, q, EntryNames(n.inode.content.entries[..i + 1]),
                              before + r.value))
              && (r.Ok? <==> InTurn(fs, rootID, path, n.inode.content.entries, q, i))
    decreases |base| - |q|, 0, 0
  {
    var e := n.inode.content.entries[i];
    DescendInto(base, cur, s.roots, rootID, q, n.id, n.inode, i);
    r := RmRecursive(s, rootID, child, ChildPath(path, e.name), f, base, keeps, q + [e.name]);
    DirAdvances(base, fs, cur, s.nodes.db.fs, s.roots, rootID, path, n.id, n.inode, q, i, before, r);
  }

  method RmChildLeaf(s: Service, rootID: Id, n: Handle, child: Handle, path: string, i: nat, f: Faults,
                     ghost fs: FS, ghost cur: FS, ghost base: FS, ghost keeps: FS -> bool, ghost q: seq<string>,
                     ghost before: seq<Ref>)
      returns (r: Result<seq<Ref>>)
    requires s.Valid() && s.nodes.db.open && TreeOk(base, s.roots, rootID) && Within(s.nodes.db.fs, base)
    requires StepKept(keeps, rootID) && keeps(s.nodes.db.fs)
    requires n.inode.IsDir() && i < |n.inode.content.entries| && child.id == n.inode.content.entries[i].ino
    requires child.id in s.nodes.db.fs && child.inode == s.nodes.db.fs[child.id] && !child.inode.IsDir()
    requires cur == s.nodes.db.fs
    modifies s.nodes.db
    ensures s.Valid() && s.Quiet() && Within(s.nodes.db.fs, base) && keeps(s.nodes.db.fs)
    ensures AtStep(base, fs, cur, s.roots, rootID, path, n.id, n.inode, q, i, before) ==>
              (r.Ok? ==>
                 PartlyPruned(fs, s.nodes.db.fs, rootID, q, EntryNames(n.inode.content.entries[..i + 1]),
                              before + r.value))
              && (r.Ok? <==> InTurn(fs, rootID, path, n.inode.content.entries, q, i))
  {
    var childPath := ChildPath(path, n.inode.content.entries[i].name);
    r := RmLeaf(s, rootID, child, childPath, f);
    LeafKept(keeps, cur, s.nodes.db.fs, base, rootID, childPath, r);
    LeafAdvances(base, fs, cur, s.nodes.db.fs, s.roots, rootID, path, n.id, n.inode, q, i, before, r);
  }

  // ---------------------------------------------------------------- rm -r, step by step

  lemma LoadedSnapshot(fs: FS, base: FS, c: Id)
    requires WellFormed(fs) && Within(fs, base) && c in fs && fs[c].IsDir()
    ensures Snapshot(base, c, fs[c])
  {
    forall e | e in fs[c].content.entries ensures IsName(e.name) && Child(base, c, e.name) == Some(e.ino) {
      FindUnique(fs[c].content.entries, e);
    }
  }

  /** What the recursive call on a subdirectory needs to know. */
  lemma DescendInto(base: FS, cur: FS, roots: map<DriveId, Id>, root: Id, q: seq<string>, n: Id, inode: Inode, i: nat)
    requires TreeOk(base, roots, root) && WellFormed(cur) && Within(cur, base)
    requires At(base, root, q) == Some(n) && Snapshot(base, n, inode) && i < |inode.content.entries|
    requires var c := inode.content.entries[i].ino; c in cur && cur[c].IsDir()
    ensures var e := inode.content.entries[i];
            At(base, root, q + [e.name]) == Some(e.ino) && Snapshot(base, e.ino, cur[e.ino])
    ensures |q| + 1 <= |base|
  {
    AtSnoc(base, root, q, inode.content.entries[i].name);
    LoadedSnapshot(cur, base, inode.content.entries[i].ino);
    PathShorterThanStore(base, roots, root, q);
  }

  /** The state in the middle of the loop. */
  ghost predicate AtStep(base: FS, fs: FS, cur: FS, roots: map<DriveId, Id>, root: Id, path: string, n: Id,
                         inode: Inode, q: seq<string>, i: nat, before: seq<Ref>) {
    TreeOk(base, roots, root) && TreeOk(fs, roots, root) && WellFormed(cur) && Within(cur, base)
    && Tracked(base, fs, root, path, n, inode, q) && Snapshot(base, n, inode)
    && i < |inode.content.entries|
    && PartlyPruned(fs, cur, root, q, EntryNames(inode.content.entries[..i]), before)
  }

  lemma EntryNamesStep(es: seq<Entry>, i: nat)
    requires i < |es| && UniqueNames(es)
    ensures es[i].name !in EntryNames(es[..i])
    ensures EntryNames(es[..i + 1]) == EntryNames(es[..i]) + {es[i].name}
  {
    assert es[..i + 1] == es[..i] + [es[i]];
  }

  /** The directory is where it was, and still lists the child. */
  lemma NextChild(base: FS, fs: FS, cur: FS, roots: map<DriveId, Id>, root: Id, path: string, n: Id, inode: Inode,
                  q: seq<string>, i: nat, before: seq<Ref>)
    requires AtStep(base, fs, cur, roots, root, path, n, inode, q, i, before)
    ensures var e := inode.content.entries[i];
            At(cur, root, q) == Some(n) && Child(cur, n, e.name) == Some(e.ino) && Child(fs, n, e.name) == Some(e.ino)
            && e.ino in cur && Tidy(e.name)
  {
    var es, e := inode.content.entries, inode.content.entries[i];
    FindUnique(es, e);
    EntryNamesStep(es, i);
    AtSnoc(fs, root, q, e.name);
    PlaceStable(fs, roots, root, q, EntryNames(es[..i]), q);
    PlaceStable(fs, roots, root, q, EntryNames(es[..i]), q + [e.name]);
    AtSnoc(cur, root, q, e.name);
    LinkTarget(cur, Link(n, e.name, e.ino));
    assert Link(n, e.name, e.ino) in Links(base);
  }

  /** The child's path resolves to the child, and its parent to the directory. */
  lemma ChildResolves(base: FS, root: Id, path: string, n: Id, q: seq<string>, name: string, c: Id)
    requires TidyTargets(base) && AllTidy(Split(path)) && ResolvePath(base, root, path, true) == Ok(Found(n, q, []))
    requires IsName(name) && Tidy(name) && Child(base, n, name) == Some(c) && c in base
    ensures var cp := ChildPath(path, name);
            AllTidy(Split(cp)) && Comps(cp) == Comps(path) + [name]
            && ResolveParent(base, root, cp) == Ok((n, name))
            && (!base[c].content.Symlink? ==> ResolvePath(base, root, cp, true) == Ok(Found(c, q + [name], [])))
  {
    var cp := ChildPath(path, name);
    ChildPathComps(path, name);
    CompsTidy(cp);
    if !base[c].content.Symlink? { LockStep(base, root, cp, c); }
  }

  lemma ChildTracked(base: FS, fs: FS, cur: FS, roots: map<DriveId, Id>, root: Id, path: string, n: Id, inode: Inode,
                     q: seq<string>, i: nat, before: seq<Ref>)
    requires AtStep(base, fs, cur, roots, root, path, n, inode, q, i, before)
    requires var c := inode.content.entries[i].ino; c in cur && cur[c].IsDir()
    ensures var e := inode.content.entries[i];
            Tracked(base, cur, root, ChildPath(path, e.name), e.ino, cur[e.ino], q + [e.name])
            && Comps(ChildPath(path, e.name)) == Comps(path) + [e.name]
  {
    var e := inode.content.entries[i];
    NextChild(base, fs, cur, roots, root, path, n, inode, q, i, before);
    AtSnoc(cur, root, q, e.name);
    ChildResolves(base, root, path, n, q, e.name, e.ino);
  }

  /** A step that removed the child's entry and all below it extends what is pruned. */
  lemma StepPruned(fs: FS, cur: FS, gs: FS, roots: map<DriveId, Id>, root: Id, q: seq<string>, n: Id,
                   names: set<string>, a: string, c: Id, before: seq<Ref>, refs: seq<Ref>)
    requires TreeOk(fs, roots, root) && At(fs, root, q) == Some(n) && Child(fs, n, a) == Some(c) && a !in names
    requires PartlyPruned(fs, cur, root, q, names, before)
    requires var d := SubLinks(cur, root, q + [a]) + {Link(n, a, c)};
             d <= Links(cur) && gs == Cut(cur, d) && SetOf(refs) == Garbage(cur, d)
    ensures PartlyPruned(fs, gs, root, q, names + {a}, before + refs)
  {
    RemoveNext(fs, roots, root, q, n, names, a, c, cur, gs);
    SetOfConcat(before, refs);
  }

  lemma DirPruned(base: FS, fs: FS, cur: FS, gs: FS, roots: map<DriveId, Id>, root: Id, path: string, n: Id,
                  inode: Inode, q: seq<string>, i: nat, before: seq<Ref>, refs: seq<Ref>)
    requires AtStep(base, fs, cur, roots, root, path, n, inode, q, i, before)
    requires var e := inode.content.entries[i];
             Pruned(base, cur, gs, root, ChildPath(path, e.name), q + [e.name], refs)
    ensures PartlyPruned(fs, gs, root, q, EntryNames(inode.content.entries[..i + 1]), before + refs)
  {
    var e := inode.content.entries[i];
    NextChild(base, fs, cur, roots, root, path, n, inode, q, i, before);
    ChildResolves(base, root, path, n, q, e.name, e.ino);
    EntryNamesStep(inode.content.entries, i);
    StepPruned(fs, cur, gs, roots, root, q, n, EntryNames(inode.content.entries[..i]), e.name, e.ino, before, refs);
  }

  lemma DirAdvances(base: FS, fs: FS, cur: FS, gs: FS, roots: map<DriveId, Id>, root: Id, path: string, n: Id,
                    inode: Inode, q: seq<string>, i: nat, before: seq<Ref>, r: Result<seq<Ref>>)
    requires inode.IsDir() && i < |inode.content.entries|
    requires var e := inode.content.entries[i]; var cp := ChildPath(path, e.name);
             e.ino in cur && cur[e.ino].IsDir()
             && (Tracked(base, cur, root, cp, e.ino, cur[e.ino], q + [e.name]) ==>
                   (r.Ok? ==> Pruned(base, cur, gs, root, cp, q + [e.name], r.value))
                   && (r.Ok? <==> TreeGoes(cur, root, cp, cur[e.ino].content.entries, q + [e.name])))
    ensures AtStep(base, fs, cur, roots, root, path, n, inode, q, i, before) ==>
              (r.Ok? ==> PartlyPruned(fs, gs, root, q, EntryNames(inode.content.entries[..i + 1]), before + r.value))
              && (r.Ok? <==> InTurn(fs, root, path, inode.content.entries, q, i))
  {
    if AtStep(base, fs, cur, roots, root, path, n, inode, q, i, before) {
      ChildTracked(base, fs, cur, roots, root, path, n, inode, q, i, before);
      ChildGoes(base, fs, cur, roots, root, path, n, inode, q, i, before);
      if r.Ok? { DirPruned(base, fs, cur, gs, roots, root, path, n, inode, q, i, before, r.value); }
    }
  }

  lemma LeafGarbage(fs: FS, l: Link)
    requires l.ino in fs
    ensures SetOf(RefsOf(fs[l.ino])) == Garbage(fs, {l})
  {
  }

  lemma LeafPruned(base: FS, fs: FS, cur: FS, gs: FS, roots: map<DriveId, Id>, root: Id, path: string, n: Id,
                   inode: Inode, q: seq<string>, i: nat, before: seq<Ref>, refs: seq<Ref>)
    requires AtStep(base, fs, cur, roots, root, path, n, inode, q, i, before)
    requires var e := inode.content.entries[i];
             e.ino in cur && !cur[e.ino].IsDir() && LeafCut(cur, gs, root, ChildPath(path, e.name))
             && refs == RefsOf(if cur[LeafLink(cur, root, ChildPath(path, e.name)).ino].nlink <= 1
                               then cur[LeafLink(cur, root, ChildPath(path, e.name)).ino] else cur[e.ino])
    ensures PartlyPruned(fs, gs, root, q, EntryNames(inode.content.entries[..i + 1]), before + refs)
  {
    var e := inode.content.entries[i];
    NextChild(base, fs, cur, roots, root, path, n, inode, q, i, before);
    ChildLeaf(base, cur, root, path, n, q, e);
    EntryNamesStep(inode.content.entries, i);
    LeafStep(fs, cur, gs, roots, root, q, n, EntryNames(inode.content.entries[..i]), e.name, e.ino, before, refs);
  }

  lemma LeafAdvances(base: FS, fs: FS, cur: FS, gs: FS, roots: map<DriveId, Id>, root: Id, path: string, n: Id,
                     inode: Inode, q: seq<string>, i: nat, before: seq<Ref>, r: Result<seq<Ref>>)
    requires inode.IsDir() && i < |inode.content.entries| && root in cur
    requires var e := inode.content.entries[i]; var cp := ChildPath(path, e.name);
             e.ino in cur && !cur[e.ino].IsDir() && (r.Ok? <==> HasLeaf(cur, root, cp))
             && (r.Ok? ==> LeafCut(cur, gs, root, cp)
                           && var x := LeafLink(cur, root, cp).ino;
                              r.value == RefsOf(if cur[x].nlink <= 1 then cur[x] else cur[e.ino]))
    ensures AtStep(base, fs, cur, roots, root, path, n, inode, q, i, before) ==>
              (r.Ok? ==> PartlyPruned(fs, gs, root, q, EntryNames(inode.content.entries[..i + 1]), before + r.value))
              && (r.Ok? <==> InTurn(fs, root, path, inode.content.entries, q, i))
  {
    if AtStep(base, fs, cur, roots, root, path, n, inode, q, i, before) {
      LeafGoes(base, fs, cur, roots, root, path, n, inode, q, i, before);
      if r.Ok? { LeafPruned(base, fs, cur, gs, roots, root, path, n, inode, q, i, before, r.value); }
    }
  }

  lemma LeafStep(fs: FS, cur: FS, gs: FS, roots: map<DriveId, Id>, root: Id, q: seq<string>, n: Id,
                 names: set<string>, a: string, c: Id, before: seq<Ref>, refs: seq<Ref>)
    requires TreeOk(fs, roots, root) && At(fs, root, q) == Some(n) && Child(fs, n, a) == Some(c) && a !in names
    requires PartlyPruned(fs, cur, root, q, names, before)
    requires At(cur, root, q) == Some(n) && Child(cur, n, a) == Some(c) && c in cur && !cur[c].IsDir()
    requires gs == Cut(cur, {Link(n, a, c)}) && refs == RefsOf(cur[c])
    ensures PartlyPruned(fs, gs, root, q, names + {a}, before + refs)
  {
    NothingBelowLeaf(cur, root, q, n, a, c);
    LeafGarbage(cur, Link(n, a, c));
    assert SubLinks(cur, root, q + [a]) + {Link(n, a, c)} == {Link(n, a, c)};
    StepPruned(fs, cur, gs, roots, root, q, n, names, a, c, before, refs);
  }

  lemma ChildLeaf(base: FS, cur: FS, root: Id, path: string, n: Id, q: seq<string>, e: Entry)
    requires Within(cur, base) && TidyTargets(base) && AllTidy(Split(path)) && IsName(e.name) && Tidy(e.name)
    requires ResolvePath(base, root, path, true) == Ok(Found(n, q, []))
    requires Child(base, n, e.name) == Some(e.ino) && e.ino in base && Child(cur, n, e.name) == Some(e.ino)
    requires HasLeaf(cur, root, ChildPath(path, e.name))
    ensures LeafLink(cur, root, ChildPath(path, e.name)) == Link(n, e.name, e.ino)
  {
    ChildResolves(base, root, path, n, q, e.name, e.ino);
    ResolveWithin(cur, base, root, ChildPath(path, e.name), true);
  }

  // ---------------------------------------------------------------- which paths still lead where they did

  /** The child's entry can be unlinked exactly while the directory's path leads there. */
  lemma ChildReached(base: FS, gs: FS, root: Id, path: string, n: Id, q: seq<string>, name: string, c: Id)
    requires TidyStore(base) && AllTidy(Split(path)) && ResolvePath(base, root, path, true) == Ok(Found(n, q, []))
    requires IsName(name) && Tidy(name) && Within(gs, base) && Child(gs, n, name) == Some(c) && c in gs
    ensures var cp := ChildPath(path, name);
            (HasLeaf(gs, root, cp) <==> Reaches(gs, root, path))
            && (Reaches(gs, root, path) && !gs[c].content.Symlink? ==> Reaches(gs, root, cp))
  {
    var cp := ChildPath(path, name);
    ChildPathComps(path, name);
    CompsTidy(cp);
    ResolveWithin(gs, base, root, path, true);
    assert ResolvePath(gs, root, ParentPath(cp), true) == ResolvePath(gs, root, path, true);
    if Reaches(gs, root, path) && !gs[c].content.Symlink? {
      TidyWithin(gs, base);
      LockStep(gs, root, cp, c);
    }
  }

  lemma Subset(fs: FS, roots: map<DriveId, Id>, a: set<Link>, b: set<Link>)
    requires WellFormed(fs) && a <= b <= Links(fs)
    ensures Within(Cut(fs, b), Cut(fs, a))
  {
    var gs, hs := Cut(fs, a), Cut(fs, b);
    forall x | x in hs
      ensures x in gs && (hs[x].IsDir() <==> gs[x].IsDir()) && (!hs[x].IsDir() ==> gs[x].content == hs[x].content)
      ensures forall m | hs[x].IsDir() && Find(hs[x].content.entries, m).Some? ::
                Find(gs[x].content.entries, m) == Find(hs[x].content.entries, m)
    {
      SubsetRow(fs, a, b, x);
    }
  }

  lemma SubsetRow(fs: FS, a: set<Link>, b: set<Link>, x: Id)
    requires a <= b && x in Cut(fs, b)
    ensures x in Cut(fs, a) && Cut(fs, a)[x].Kind() == Cut(fs, b)[x].Kind() == fs[x].Kind()
    ensures !fs[x].IsDir() ==> Cut(fs, a)[x].content == Cut(fs, b)[x].content
    ensures fs[x].IsDir() ==> forall m | Find(Cut(fs, b)[x].content.entries, m).Some? ::
              Find(Cut(fs, a)[x].content.entries, m) == Find(Cut(fs, b)[x].content.entries, m)
  {
    assert To(a, x) <= To(b, x);
    SubsetCard(To(a, x), To(b, x));
    if fs[x].IsDir() {
      forall m | Find(Cut(fs, b)[x].content.entries, m).Some?
        ensures Find(Cut(fs, a)[x].content.entries, m) == Find(Cut(fs, b)[x].content.entries, m) {
        FindKeep(fs[x].content.entries, CutNames(a, x), m);
        FindKeep(fs[x].content.entries, CutNames(b, x), m);
      }
    }
  }

  /** A path that leads there with more entries gone leads there with fewer. */
  lemma ReachesMore(fs: FS, roots: map<DriveId, Id>, root: Id, path: string, a: set<Link>, b: set<Link>)
    requires WellFormed(fs) && a <= b <= Links(fs) && Reaches(Cut(fs, b), root, path)
    ensures Reaches(Cut(fs, a), root, path)
  {
    Subset(fs, roots, a, b);
    ResolveWithin(Cut(fs, b), Cut(fs, a), root, path, true);
  }

  /** The turn's entry comes on top of what is gone. */
  lemma TurnAndEntry(fs: FS, roots: map<DriveId, Id>, root: Id, n: Id, es: seq<Entry>, q: seq<string>, i: nat)
    requires TreeOk(fs, roots, root) && At(fs, root, q) == Some(n) && i < |es| && UniqueNames(es)
    requires Child(fs, n, es[i].name) == Some(es[i].ino)
    ensures var c, l := Turn(fs, root, q, es, i), Link(n, es[i].name, es[i].ino);
            l !in c && Done(fs, root, q, EntryNames(es[..i + 1])) == c + {l}
  {
    var l, names := Link(n, es[i].name, es[i].ino), EntryNames(es[..i]);
    EntryNamesStep(es, i);
    DoneStep(fs, root, q, n, names, l.name, l.ino);
    assert l !in Done(fs, root, q, names) by { NotDone(fs, roots, root, q, names, q, l); }
    assert l !in SubLinks(fs, root, q + [l.name]) by { NotBehind(fs, roots, root, q, {l.name}, l.name, q, l); }
  }

  /** Its directory is not gone with it. */
  lemma DirNotGone(fs: FS, roots: map<DriveId, Id>, root: Id, n: Id, names: set<string>, q: seq<string>)
    requires TreeOk(fs, roots, root) && At(fs, root, q) == Some(n) && n in fs
    ensures Done(fs, root, q, names) <= Links(fs) && !Gone(fs, Done(fs, root, q, names), n)
  {
    DoneClosed(fs, roots, root, q, names);
    AvoidsDone(fs, roots, root, q, names, q);
    CutAt(fs, roots, root, Done(fs, root, q, names), q);
  }

  lemma EntryKept(fs: FS, roots: map<DriveId, Id>, c: set<Link>, l: Link)
    requires WellFormed(fs) && RootsOk(fs, roots) && CountsOk(fs, roots) && l in Links(fs) && l !in c
    requires c + {l} <= Links(fs) && !Gone(fs, c + {l}, l.dir)
    ensures Child(Cut(fs, c), l.dir, l.name) == Some(l.ino) && l.ino in Cut(fs, c)
  {
    ToSub(c, c + {l}, l.dir);
    CutLinks(fs, c, l);
    CutWellFormed(fs, roots, c);
    LinkTarget(Cut(fs, c), l);
  }

  /** The turn's entry is still in its directory. */
  lemma TurnKeeps(fs: FS, roots: map<DriveId, Id>, root: Id, n: Id, es: seq<Entry>, q: seq<string>, i: nat)
    requires TreeOk(fs, roots, root) && At(fs, root, q) == Some(n) && i < |es| && UniqueNames(es)
    requires Child(fs, n, es[i].name) == Some(es[i].ino)
    ensures var c := Turn(fs, root, q, es, i);
            c <= Links(fs) && Child(Cut(fs, c), n, es[i].name) == Some(es[i].ino) && es[i].ino in Cut(fs, c)
  {
    TurnAndEntry(fs, roots, root, n, es, q, i);
    DirNotGone(fs, roots, root, n, EntryNames(es[..i + 1]), q);
    EntryKept(fs, roots, Turn(fs, root, q, es, i), Link(n, es[i].name, es[i].ino));
  }

  lemma ToSub(a: set<Link>, b: set<Link>, x: Id)
    requires a <= b
    ensures |To(a, x)| <= |To(b, x)| && (To(b, x) == {} ==> To(a, x) == {})
  {
    SubsetCard(To(a, x), To(b, x));
  }

  lemma TurnsGrow(fs: FS, root: Id, q: seq<string>, es: seq<Entry>, i: nat, j: nat)
      returns (a: set<Link>, b: set<Link>)
    requires i < j < |es|
    ensures a == Turn(fs, root, q, es, i) && b == Turn(fs, root, q, es, j) && a <= b
  {
    a, b := Turn(fs, root, q, es, i), Turn(fs, root, q, es, j);
    assert EntryNames(es[..i]) <= EntryNames(es[..j]) && es[i].name in EntryNames(es[..j]) by {
      assert es[..j][i] == es[i] && es[..i] <= es[..j];
      assert forall e | e in es[..i] :: e in es[..j];
    }
    forall l | l in SubLinks(fs, root, q + [es[i].name]) ensures l in Turn(fs, root, q, es, j) {
      assert Under(fs, root, q + [es[i].name], l.dir);
    }
  }

  lemma EntryIsChild(fs: FS, n: Id, i: nat)
    requires WellFormed(fs) && n in fs && fs[n].IsDir() && i < |fs[n].content.entries|
    ensures var e := fs[n].content.entries[i]; Child(fs, n, e.name) == Some(e.ino)
    ensures UniqueNames(fs[n].content.entries)
  {
    FindUnique(fs[n].content.entries, fs[n].content.entries[i]);
  }

  /** When the last entry is unlinked, all below the directory is gone but that entry. */
  lemma LastTurn(fs: FS, roots: map<DriveId, Id>, root: Id, n: Id, es: seq<Entry>, q: seq<string>)
    requires TreeOk(fs, roots, root) && At(fs, root, q) == Some(n) && n in fs && fs[n].IsDir()
    requires es != [] && es == fs[n].content.entries
    ensures var e := es[|es| - 1];
            Turn(fs, root, q, es, |es| - 1) == SubLinks(fs, root, q) - {Link(n, e.name, e.ino)}
  {
    var k := |es| - 1;
    EntryIsChild(fs, n, k);
    TurnAndEntry(fs, roots, root, n, es, q, k);
    assert es[..k + 1] == es;
    DoneAll(fs, root, q, n);
    WithoutOne(Turn(fs, root, q, es, k), Link(n, es[k].name, es[k].ino), SubLinks(fs, root, q));
  }

  lemma WithoutOne(a: set<Link>, l: Link, b: set<Link>)
    requires l !in a && a + {l} == b
    ensures a == b - {l}
  {
  }

  lemma TurnBelow(fs: FS, root: Id, q: seq<string>, es: seq<Entry>, i: nat)
    requires i < |es|
    ensures Turn(fs, root, q, es, i) <= SubLinks(fs, root, q)
  {
    forall l | l in Turn(fs, root, q, es, i) ensures Under(fs, root, q, l.dir) {
      if At(fs, root, q) == Some(l.dir) {
        assert q <= q;
      } else {
        var a :| Under(fs, root, q + [a], l.dir);
        UnderShorter(fs, root, q, a, l.dir);
      }
    }
  }

  /** A path that leads somewhere when all is gone led there before. */
  lemma ToTheEnd(fs: FS, roots: map<DriveId, Id>, root: Id, path: string, es: seq<Entry>, q: seq<string>)
    requires WellFormed(fs) && Reaches(Cut(fs, SubLinks(fs, root, q)), root, path)
    ensures EntriesGo(fs, root, path, es, q)
  {
    forall i | 0 <= i < |es| ensures InTurn(fs, root, path, es, q, i) {
      TurnBelow(fs, root, q, es, i);
      ReachesMore(fs, roots, root, path, Turn(fs, root, q, es, i), SubLinks(fs, root, q));
    }
  }

  lemma TurnListed(fs: FS, root: Id, q: seq<string>, es: seq<Entry>, i: nat)
    requires i < |es|
    ensures Turn(fs, root, q, es, i) <= Links(fs)
  {
  }

  /** A path that leads there in a later turn leads there in an earlier one. */
  lemma EarlierTurn(fs: FS, roots: map<DriveId, Id>, root: Id, path: string, es: seq<Entry>, q: seq<string>,
                    i: nat, j: nat)
    requires WellFormed(fs) && i < j < |es| && InTurn(fs, root, path, es, q, j)
    ensures InTurn(fs, root, path, es, q, i)
  {
    var a, b := TurnsGrow(fs, root, q, es, i, j);
    TurnListed(fs, root, q, es, j);
    ReachesMore(fs, roots, root, path, a, b);
  }

  lemma TurnsUpTo(fs: FS, roots: map<DriveId, Id>, root: Id, path: string, es: seq<Entry>, q: seq<string>, i: nat,
                  j: nat)
    requires WellFormed(fs) && i <= j < |es| && InTurn(fs, root, path, es, q, j)
    ensures InTurn(fs, root, path, es, q, i)
  {
    if i < j { EarlierTurn(fs, roots, root, path, es, q, i, j); }
  }

  /** So the last entry's turn decides. */
  lemma LastDecides(fs: FS, roots: map<DriveId, Id>, root: Id, path: string, es: seq<Entry>, q: seq<string>, last: nat)
    requires WellFormed(fs) && |es| == last + 1 && InTurn(fs, root, path, es, q, last)
    ensures EntriesGo(fs, root, path, es, q)
  {
    forall i | 0 <= i < |es| ensures InTurn(fs, root, path, es, q, i) {
      TurnsUpTo(fs, roots, root, path, es, q, i, last);
    }
  }

  lemma TurnIsCut(base: FS, fs: FS, cur: FS, roots: map<DriveId, Id>, root: Id, path: string, n: Id, inode: Inode,
                  q: seq<string>, i: nat, before: seq<Ref>)
    requires AtStep(base, fs, cur, roots, root, path, n, inode, q, i, before)
    ensures var e, c := inode.content.entries[i], Turn(fs, root, q, inode.content.entries, i);
            Cut(cur, SubLinks(cur, root, q + [e.name])) == Cut(fs, c)
            && SubLinks(cur, root, q + [e.name]) <= Links(cur)
            && Child(Cut(fs, c), n, e.name) == Some(e.ino) && e.ino in Cut(fs, c) && Within(Cut(fs, c), cur)
  {
    var es := inode.content.entries;
    var names, a := EntryNames(es[..i]), es[i].name;
    NextChild(base, fs, cur, roots, root, path, n, inode, q, i, before);
    EntryNamesStep(es, i);
    TurnKeeps(fs, roots, root, n, es, q, i);
    DoneClosed(fs, roots, root, q, names);
    SubLinksStable(fs, roots, root, q, names, a);
    CutCut(fs, roots, Done(fs, root, q, names), SubLinks(cur, root, q + [a]));
    CutWithin(cur, SubLinks(cur, root, q + [a]));
  }

  lemma LeafGoes(base: FS, fs: FS, cur: FS, roots: map<DriveId, Id>, root: Id, path: string, n: Id, inode: Inode,
                 q: seq<string>, i: nat, before: seq<Ref>)
    requires AtStep(base, fs, cur, roots, root, path, n, inode, q, i, before)
    requires var c := inode.content.entries[i].ino; c in cur && !cur[c].IsDir()
    ensures HasLeaf(cur, root, ChildPath(path, inode.content.entries[i].name)) <==>
            InTurn(fs, root, path, inode.content.entries, q, i)
  {
    var e := inode.content.entries[i];
    NextChild(base, fs, cur, roots, root, path, n, inode, q, i, before);
    ChildReached(base, cur, root, path, n, q, e.name, e.ino);
    TurnIsCut(base, fs, cur, roots, root, path, n, inode, q, i, before);
    NothingBelowLeaf(cur, root, q, n, e.name, e.ino);
    CutNothing(cur);
  }

  /** All below the child goes, and its own entry, exactly if the directory's path leads
      there when that entry's turn comes. */
  lemma ChildGoes(base: FS, fs: FS, cur: FS, roots: map<DriveId, Id>, root: Id, path: string, n: Id, inode: Inode,
                  q: seq<string>, i: nat, before: seq<Ref>)
    requires AtStep(base, fs, cur, roots, root, path, n, inode, q, i, before)
    requires var c := inode.content.entries[i].ino; c in cur && cur[c].IsDir()
    ensures var e := inode.content.entries[i];
            TreeGoes(cur, root, ChildPath(path, e.name), cur[e.ino].content.entries, q + [e.name]) <==>
            InTurn(fs, root, path, inode.content.entries, q, i)
  {
    var e := inode.content.entries[i];
    var cp, gs := ChildPath(path, e.name), Cut(fs, Turn(fs, root, q, inode.content.entries, i));
    NextChild(base, fs, cur, roots, root, path, n, inode, q, i, before);
    TurnIsCut(base, fs, cur, roots, root, path, n, inode, q, i, before);
    WithinTransitive(gs, cur, base);
    ChildReached(base, gs, root, path, n, q, e.name, e.ino);
    if Reaches(gs, root, path) { ToTheEnd(cur, roots, root, cp, cur[e.ino].content.entries, q + [e.name]); }
  }

  lemma AllDone(base: FS, fs: FS, cur: FS, root: Id, path: string, n: Id, inode: Inode, q: seq<string>, refs: seq<Ref>)
    requires Tracked(base, fs, root, path, n, inode, q) && Snapshot(base, n, inode)
    requires PartlyPruned(fs, cur, root, q, EntryNames(inode.content.entries), refs)
    ensures cur == Cut(fs, SubLinks(fs, root, q)) && SetOf(refs) == Garbage(fs, SubLinks(fs, root, q))
  {
    DoneAll(fs, root, q, n);
  }

  /** A path without symlinks leads there to the end. */
  lemma PlainGoes(fs: FS, roots: map<DriveId, Id>, root: Id, path: string, n: Id)
    requires TreeOk(fs, roots, root) && AllTidy(Comps(path)) && Comps(path) != []
    requires At(fs, root, Comps(path)) == Some(n) && n in fs && fs[n].IsDir()
    ensures TreeGoes(fs, root, path, fs[n].content.entries, Comps(path))
  {
    var q, es := Comps(path), fs[n].content.entries;
    var c := SubLinks(fs, root, q);
    DoneAll(fs, root, q, n);
    PlaceStable(fs, roots, root, q, EntryNames(es), q);
    DoneClosed(fs, roots, root, q, EntryNames(es));
    CutTreeOk(fs, roots, root, c);
    CanonicalHasLeaf(Cut(fs, c), root, path, n);
    DirStays(fs, roots, root, q, n);
    ResolvePlain(Cut(fs, c), root, path, true, n);
    ToTheEnd(fs, roots, root, path, es, q);
  }

  lemma DirStays(fs: FS, roots: map<DriveId, Id>, root: Id, q: seq<string>, n: Id)
    requires TreeOk(fs, roots, root) && At(fs, root, q) == Some(n) && n in fs && fs[n].IsDir()
    ensures n in Cut(fs, SubLinks(fs, root, q)) && Cut(fs, SubLinks(fs, root, q))[n].IsDir()
  {
    var es := fs[n].content.entries;
    DoneAll(fs, root, q, n);
    DoneClosed(fs, roots, root, q, EntryNames(es));
    AvoidsDone(fs, roots, root, q, EntryNames(es), q);
    CutAt(fs, roots, root, SubLinks(fs, root, q), q);
  }

  lemma CanonicalHasLeaf(fs: FS, root: Id, path: string, n: Id)
    requires WellFormed(fs) && AllTidy(Comps(path)) && Comps(path) != [] && root in fs
    requires At(fs, root, Comps(path)) == Some(n)
    ensures HasLeaf(fs, root, path) && LeafLink(fs, root, path).ino == n
  {
    var comps := Comps(path);
    var up := comps[..|comps| - 1];
    CompsAreNames(path);
    NamesTidyComps(up);
    AtPrefix(fs, root, comps, |up|);
    ResolvePlain(fs, root, ParentPath(path), true, At(fs, root, up).value);
  }

  lemma FinishPruning(base: FS, fs: FS, cur: FS, gs: FS, roots: map<DriveId, Id>, root: Id, path: string, n: Id,
                      inode: Inode, q: seq<string>, refs: seq<Ref>, last: seq<Ref>)
    requires TreeOk(base, roots, root) && TreeOk(fs, roots, root) && TreeOk(cur, roots, root) && Within(cur, base)
    requires Tracked(base, fs, root, path, n, inode, q) && Snapshot(base, n, inode)
    requires PartlyPruned(fs, cur, root, q, EntryNames(inode.content.entries), refs)
    requires LeafCut(cur, gs, root, path)
    requires var x := LeafLink(cur, root, path).ino; last == RefsOf(if cur[x].nlink <= 1 then cur[x] else inode)
    ensures Pruned(base, fs, gs, root, path, q, refs + last)
  {
    AllDone(base, fs, cur, root, path, n, inode, q, refs);
    SameLeaf(base, cur, root, path);
    var leaf := LeafLink(cur, root, path);
    CompsTidy(path);
    LeafIsTarget(base, roots, root, path);
    assert last == RefsOf(cur[leaf.ino]) by { LastIsNoObject(base, cur, roots, root, leaf); }
    LeafGarbage(cur, leaf);
    RemoveTop(fs, roots, root, q, n, leaf, cur, gs);
    SetOfConcat(refs, last);
  }

  lemma SameLeaf(base: FS, cur: FS, root: Id, path: string)
    requires Within(cur, base) && HasLeaf(cur, root, path)
    ensures HasLeaf(base, root, path) && LeafLink(base, root, path) == LeafLink(cur, root, path)
  {
    ResolveWithin(cur, base, root, path, true);
  }

  /** A symlink or directory has one link, and is no object. */
  lemma LastIsNoObject(base: FS, cur: FS, roots: map<DriveId, Id>, root: Id, leaf: Link)
    requires TreeOk(cur, roots, root) && Within(cur, base) && leaf in Links(cur) && leaf.ino in cur
    requires leaf.ino in base && (base[leaf.ino].content.Symlink? || base[leaf.ino].IsDir())
    ensures cur[leaf.ino].nlink <= 1 && cur[leaf.ino].Garbage().None?
  {
    assert !IsRoot(roots, leaf.ino);
    assert CountOk(cur[leaf.ino], |To(Links(cur), leaf.ino)|);
  }

  // ---------------------------------------------------------------- rm of one path

  /** Exactly RemovedLinks went, and refs are the references of the objects they named. */
  ghost predicate PathRemoved(fs: FS, gs: FS, root: Id, path: string, refs: seq<Ref>) {
    HasLeaf(fs, root, path) && RemovedLinks(fs, root, path) <= Links(fs)
    && gs == Cut(fs, RemovedLinks(fs, root, path))
    && SetOf(refs) == Garbage(fs, RemovedLinks(fs, root, path))
  }

  ghost predicate TidyCall(fs: FS, path: string) {
    TidyStore(fs) && AllTidy(Split(path))
  }

  /** The path leads to a directory. */
  ghost predicate LeadsToDir(fs: FS, root: Id, path: string) {
    var out := ResolvePath(fs, root, path, true);
    out.Ok? && out.value.ino in fs && fs[out.value.ino].IsDir()
  }

  /** Every directory is there, with all the directories it listed. */
  ghost predicate DirsStay(fs: FS, gs: FS) {
    forall x | x in fs && fs[x].IsDir() ::
      x in gs && gs[x].IsDir()
      && forall e | e in fs[x].content.entries && e.ino in fs && fs[e.ino].IsDir() :: e in gs[x].content.entries
  }

  lemma CutSparesDirs(fs: FS, c: set<Link>)
    requires WellFormed(fs) && c <= Links(fs) && forall l | l in c && l.ino in fs :: !fs[l.ino].IsDir()
    ensures DirsStay(fs, Cut(fs, c))
  {
    forall x | x in fs && fs[x].IsDir()
      ensures !Gone(fs, c, x)
      ensures forall e | e in fs[x].content.entries && e.ino in fs && fs[e.ino].IsDir() :: e.name !in CutNames(c, x)
    {
      assert To(c, x) == {};
      forall e | e in fs[x].content.entries && e.name in CutNames(c, x)
        ensures e.ino in fs && !fs[e.ino].IsDir()
      {
        var l :| l in c && l.dir == x && l.name == e.name;
        FindUnique(fs[x].content.entries, e);
        assert HasLink(fs, l);
      }
    }
  }

  /** The path leads to something, to a directory only under -r, and names an entry. */
  ghost predicate Aimed(fs: FS, root: Id, path: string, recursive: bool) {
    var out := ResolvePath(fs, root, path, true);
    out.Ok? && out.value.ino in fs && (fs[out.value.ino].IsDir() ==> recursive) && HasLeaf(fs, root, path)
  }

  /** And if that is a directory, the path still leads there as its entries go. */
  ghost predicate Removable(fs: FS, root: Id, path: string, recursive: bool) {
    Aimed(fs, root, path, recursive)
    && var out := ResolvePath(fs, root, path, true).value;
       fs[out.ino].IsDir() ==> TreeGoes(fs, root, path, fs[out.ino].content.entries, out.place)
  }

  /** A path without symlinks, that leads to a file, an object or, with -r, a directory. */
  ghost predicate PlainTarget(fs: FS, root: Id, path: string, recursive: bool) {
    Comps(path) != [] && var x := At(fs, root, Comps(path));
    x.Some? && x.value in fs && (fs[x.value].Regular() || (recursive && fs[x.value].IsDir()))
  }

  method RmPath(s: Service, rootID: Id, path: string, recursive: bool, f: Faults, ghost keeps: FS -> bool)
      returns (r: Result<seq<Ref>>)
    requires s.Valid() && s.nodes.db.open && IsRoot(s.roots, rootID)
    requires StepKept(keeps, rootID) && keeps(s.nodes.db.fs)
    modifies s.nodes.db
    ensures s.Valid() && s.Quiet() && Within(s.nodes.db.fs, old(s.nodes.db.fs)) && keeps(s.nodes.db.fs)
    ensures r.Ok? ==> Aimed(old(s.nodes.db.fs), rootID, path, recursive)
    ensures !recursive && LeadsToDir(old(s.nodes.db.fs), rootID, path) ==>
              r == Err(IsDirectory) && s.nodes.db.fs == old(s.nodes.db.fs)
    ensures ResolvePath(old(s.nodes.db.fs), rootID, path, true).Ok? && !LeadsToDir(old(s.nodes.db.fs), rootID, path) ==>
              (r.Ok? <==> HasLeaf(old(s.nodes.db.fs), rootID, path))
              && (r.Ok? ==> LeafCut(old(s.nodes.db.fs), s.nodes.db.fs, rootID, path))
    ensures TidyCall(old(s.nodes.db.fs), path) ==>
              (r.Ok? <==> Removable(old(s.nodes.db.fs), rootID, path, recursive))
              && (r.Ok? ==> PathRemoved(old(s.nodes.db.fs), s.nodes.db.fs, rootID, path, r.value))
  {
    ghost var fs := s.nodes.db.fs;
    WithinItself(fs);
    var resolver := new Resolver(s.nodes);
    var out := resolver.ResolvePath(rootID, path, true);
    if out.Err? { return Err(out.error); }
    var n := out.value.0;
    ResolvePlace(fs, rootID, path, true);
    if n.inode.IsDir() {
      if !recursive { return Err(IsDirectory); }
      r := RmTree(s, rootID, n, path, f, keeps);
    } else {
      r := RmSingle(s, rootID, n, path, f, keeps);
    }
  }

  /** rm on the file, symlink, object or mount the path resolved to. */
  method RmSingle(s: Service, rootID: Id, n: Handle, path: string, f: Faults, ghost keeps: FS -> bool)
      returns (r: Result<seq<Ref>>)
    requires s.Valid() && s.nodes.db.open && IsRoot(s.roots, rootID) && Loaded(s.nodes.db.fs, n.id, n)
             && !n.inode.IsDir()
    requires ResolvePath(s.nodes.db.fs, rootID, path, true).Ok?
             && ResolvePath(s.nodes.db.fs, rootID, path, true).value.ino == n.id
    requires StepKept(keeps, rootID) && keeps(s.nodes.db.fs)
    modifies s.nodes.db
    ensures s.Valid() && s.Quiet() && Within(s.nodes.db.fs, old(s.nodes.db.fs)) && keeps(s.nodes.db.fs)
    ensures r.Ok? <==> HasLeaf(old(s.nodes.db.fs), rootID, path)
    ensures r.Ok? ==> LeafCut(old(s.nodes.db.fs), s.nodes.db.fs, rootID, path)
    ensures TidyCall(old(s.nodes.db.fs), path) && r.Ok? ==>
              PathRemoved(old(s.nodes.db.fs), s.nodes.db.fs, rootID, path, r.value)
  {
    ghost var fs := s.nodes.db.fs;
    WithinItself(fs);
    r := RmLeaf(s, rootID, n, path, f);
    LeafKept(keeps, fs, s.nodes.db.fs, fs, rootID, path, r);
    LeafRemoved(fs, s.nodes.db.fs, s.roots, rootID, path, n.id, n.inode, r);
  }

  /** rmRecursive on the directory the path resolved to. */
  method RmTree(s: Service, rootID: Id, n: Handle, path: string, f: Faults, ghost keeps: FS -> bool)
      returns (r: Result<seq<Ref>>)
    requires s.Valid() && s.nodes.db.open && IsRoot(s.roots, rootID) && Loaded(s.nodes.db.fs, n.id, n)
             && n.inode.IsDir()
    requires ResolvePath(s.nodes.db.fs, rootID, path, true).Ok?
             && ResolvePath(s.nodes.db.fs, rootID, path, true).value.ino == n.id
    requires StepKept(keeps, rootID) && keeps(s.nodes.db.fs)
    modifies s.nodes.db
    ensures s.Valid() && s.Quiet() && Within(s.nodes.db.fs, old(s.nodes.db.fs)) && keeps(s.nodes.db.fs)
    ensures r.Ok? ==> HasLeaf(old(s.nodes.db.fs), rootID, path)
    ensures TidyCall(old(s.nodes.db.fs), path) ==>
              (r.Ok? ==> PathRemoved(old(s.nodes.db.fs), s.nodes.db.fs, rootID, path, r.value))
              && (r.Ok? <==> Removable(old(s.nodes.db.fs), rootID, path, true))
  {
    ghost var fs := s.nodes.db.fs;
    ResolvePlace(fs, rootID, path, true);
    ghost var q := ResolvePath(fs, rootID, path, true).value.place;
    WithinItself(fs);
    LoadedSnapshot(fs, fs, n.id);
    r := RmRecursive(s, rootID, n, path, f, fs, keeps, q);
    TreeRemoved(fs, s.nodes.db.fs, rootID, path, n.id, n.inode, q, r);
  }

  lemma PlainResolves(fs: FS, root: Id, path: string, recursive: bool)
    requires WellFormed(fs) && root in fs
    ensures AllTidy(Split(path)) && PlainTarget(fs, root, path, recursive) ==>
              ResolvePath(fs, root, path, true) == Ok(Found(At(fs, root, Comps(path)).value, Comps(path), []))
              && HasLeaf(fs, root, path)
  {
    if AllTidy(Split(path)) && PlainTarget(fs, root, path, recursive) {
      CompsTidy(path);
      ResolvePlain(fs, root, path, true, At(fs, root, Comps(path)).value);
      CanonicalHasLeaf(fs, root, path, At(fs, root, Comps(path)).value);
    }
  }

  lemma TreeRemoved(fs: FS, gs: FS, root: Id, path: string, n: Id, inode: Inode, q: seq<string>, r: Result<seq<Ref>>)
    requires ResolvePath(fs, root, path, true).Ok? && n in fs && fs[n] == inode && inode.IsDir()
    requires var f := ResolvePath(fs, root, path, true).value;
             f.ino == n && f.place == q && At(fs, root, q) == Some(n) && (f.rest != [] ==> fs[n].content.Mount?)
    requires Tracked(fs, fs, root, path, n, inode, q) ==>
               (r.Ok? ==> Pruned(fs, fs, gs, root, path, q, r.value))
               && (r.Ok? <==> TreeGoes(fs, root, path, inode.content.entries, q))
    requires r.Ok? ==> HasLeaf(fs, root, path)
    ensures TidyCall(fs, path) ==>
              (r.Ok? ==> PathRemoved(fs, gs, root, path, r.value)) && (r.Ok? <==> Removable(fs, root, path, true))
  {
    if TidyCall(fs, path) && r.Ok? { RemovedTree(fs, root, path); }
  }

  lemma RemovedTree(fs: FS, root: Id, path: string)
    requires HasLeaf(fs, root, path) && ResolvePath(fs, root, path, true).Ok?
    requires var n := ResolvePath(fs, root, path, true).value.ino; n in fs && fs[n].IsDir()
    ensures SubLinks(fs, root, ResolvePath(fs, root, path, true).value.place) + {LeafLink(fs, root, path)}
            == RemovedLinks(fs, root, path)
  {
  }

  lemma LeafRemoved(fs: FS, gs: FS, roots: map<DriveId, Id>, root: Id, path: string, n: Id, inode: Inode,
                    r: Result<seq<Ref>>)
    requires TreeOk(fs, roots, root) && n in fs && fs[n] == inode && !inode.IsDir()
    requires ResolvePath(fs, root, path, true).Ok? && ResolvePath(fs, root, path, true).value.ino == n
    requires r.Ok? ==> LeafCut(fs, gs, root, path)
                       && var x := LeafLink(fs, root, path).ino;
                          r.value == RefsOf(if fs[x].nlink <= 1 then fs[x] else inode)
    ensures TidyCall(fs, path) && r.Ok? ==> PathRemoved(fs, gs, root, path, r.value)
  {
    if TidyCall(fs, path) && r.Ok? {
      CompsTidy(path);
      LeafIsTarget(fs, roots, root, path);
      var l := LeafLink(fs, root, path);
      assert !IsRoot(roots, l.ino);
      assert CountOk(fs[l.ino], |To(Links(fs), l.ino)|);
      LeafGarbage(fs, l);
      LeafAlone(fs, root, path);
    }
  }

  lemma LeafAlone(fs: FS, root: Id, path: string)
    requires HasLeaf(fs, root, path) && ResolvePath(fs, root, path, true).Ok?
    requires var n := ResolvePath(fs, root, path, true).value.ino; n in fs && !fs[n].IsDir()
    ensures RemovedLinks(fs, root, path) == {LeafLink(fs, root, path)}
  {
  }

  // ---------------------------------------------------------------- Rm

  /** Each path is removable when its turn comes. */
  ghost predicate AllRemovable(fs: FS, root: Id, paths: seq<string>, recursive: bool)
    decreases |paths|
  {
    paths == []
    || (Removable(fs, root, paths[0], recursive)
        && AllRemovable(Cut(fs, RemovedLinks(fs, root, paths[0])), root, paths[1..], recursive))
  }

  /** Each path is a plain target when its turn comes. */
  ghost predicate AllPlain(fs: FS, root: Id, paths: seq<string>, recursive: bool)
    decreases |paths|
  {
    paths == []
    || (PlainTarget(fs, root, paths[0], recursive)
        && (HasLeaf(fs, root, paths[0]) ==>
              AllPlain(Cut(fs, RemovedLinks(fs, root, paths[0])), root, paths[1..], recursive)))
  }

  lemma PlainIsRemovable(fs: FS, roots: map<DriveId, Id>, root: Id, path: string, recursive: bool)
    requires TreeOk(fs, roots, root) && AllTidy(Split(path)) && PlainTarget(fs, root, path, recursive)
    ensures Removable(fs, root, path, recursive)
  {
    var x := At(fs, root, Comps(path)).value;
    CompsTidy(path);
    PlainResolves(fs, root, path, recursive);
    if fs[x].IsDir() { PlainGoes(fs, roots, root, path, x); }
  }

  /** Plain targets on tidy names can be removed. */
  lemma {:induction false} AllPlainRemovable(fs: FS, roots: map<DriveId, Id>, root: Id, paths: seq<string>,
                                             recursive: bool)
    requires TreeOk(fs, roots, root) && TidyStore(fs) && TidyPaths(paths) && AllPlain(fs, root, paths, recursive)
    ensures AllRemovable(fs, root, paths, recursive)
    decreases |paths|
  {
    if paths != [] {
      assert paths[0] in paths;
      PlainIsRemovable(fs, roots, root, paths[0], recursive);
      FirstPath(fs, roots, root, paths);
      AllPlainRemovable(Cut(fs, RemovedLinks(fs, root, paths[0])), roots, root, paths[1..], recursive);
    }
  }

  /** No path leads to a directory when its turn comes. */
  ghost predicate OnlyLeaves(fs: FS, root: Id, paths: seq<string>) {
    forall i | 0 <= i < |paths| :: !LeadsToDir(RmAll(fs, root, paths[..i]), root, paths[i])
  }

  lemma LeafSparesDirs(fs: FS, roots: map<DriveId, Id>, root: Id, path: string)
    requires TreeOk(fs, roots, root) && TidyStore(fs) && AllTidy(Split(path)) && HasLeaf(fs, root, path)
    requires !LeadsToDir(fs, root, path)
    ensures DirsStay(fs, Cut(fs, RemovedLinks(fs, root, path)))
  {
    CompsTidy(path);
    LeafIsTarget(fs, roots, root, path);
    CutSparesLeaf(fs, LeafLink(fs, root, path), RemovedLinks(fs, root, path));
  }

  lemma CutSparesLeaf(fs: FS, l: Link, c: set<Link>)
    requires WellFormed(fs) && l in Links(fs) && l.ino in fs && !fs[l.ino].IsDir() && c == {l}
    ensures DirsStay(fs, Cut(fs, c))
  {
    CutSparesDirs(fs, c);
  }

  lemma DirsStayOn(fs: FS, gs: FS, hs: FS)
    requires DirsStay(fs, gs) && DirsStay(gs, hs)
    ensures DirsStay(fs, hs)
  {
    forall x, e | x in fs && fs[x].IsDir() && e in fs[x].content.entries && e.ino in fs && fs[e.ino].IsDir()
      ensures e in hs[x].content.entries
    {
      assert e in gs[x].content.entries && e.ino in gs && gs[e.ino].IsDir();
    }
  }

  lemma OnlyLeavesFrom(fs: FS, gs: FS, root: Id, paths: seq<string>)
    requires paths != [] && HasLeaf(fs, root, paths[0]) && !LeadsToDir(fs, root, paths[0])
    requires gs == Cut(fs, RemovedLinks(fs, root, paths[0])) && OnlyLeaves(gs, root, paths[1..])
    ensures OnlyLeaves(fs, root, paths)
  {
    forall i | 0 < i < |paths| ensures !LeadsToDir(RmAll(fs, root, paths[..i]), root, paths[i]) {
      assert paths[..i][0] == paths[0] && paths[..i][1..] == paths[1..][..i - 1] && paths[i] == paths[1..][i - 1];
    }
  }

  /** Without -r no path leads to a directory at its turn, and no directory goes. */
  lemma {:induction false} FlatSparesDirs(fs: FS, roots: map<DriveId, Id>, root: Id, paths: seq<string>)
    requires TreeOk(fs, roots, root) && TidyStore(fs) && TidyPaths(paths) && AllRemovable(fs, root, paths, false)
    ensures OnlyLeaves(fs, root, paths) && DirsStay(fs, RmAll(fs, root, paths))
    decreases |paths|
  {
    if paths != [] {
      var gs := Cut(fs, RemovedLinks(fs, root, paths[0]));
      assert paths[0] in paths;
      FlatHead(fs, root, paths);
      LeafSparesDirs(fs, roots, root, paths[0]);
      FirstPath(fs, roots, root, paths);
      FlatSparesDirs(gs, roots, root, paths[1..]);
      DirsStayOn(fs, gs, RmAll(gs, root, paths[1..]));
      OnlyLeavesFrom(fs, gs, root, paths);
    } else {
      assert RmAll(fs, root, paths) == fs;
    }
  }

  lemma FlatHead(fs: FS, root: Id, paths: seq<string>)
    requires paths != [] && AllRemovable(fs, root, paths, false)
    ensures HasLeaf(fs, root, paths[0]) && !LeadsToDir(fs, root, paths[0])
    ensures AllRemovable(Cut(fs, RemovedLinks(fs, root, paths[0])), root, paths[1..], false)
    ensures RmAll(fs, root, paths) == RmAll(Cut(fs, RemovedLinks(fs, root, paths[0])), root, paths[1..])
  {
  }

  lemma RmWithoutDirs(fs: FS, gs: FS, roots: map<DriveId, Id>, drive: DriveId, paths: seq<string>, recursive: bool,
                      recorder: bool, recorderFails: bool, before: seq<Ref>, after: seq<Ref>, lasts: bool, ok: bool)
    requires WellFormed(fs) && RootsOk(fs, roots) && CountsOk(fs, roots)
    requires RmOutcome(fs, gs, roots, drive, paths, recursive, recorder, recorderFails, before, after, lasts, ok)
    ensures ok && !recursive && TidyStore(fs) && TidyPaths(paths) ==>
              OnlyLeaves(fs, roots[drive], paths) && DirsStay(fs, gs)
  {
    if ok && !recursive && TidyStore(fs) && TidyPaths(paths) {
      assert IsRoot(roots, roots[drive]);
      FlatSparesDirs(fs, roots, roots[drive], paths);
    }
  }

  /** What an rm has come to. When it succeeded, exactly what the paths remove in order is
      gone and recorded. On tidy names it succeeds iff each path is removable in its turn,
      its transaction lasts and the recorder does not fail. */
  ghost predicate RmOutcome(fs: FS, gs: FS, roots: map<DriveId, Id>, drive: DriveId, paths: seq<string>,
                            recursive: bool, recorder: bool, recorderFails: bool, before: seq<Ref>, after: seq<Ref>,
                            lasts: bool, ok: bool) {
    (ok ==> drive in roots && Recorded(fs, gs, roots[drive], paths, recursive, recorder, before, after))
    && (TidyStore(fs) && TidyPaths(paths) ==>
          (ok <==> drive in roots && AllRemovable(fs, roots[drive], paths, recursive) && lasts
                   && !(recorder && recorderFails && RmGarbage(fs, roots[drive], paths) != {})))
  }

  /** Rm is one transaction, or part of its caller's: the paths in order, stopping at the
      first error, and the tombstones with them. recorderFails says whether the tombstone
      insert would fail. */
  method Rm(s: Service, drive: DriveId, paths: seq<string>, recursive: bool, recorderFails: bool, f: Faults)
      returns (r: Result<()>)
    requires s.Valid()
    modifies s.nodes.db
    ensures s.Valid() && s.nodes.db.Nested()
    ensures s.nodes.db.fs == old(s.nodes.db.fs)
            || (drive in s.roots && Pared(old(s.nodes.db.fs), s.nodes.db.fs, s.roots[drive]))
    ensures r.Err? && !old(s.nodes.db.open) ==> s.nodes.db.committed == old(s.nodes.db.committed)
    ensures RmOutcome(old(s.nodes.db.fs), s.nodes.db.fs, s.roots, drive, paths, recursive, s.hasRecorder, recorderFails,
                      old(s.nodes.db.tombstones), s.nodes.db.tombstones, old(s.nodes.db.Lasts(f)), r.Ok?)
    ensures r.Ok? && !recursive && TidyStore(old(s.nodes.db.fs)) && TidyPaths(paths) ==>
              drive in s.roots && OnlyLeaves(old(s.nodes.db.fs), s.roots[drive], paths)
              && DirsStay(old(s.nodes.db.fs), s.nodes.db.fs)
  {
    ghost var t := Tables(s.nodes.db.fs, s.nodes.db.tombstones);
    ghost var lasts := s.nodes.db.Lasts(f);
    var joined := s.nodes.db.Begin(f);
    if joined.Err? { return Err(joined.error); }
    r := RmRows(s, drive, paths, recursive, recorderFails, f);
    r := s.nodes.db.End(joined.value, r, f);
    RmWithoutDirs(t.fs, s.nodes.db.fs, s.roots, drive, paths, recursive, s.hasRecorder, recorderFails, t.tombstones,
                  s.nodes.db.tombstones, lasts, r.Ok?);
  }

  /** The callback of Rm. */
  method RmRows(s: Service, drive: DriveId, paths: seq<string>, recursive: bool, recorderFails: bool, f: Faults)
      returns (r: Result<()>)
    requires s.Valid() && s.nodes.db.open
    modifies s.nodes.db
    ensures s.Valid() && s.nodes.db.Nested()
    ensures if drive in s.roots then Pared(old(s.nodes.db.fs), s.nodes.db.fs, s.roots[drive])
            else s.nodes.db.fs == old(s.nodes.db.fs)
    ensures RmOutcome(old(s.nodes.db.fs), s.nodes.db.fs, s.roots, drive, paths, recursive, s.hasRecorder, recorderFails,
                      old(s.nodes.db.tombstones), s.nodes.db.tombstones, true, r.Ok?)
  {
    ghost var fs := s.nodes.db.fs;
    var rootID := s.GetRootNodeID(drive);
    if rootID.Err? { return Err(rootID.error); }
    ghost var keeps: FS -> bool := gs => Pared(fs, gs, rootID.value);
    ParingKept(fs, s.roots, rootID.value);
    var removed := RmPaths(s, rootID.value, paths, recursive, f, keeps);
    if removed.Err? { return Err(removed.error); }
    RemovedIsRecorded(fs, s.nodes.db.fs, rootID.value, paths, recursive, s.hasRecorder, s.nodes.db.tombstones,
                      removed.value);
    r := s.RecordGarbage(removed.value, recorderFails);
  }

  /** No path was the root; on tidy names, exactly RmAll has happened, and the tombstones
      added are exactly RmGarbage. */
  ghost predicate Recorded(fs: FS, gs: FS, root: Id, paths: seq<string>, recursive: bool, recorder: bool,
                           before: seq<Ref>, after: seq<Ref>) {
    (forall p | p in paths :: Comps(p) != []) && before <= after
    && (TidyStore(fs) && TidyPaths(paths) ==>
          AllRemovable(fs, root, paths, recursive) && gs == RmAll(fs, root, paths)
          && SetOf(after[|before|..]) == if recorder then RmGarbage(fs, root, paths) else {})
  }

  lemma RemovedIsRecorded(fs: FS, gs: FS, root: Id, paths: seq<string>, recursive: bool, recorder: bool,
                          before: seq<Ref>, refs: seq<Ref>)
    requires PathsRemoved(fs, gs, root, paths, recursive, refs)
    ensures Recorded(fs, gs, root, paths, recursive, recorder, before, before + if recorder then refs else [])
    ensures TidyStore(fs) && TidyPaths(paths) ==> (refs != [] <==> RmGarbage(fs, root, paths) != {})
  {
    var after := before + if recorder then refs else [];
    assert after[|before|..] == if recorder then refs else [];
    if refs != [] { assert refs[0] in SetOf(refs); }
  }

  method RmPaths(s: Service, rootID: Id, paths: seq<string>, recursive: bool, f: Faults, ghost keeps: FS -> bool)
      returns (r: Result<seq<Ref>>)
    requires s.Valid() && s.nodes.db.open && IsRoot(s.roots, rootID)
    requires StepKept(keeps, rootID) && keeps(s.nodes.db.fs)
    modifies s.nodes.db
    ensures s.Valid() && s.Quiet() && keeps(s.nodes.db.fs)
    ensures r.Ok? ==> PathsRemoved(old(s.nodes.db.fs), s.nodes.db.fs, rootID, paths, recursive, r.value)
    ensures var fs := old(s.nodes.db.fs);
            TidyStore(fs) && TidyPaths(paths) ==> (r.Ok? <==> AllRemovable(fs, rootID, paths, recursive))
  {
    ghost var fs := s.nodes.db.fs;
    var allRefs: seq<Ref> := [];
    RmStarts(fs, rootID, paths, recursive);
    for i := 0 to |paths|
      invariant s.Valid() && s.Quiet() && keeps(s.nodes.db.fs)
      invariant RmProgress(fs, s.nodes.db.fs, rootID, paths, recursive, i, allRefs)
    {
      ghost var cur := s.nodes.db.fs;
      var refs := RmPath(s, rootID, paths[i], recursive, f, keeps);
      if refs.Err? {
        RmStuck(fs, cur, rootID, paths, recursive, i, allRefs);
        return Err(refs.error);
      }
      RmAdvances(fs, cur, s.nodes.db.fs, rootID, paths, recursive, i, allRefs, refs.value);
      allRefs := allRefs + refs.value;
    }
    RmEnds(fs, s.nodes.db.fs, rootID, paths, recursive, allRefs);
    return Ok(allRefs);
  }

  /** What a run over all paths has done: no path was the root, and, on tidy names, exactly
      RmAll, handing over exactly RmGarbage. */
  ghost predicate PathsRemoved(fs: FS, gs: FS, root: Id, paths: seq<string>, recursive: bool, refs: seq<Ref>) {
    (forall p | p in paths :: Comps(p) != [])
    && (TidyStore(fs) && TidyPaths(paths) ==>
          AllRemovable(fs, root, paths, recursive) && gs == RmAll(fs, root, paths)
          && SetOf(refs) == RmGarbage(fs, root, paths))
  }

  lemma RmEnds(fs: FS, gs: FS, root: Id, paths: seq<string>, recursive: bool, refs: seq<Ref>)
    requires RmProgress(fs, gs, root, paths, recursive, |paths|, refs)
    ensures PathsRemoved(fs, gs, root, paths, recursive, refs)
  {
    assert paths[|paths|..] == [];
  }

  /** refs and what the rest of the paths will do make up what all paths do. */
  ghost predicate RmTotals(fs: FS, cur: FS, root: Id, paths: seq<string>, rest: seq<string>, refs: seq<Ref>) {
    RmAll(cur, root, rest) == RmAll(fs, root, paths)
    && SetOf(refs) + RmGarbage(cur, root, rest) == RmGarbage(fs, root, paths)
  }

  ghost predicate RmMay(fs: FS, cur: FS, root: Id, paths: seq<string>, recursive: bool, rest: seq<string>) {
    AllRemovable(cur, root, rest, recursive) <==> AllRemovable(fs, root, paths, recursive)
  }

  ghost predicate RmRest(fs: FS, cur: FS, root: Id, paths: seq<string>, recursive: bool, rest: seq<string>,
                         refs: seq<Ref>) {
    TidyStore(cur) && RmTotals(fs, cur, root, paths, rest, refs) && RmMay(fs, cur, root, paths, recursive, rest)
  }

  /** What the first i paths have done, against what all of them do. */
  ghost predicate RmProgress(fs: FS, cur: FS, root: Id, paths: seq<string>, recursive: bool, i: nat, refs: seq<Ref>) {
    i <= |paths| && (forall k | 0 <= k < i :: Comps(paths[k]) != [])
    && (TidyStore(fs) && TidyPaths(paths) ==> RmRest(fs, cur, root, paths, recursive, paths[i..], refs))
  }

  lemma RmStarts(fs: FS, root: Id, paths: seq<string>, recursive: bool)
    ensures RmProgress(fs, fs, root, paths, recursive, 0, [])
  {
    assert paths[0..] == paths;
  }

  /** A path that cannot be removed in its turn. */
  lemma RmStuck(fs: FS, cur: FS, root: Id, paths: seq<string>, recursive: bool, i: nat, refs: seq<Ref>)
    requires i < |paths| && RmProgress(fs, cur, root, paths, recursive, i, refs)
    requires TidyCall(cur, paths[i]) ==> !Removable(cur, root, paths[i], recursive)
    ensures TidyStore(fs) && TidyPaths(paths) ==> !AllRemovable(fs, root, paths, recursive)
  {
    if TidyStore(fs) && TidyPaths(paths) {
      assert paths[i] in paths && paths[i..][0] == paths[i];
    }
  }

  lemma RmAdvances(fs: FS, cur: FS, gs: FS, root: Id, paths: seq<string>, recursive: bool, i: nat, refs: seq<Ref>,
                   more: seq<Ref>)
    requires i < |paths| && RmProgress(fs, cur, root, paths, recursive, i, refs)
    requires Aimed(cur, root, paths[i], recursive) && Within(gs, cur)
    requires TidyCall(cur, paths[i]) ==>
               Removable(cur, root, paths[i], recursive) && PathRemoved(cur, gs, root, paths[i], more)
    ensures RmProgress(fs, gs, root, paths, recursive, i + 1, refs + more)
  {
    if TidyStore(fs) && TidyPaths(paths) {
      assert paths[i] in paths;
      assert paths[i..][0] == paths[i] && paths[i..][1..] == paths[i + 1..];
      RmRestNext(fs, cur, gs, root, paths, recursive, paths[i..], refs, more);
    }
  }

  lemma RmRestNext(fs: FS, cur: FS, gs: FS, root: Id, paths: seq<string>, recursive: bool, rest: seq<string>,
                   refs: seq<Ref>, more: seq<Ref>)
    requires rest != [] && RmRest(fs, cur, root, paths, recursive, rest, refs) && AllTidy(Split(rest[0]))
    requires Within(gs, cur)
    requires TidyCall(cur, rest[0]) ==>
               Removable(cur, root, rest[0], recursive) && PathRemoved(cur, gs, root, rest[0], more)
    ensures RmRest(fs, gs, root, paths, recursive, rest[1..], refs + more)
  {
    TidyWithin(gs, cur);
    RmTotalsNext(fs, cur, gs, root, paths, rest, refs, more);
    RmMayNext(fs, cur, gs, root, paths, recursive, rest, more);
  }

  lemma RmTotalsNext(fs: FS, cur: FS, gs: FS, root: Id, paths: seq<string>, rest: seq<string>, refs: seq<Ref>,
                     more: seq<Ref>)
    requires rest != [] && RmTotals(fs, cur, root, paths, rest, refs) && PathRemoved(cur, gs, root, rest[0], more)
    ensures RmTotals(fs, gs, root, paths, rest[1..], refs + more)
  {
    RmNext(cur, gs, root, rest, more);
    SetOfConcat(refs, more);
  }

  lemma RmMayNext(fs: FS, cur: FS, gs: FS, root: Id, paths: seq<string>, recursive: bool, rest: seq<string>,
                  more: seq<Ref>)
    requires rest != [] && RmMay(fs, cur, root, paths, recursive, rest) && PathRemoved(cur, gs, root, rest[0], more)
    requires Removable(cur, root, rest[0], recursive)
    ensures RmMay(fs, gs, root, paths, recursive, rest[1..])
  {
  }

  lemma RmNext(cur: FS, gs: FS, root: Id, paths: seq<string>, more: seq<Ref>)
    requires paths != [] && PathRemoved(cur, gs, root, paths[0], more)
    ensures RmAll(cur, root, paths) == RmAll(gs, root, paths[1..])
    ensures RmGarbage(cur, root, paths) == SetOf(more) + RmGarbage(gs, root, paths[1..])
  {
  }

  // ---------------------------------------------------------------- Unmount

  ghost predicate Unmountable(fs: FS, root: Id, path: string) {
    var out := ResolvePath(fs, root, path, true);
    out.Ok? && out.value.ino in fs && fs[out.value.ino].content.Mount? && HasLeaf(fs, root, path)
  }

  /** Removes the mount entry. On a tidy store the entry removed is the mount's own. */
  method Unmount(s: Service, drive: DriveId, mountPath: string, f: Faults) returns (r: Result<()>)
    requires s.Valid()
    modifies s.nodes.db
    ensures s.Valid() && s.Quiet()
    ensures TidyCall(old(s.nodes.db.fs), mountPath) ==> Keeps(old(s.nodes.db.fs), s.nodes.db.fs, s.roots)
    ensures Acyclic(old(s.nodes.db.fs)) ==> Acyclic(s.nodes.db.fs)
    ensures r.Err? ==> s.nodes.db.fs == old(s.nodes.db.fs)
    ensures r.Ok? <==> drive in s.roots && Unmountable(old(s.nodes.db.fs), s.roots[drive], mountPath)
                       && old(s.nodes.db.Lasts(f))
    ensures r.Ok? ==> LeafCut(old(s.nodes.db.fs), s.nodes.db.fs, s.roots[drive], mountPath)
    ensures r.Ok? && TidyCall(old(s.nodes.db.fs), mountPath) ==>
              var fs, x := old(s.nodes.db.fs), LeafLink(old(s.nodes.db.fs), s.roots[drive], mountPath).ino;
              (fs[x].content.Mount? || fs[x].content.Symlink?) && x !in s.nodes.db.fs
  {
    ghost var fs := s.nodes.db.fs;
    var rootID := s.GetRootNodeID(drive);
    if rootID.Err? { return Err(rootID.error); }
    var resolver := new Resolver(s.nodes);
    var out := resolver.ResolvePath(rootID.value, mountPath, true);
    if out.Err? { return Err(out.error); }
    if !out.value.0.inode.content.Mount? { return Err(NotAMount); }
    ghost var owner := s.owner;
    var unlinked := UnlinkLeaf(s, resolver, rootID.value, mountPath, f);
    UnmountEnds(fs, s.nodes.db.fs, s.roots, owner, rootID.value, mountPath, unlinked.Ok?);
    if unlinked.Err? { return Err(unlinked.error); }
    return Ok(());
  }

  lemma UnmountEnds(fs: FS, gs: FS, roots: map<DriveId, Id>, owner: map<Id, DriveId>, root: Id, path: string, ok: bool)
    requires Inv(fs, roots, owner) && IsRoot(roots, root) && Pared(fs, gs, root)
    requires if ok then LeafCut(fs, gs, root, path) else gs == fs
    requires var out := ResolvePath(fs, root, path, true);
             out.Ok? && out.value.ino in fs && fs[out.value.ino].content.Mount?
    ensures TidyCall(fs, path) ==> Keeps(fs, gs, roots)
    ensures Acyclic(fs) ==> Acyclic(gs)
    ensures ok && TidyCall(fs, path) ==>
              var x := LeafLink(fs, root, path).ino;
              (fs[x].content.Mount? || fs[x].content.Symlink?) && x !in gs
  {
    ParedKeeps(fs, gs, roots, owner, root);
    if ok && TidyCall(fs, path) { UnmountKeeps(fs, roots, owner, root, path); }
  }

  lemma UnmountKeeps(fs: FS, roots: map<DriveId, Id>, owner: map<Id, DriveId>, root: Id, path: string)
    requires Inv(fs, roots, owner) && IsRoot(roots, root) && TidyCall(fs, path) && HasLeaf(fs, root, path)
    requires var out := ResolvePath(fs, root, path, true);
             out.Ok? && out.value.ino in fs && fs[out.value.ino].content.Mount?
    ensures var l := LeafLink(fs, root, path);
            l.ino in fs && (fs[l.ino].content.Mount? || fs[l.ino].content.Symlink?) && l.ino !in Cut(fs, {l})
            && (Exact(fs, roots) ==> Exact(Cut(fs, {l}), roots))
  {
    var l := LeafLink(fs, root, path);
    CompsTidy(path);
    LeafIsTarget(fs, roots, root, path);
    assert !IsRoot(roots, l.ino);
    assert CountOk(fs[l.ino], |To(Links(fs), l.ino)|);
    ToOne(l, l.ino);
    LeafKeepsExact(fs, roots, owner, l);
  }

  lemma LeafKeepsExact(fs: FS, roots: map<DriveId, Id>, owner: map<Id, DriveId>, l: Link)
    requires Inv(fs, roots, owner) && l in Links(fs) && l.ino in fs && !fs[l.ino].IsDir()
    ensures Exact(fs, roots) ==> Exact(Cut(fs, {l}), roots)
  {
    LeafClosed(fs, l);
    if Exact(fs, roots) { CutKeepsExact(fs, roots, owner, {l}); }
  }
}

/** Small stores on which a natural statement about the service fails. The exact
    conditions are in Moves, MoveFacts, Removal, Walk and Mounts. */
module Witnesses {
  import opened Paths
  import opened Inodes
  import opened Graph
  import opened Moves
  import opened Walk
  import opened NodeOps
  import opened Removal
  import opened Vfs
  import opened Transactions
  import opened Registry
  import opened Batch
  import Mounts
  import Remove
  import EntRemove
  import EntRepo
  import Runs
  import Uploads
  import Move
  import MoveFacts

  function PathOf(names: seq<string>): string { "/" + Join(names) }

  /** A path of names through directories resolves as it reads. */
  lemma PathResolves(fs: FS, root: Id, init: seq<string>, n: string, d: Id)
    requires WellFormed(fs) && root in fs && TidyNames(init) && IsName(n) && Tidy(n)
    requires At(fs, root, init) == Some(d) && d in fs && fs[d].IsDir()
    ensures ResolveParent(fs, root, PathOf(init + [n])) == Ok((d, n))
    ensures var c := Child(fs, d, n);
            c.Some? && c.value in fs && !fs[c.value].content.Mount? && !fs[c.value].content.Symlink? ==>
              ResolvePath(fs, root, PathOf(init + [n]), true) == Ok(Found(c.value, init + [n], []))
  {
    var p := PathOf(init + [n]);
    NamesTidyComps(init + [n]);
    NamesTidyComps(init);
    assert (init + [n])[..|init|] == init;
    ResolvePlain(fs, root, ParentPath(p), true, d);
    AtSnoc(fs, root, init, n);
    var c := Child(fs, d, n);
    if c.Some? && c.value in fs && !fs[c.value].content.Mount? && !fs[c.value].content.Symlink? {
      ResolvePlain(fs, root, p, true, c.value);
    }
  }

  lemma TidyWord(n: string)
    requires |n| == 1 && 'a' <= n[0] <= 'z'
    ensures IsName(n) && Tidy(n)
  {
  }

  // Each lemma returns the store and the paths of its example, so that the solver reasons
  // from what the paths resolve to instead of evaluating string functions.

  lemma PathTo(fs: FS, root: Id, init: seq<string>, n: string, d: Id) returns (p: string)
    requires WellFormed(fs) && root in fs && TidyNames(init) && IsName(n) && Tidy(n)
    requires At(fs, root, init) == Some(d) && d in fs && fs[d].IsDir()
    ensures ResolveParent(fs, root, p) == Ok((d, n))
    ensures var c := Child(fs, d, n);
            c.Some? && c.value in fs && !fs[c.value].content.Mount? && !fs[c.value].content.Symlink? ==>
              ResolvePath(fs, root, p, true) == Ok(Found(c.value, init + [n], []))
  {
    p := PathOf(init + [n]);
    PathResolves(fs, root, init, n, d);
  }

  // ---------------------------------------------------------------- mv

  ghost predicate IsSample(fs: FS) {
    fs.Keys == {0, 1, 2, 3, 4} && fs[1] == Inode(1, Dir([Entry(4, "z", FileKind)]))
    && fs[0] == Inode(0, Dir([Entry(1, "d", DirectoryKind), Entry(2, "x", FileKind), Entry(3, "y", FileKind)]))
    && fs[2] == fs[3] == fs[4] == Inode(1, File(""))
  }

  /** /d with a file z in it, and the files /x and /y. */
  lemma Sample() returns (fs: FS)
    ensures IsSample(fs) && Healthy(fs)
  {
    fs := map[0 := Inode(0, Dir([Entry(1, "d", DirectoryKind), Entry(2, "x", FileKind), Entry(3, "y", FileKind)])),
              1 := Inode(1, Dir([Entry(4, "z", FileKind)])),
              2 := Inode(1, File("")), 3 := Inode(1, File("")), 4 := Inode(1, File(""))];
    SampleHealthy(fs);
  }

  const HOME: DriveId := "home"
  const ONE: map<DriveId, Id> := map[HOME := 0]

  /** The samples are stores as the service keeps them. */
  ghost predicate Healthy(fs: FS) {
    Exact(fs, ONE) && Acyclic(fs) && exists owner :: Inv(fs, ONE, owner)
  }

  ghost function AllHome(fs: FS): map<Id, DriveId> { map x | x in fs :: HOME }

  /** A tree of one drive whose counts add up. */
  lemma TreeHealthy(fs: FS)
    requires WellFormed(fs) && Acyclic(fs) && 0 in fs && fs[0].IsDir() && forall l | l in Links(fs) :: l.ino != 0
    requires forall x | x in fs && x != 0 ::
               |To(Links(fs), x)| == fs[x].nlink && fs[x].nlink >= 1 && (!fs[x].Regular() ==> fs[x].nlink == 1)
    ensures Healthy(fs)
  {
    assert forall x :: IsRoot(ONE, x) <==> x == 0 by { assert ONE[HOME] == 0; }
    OneOwner(fs);
    assert Inv(fs, ONE, AllHome(fs));
  }

  lemma RankedBy(fs: FS, links: set<Link>, rank: map<Id, nat>)
    requires Links(fs) == links && fs.Keys <= rank.Keys
    requires forall l | l in links :: l.dir in rank && l.ino in rank && rank[l.dir] < rank[l.ino]
    ensures Acyclic(fs)
  {
    assert Ranked(fs, rank);
  }

  lemma OneOwner(fs: FS)
    requires WellFormed(fs) && 0 in fs
    ensures OwnersOk(fs, ONE, AllHome(fs))
  {
    forall l | l in Links(fs) ensures l.dir in fs && l.ino in fs { LinkTarget(fs, l); }
  }

  lemma SampleHealthy(fs: FS)
    requires IsSample(fs)
    ensures Healthy(fs)
  {
    SampleWellFormed(fs);
    SampleRanked(fs);
    SampleCounts(fs);
    TreeHealthy(fs);
  }

  lemma SampleCounts(fs: FS)
    requires IsSample(fs)
    ensures forall l | l in Links(fs) :: l.ino != 0
    ensures forall x | x in fs && x != 0 ::
              |To(Links(fs), x)| == fs[x].nlink && fs[x].nlink >= 1 && (!fs[x].Regular() ==> fs[x].nlink == 1)
  {
    SampleLinks(fs);
    EachOnce(Links(fs), Link(0, "d", 1), Link(0, "x", 2), Link(0, "y", 3), Link(1, "z", 4));
    SampleRows(fs);
  }

  lemma SampleRows(fs: FS)
    requires IsSample(fs)
    ensures forall x | x in fs && x != 0 :: x in {1, 2, 3, 4} && fs[x].nlink == 1
  {
  }

  lemma EachOnce(links: set<Link>, a: Link, b: Link, c: Link, d: Link)
    requires links == {a, b, c, d} && a.ino == 1 && b.ino == 2 && c.ino == 3 && d.ino == 4
    ensures forall x | x in {1, 2, 3, 4} :: |To(links, x)| == 1
    ensures forall l | l in links :: l.ino != 0
  {
    SampleCount(links, 1, a);
    SampleCount(links, 2, b);
    SampleCount(links, 3, c);
    SampleCount(links, 4, d);
  }

  lemma TidyLinks(links: set<Link>, a: Link, b: Link, c: Link, d: Link)
    requires links == {a, b, c, d} && Tidy(a.name) && Tidy(b.name) && Tidy(c.name) && Tidy(d.name)
    ensures forall l | l in links :: Tidy(l.name)
  {
  }

  lemma SampleLinks(fs: FS)
    requires IsSample(fs)
    ensures Links(fs) == {Link(0, "d", 1), Link(0, "x", 2), Link(0, "y", 3), Link(1, "z", 4)}
  {
    SampleChildren(fs);
    forall l ensures HasLink(fs, l) <==> l in {Link(0, "d", 1), Link(0, "x", 2), Link(0, "y", 3), Link(1, "z", 4)} {
      if HasLink(fs, l) { assert Find(fs[l.dir].content.entries, l.name).value in fs[l.dir].content.entries; }
    }
  }

  lemma SampleCount(links: set<Link>, x: Id, l: Link)
    requires l in links && l.ino == x && forall k | k in links && k.ino == x :: k == l
    ensures |To(links, x)| == 1
  {
    assert To(links, x) == {l};
  }

  lemma SampleWellFormed(fs: FS)
    requires IsSample(fs)
    ensures WellFormed(fs) && TidyNames(["d"]) && IsName("f") && Tidy("f")
    ensures forall n | n in {"d", "x", "y", "z"} :: IsName(n) && Tidy(n)
  {
    TidyWord("d");
    TidyWord("f");
    TidyWord("x");
    TidyWord("y");
    TidyWord("z");
  }

  lemma SampleChildren(fs: FS)
    requires IsSample(fs)
    ensures Child(fs, 0, "d") == Some(1) && Child(fs, 0, "x") == Some(2) && Child(fs, 0, "y") == Some(3)
    ensures forall n :: Child(fs, 1, n) == if n == "z" then Some(4) else None
    ensures At(fs, 0, []) == Some(0) && At(fs, 0, ["d"]) == Some(1)
  {
    var es := fs[0].content.entries;
    assert es[1..] == [Entry(2, "x", FileKind), Entry(3, "y", FileKind)] && es[1..][1..] == [Entry(3, "y", FileKind)];
    assert fs[1].content.entries[1..] == [];
    AtSnoc(fs, 0, [], "d");
    assert [] + ["d"] == ["d"];
  }

  /** What mvOne settles on, from what its paths resolve to. */
  lemma PlanIs(fs: FS, root: Id, src: string, dst: string, found: Found, p: Plan)
    requires ResolvePath(fs, root, src, true) == Ok(found) && found.rest == []
    requires ResolveParent(fs, root, src) == Ok((p.sp, p.sn)) && ResolveParent(fs, root, dst) == Ok((p.dp, p.dn))
    requires p.dp in fs && fs[p.dp].IsDir()
    ensures MovePlan(fs, root, src, dst) == Ok(p) && p.sp in fs && IsName(p.dn)
    ensures var u := Step(Tree(fs, fs), p.sp, p.sn, p.dp, p.dn);
            MoveOne(fs, root, src, dst) == if u.Err? then Err(u.error)
                else Ok((u.value, Captured(Tree(fs, fs), p.dp, p.dn)))
  {
    ParentInStore(fs, root, src);
    ParentInStore(fs, root, dst);
  }

  /** mv /x /d/x: the file z that /d listed has lost its only entry, and is still there. */
  lemma MvDropsListing() returns (fs: FS, src: string, dst: string)
    ensures IsSample(fs) && Healthy(fs)
    ensures var r := MoveOne(fs, 0, src, dst);
            r.Ok? && Child(r.value.0.fs, 1, "x") == Some(2)
            && 4 in r.value.0.fs && r.value.0.fs[4].nlink == 1 && forall l | l in Links(r.value.0.fs) :: l.ino != 4
  {
    fs := Sample();
    src, dst := SampleMove(fs, "x", 2, "x");
    DropsZ(fs);
  }

  lemma SampleMove(fs: FS, sn: string, c: Id, dn: string) returns (src: string, dst: string)
    requires IsSample(fs) && dn in {"f", "x"} && (sn, c) in {("d", 1), ("x", 2), ("y", 3)}
    ensures var u := Step(Tree(fs, fs), 0, sn, 1, dn);
            IsName(dn) && (MoveOne(fs, 0, src, dst) == if u.Err? then Err(u.error) else Ok((u.value, [])))
  {
    src, dst := SampleEnds(fs, sn, c, dn);
    PlanIs(fs, 0, src, dst, Found(c, [] + [sn], []), Plan(0, sn, 1, dn));
    CapturesNone(fs, dn);
  }

  lemma CapturesNone(fs: FS, dn: string)
    requires IsSample(fs)
    ensures Captured(Tree(fs, fs), 1, dn) == []
  {
    SampleChildren(fs);
  }

  lemma SampleEnds(fs: FS, sn: string, c: Id, dn: string) returns (src: string, dst: string)
    requires IsSample(fs) && dn in {"f", "x"} && (sn, c) in {("d", 1), ("x", 2), ("y", 3)}
    ensures ResolveParent(fs, 0, src) == Ok((0, sn)) && ResolveParent(fs, 0, dst) == Ok((1, dn))
    ensures ResolvePath(fs, 0, src, true) == Ok(Found(c, [] + [sn], []))
  {
    SampleWellFormed(fs);
    SampleChildren(fs);
    src := PathTo(fs, 0, [], sn, 0);
    dst := PathTo(fs, 0, ["d"], dn, 1);
  }

  lemma DropsZ(fs: FS)
    requires IsSample(fs) && IsName("x")
    ensures var u := Step(Tree(fs, fs), 0, "x", 1, "x");
            u.Ok? && Child(u.value.fs, 1, "x") == Some(2)
            && 4 in u.value.fs && u.value.fs[4].nlink == 1 && forall l | l in Links(u.value.fs) :: l.ino != 4
  {
    SampleChildren(fs);
    MoveFacts.StepOnStore(fs, 0, "x", 1, "x");
    MoveFacts.Delivered(fs, 0, "x", 1, "x");
    forall l | l in Links(MoveListings(fs, 0, "x", 1, "x")) ensures l.ino != 4 {
      MoveLink(fs, 0, "x", 1, "x", l);
      if HasLink(fs, l) { SampleLink(fs, l); }
    }
  }

  lemma SampleLink(fs: FS, l: Link)
    requires IsSample(fs) && HasLink(fs, l)
    ensures if l.dir == 0 then l.ino in {1, 2, 3} else l == Link(1, "z", 4)
  {
    SampleChildren(fs);
    assert Find(fs[l.dir].content.entries, l.name).value in fs[l.dir].content.entries;
  }

  /** An inode no listing mentions has no entry. */
  lemma NoEntry(fs: FS, x: Id)
    requires forall d, e | d in fs && fs[d].IsDir() && e in fs[d].content.entries :: e.ino != x
    ensures forall l | l in Links(fs) :: l.ino != x
  {
    forall l | l in Links(fs) ensures l.ino != x {
      assert Find(fs[l.dir].content.entries, l.name).value in fs[l.dir].content.entries;
    }
  }

  /** mv /d /d/f: nothing stops the move, and /d becomes its own parent. */
  lemma MvIntoItself() returns (fs: FS, src: string, dst: string)
    ensures IsSample(fs) && Healthy(fs)
    ensures var r := MoveOne(fs, 0, src, dst);
            r.Ok? && Link(1, "f", 1) in Links(r.value.0.fs) && !Acyclic(r.value.0.fs)
  {
    fs := Sample();
    SampleChildren(fs);
    src, dst := SampleMove(fs, "d", 1, "f");
    OwnParent(fs);
  }

  lemma SampleRanked(fs: FS)
    requires IsSample(fs)
    ensures Acyclic(fs)
  {
    var rank: map<Id, nat> := map[0 := 0, 1 := 1, 2 := 2, 3 := 3, 4 := 4];
    forall l | l in Links(fs) ensures rank[l.dir] < rank[l.ino] { SampleLink(fs, l); }
    assert Ranked(fs, rank);
  }

  lemma OwnParent(fs: FS)
    requires IsSample(fs) && IsName("f")
    ensures var u := Step(Tree(fs, fs), 0, "d", 1, "f");
            u.Ok? && Link(1, "f", 1) in Links(u.value.fs) && !Acyclic(u.value.fs)
  {
    SampleChildren(fs);
    MoveFacts.StepOnStore(fs, 0, "d", 1, "f");
    MoveLink(fs, 0, "d", 1, "f", Link(1, "f", 1));
  }

  /** mv /x /y /d: /d lists y alone, and x has no entry left anywhere. */
  lemma MvBatchKeepsLast() returns (fs: FS, x: string, y: string, d: string)
    ensures IsSample(fs) && Healthy(fs)
    ensures var r := MoveMany(fs, 0, [x, y], d);
            r.Ok? && Child(r.value.0.fs, 1, "y") == Some(3) && Child(r.value.0.fs, 1, "x").None?
            && 2 in r.value.0.fs && forall l | l in Links(r.value.0.fs) :: l.ino != 2
  {
    fs := Sample();
    x, y, d := MovesBoth(fs);
  }

  lemma MovesBoth(fs: FS) returns (x: string, y: string, d: string)
    requires IsSample(fs)
    ensures var r := MoveMany(fs, 0, [x, y], d);
            r.Ok? && Child(r.value.0.fs, 1, "y") == Some(3) && Child(r.value.0.fs, 1, "x").None?
            && 2 in r.value.0.fs && forall l | l in Links(r.value.0.fs) :: l.ino != 2
  {
    x, y, d := SampleBatch(fs);
    BatchSteps(fs, [Source(0, "x", 2), Source(0, "y", 3)]);
  }

  lemma SampleBatch(fs: FS) returns (x: string, y: string, d: string)
    requires IsSample(fs)
    ensures ResolvePath(fs, 0, d, true) == Ok(Found(1, [] + ["d"], []))
    ensures Gather(fs, 0, [x, y], {}) == Ok([Source(0, "x", 2), Source(0, "y", 3)])
  {
    SampleWellFormed(fs);
    SampleChildren(fs);
    x := PathTo(fs, 0, [], "x", 0);
    y := PathTo(fs, 0, [], "y", 0);
    d := PathTo(fs, 0, [], "d", 0);
    GatherTwo(fs, 0, x, y, Found(2, [] + ["x"], []), Found(3, [] + ["y"], []), (0, "x"), (0, "y"));
  }

  lemma GatherTwo(fs: FS, root: Id, p: string, q: string, f: Found, g: Found, a: (Id, string), b: (Id, string))
    requires ResolvePath(fs, root, p, true) == Ok(f) && f.rest == [] && ResolveParent(fs, root, p) == Ok(a)
    requires ResolvePath(fs, root, q, true) == Ok(g) && g.rest == [] && ResolveParent(fs, root, q) == Ok(b)
    requires a.1 != b.1
    ensures Gather(fs, root, [p, q], {}) == Ok([Source(a.0, a.1, f.ino), Source(b.0, b.1, g.ino)])
  {
    GatherOne(fs, root, q, g, b, {} + {a.1});
    Move.GatherHead(fs, root, [p, q], {});
    assert [p, q][1..] == [q];
    assert [Source(a.0, a.1, f.ino)] + [Source(b.0, b.1, g.ino)] == [Source(a.0, a.1, f.ino), Source(b.0, b.1, g.ino)];
  }

  lemma GatherOne(fs: FS, root: Id, q: string, g: Found, b: (Id, string), seen: set<string>)
    requires ResolvePath(fs, root, q, true) == Ok(g) && g.rest == [] && ResolveParent(fs, root, q) == Ok(b)
    requires b.1 !in seen
    ensures Gather(fs, root, [q], seen) == Ok([Source(b.0, b.1, g.ino)])
  {
    Move.GatherHead(fs, root, [q], seen);
    assert [q][1..] == [] && [Source(b.0, b.1, g.ino)] + [] == [Source(b.0, b.1, g.ino)];
  }

  function AfterX(fs: FS): FS {
    fs[0 := Inode(0, Dir([Entry(1, "d", DirectoryKind), Entry(3, "y", FileKind)]))]
      [1 := Inode(1, Dir([Entry(2, "x", FileKind)]))]
  }

  function AfterY(fs: FS): FS {
    fs[0 := Inode(0, Dir([Entry(1, "d", DirectoryKind)]))][1 := Inode(1, Dir([Entry(3, "y", FileKind)]))]
  }

  lemma BatchSteps(fs: FS, srcs: seq<Source>)
    requires IsSample(fs) && srcs == [Source(0, "x", 2), Source(0, "y", 3)]
    ensures forall s | s in srcs :: Ready(Tree(fs, fs), s.dir, 1) && IsName(s.name)
    ensures Apply(Tree(fs, fs), srcs, 1).Ok? && Apply(Tree(fs, fs), srcs, 1).value.0.fs == AfterY(fs)
    ensures Child(AfterY(fs), 1, "y") == Some(3) && Child(AfterY(fs), 1, "x").None?
    ensures 2 in AfterY(fs) && forall l | l in Links(AfterY(fs)) :: l.ino != 2
  {
    SampleWellFormed(fs);
    FirstStep(fs);
    SecondStep(fs);
    ApplyTwo(Tree(fs, fs), Source(0, "x", 2), Source(0, "y", 3), 1, Tree(AfterX(fs), AfterX(fs)),
             Tree(AfterY(fs), AfterY(fs)));
    AfterYLists(fs, AfterY(fs));
  }

  lemma AfterYLists(fs: FS, gs: FS)
    requires IsSample(fs) && gs == AfterY(fs)
    ensures Child(gs, 1, "y") == Some(3) && Child(gs, 1, "x").None?
    ensures 2 in gs && forall l | l in Links(gs) :: l.ino != 2
  {
    assert gs[1].content.entries[1..] == [];
    NoEntry(gs, 2);
  }

  lemma ApplyTwo(t: Tree, a: Source, b: Source, dp: Id, u: Tree, v: Tree)
    requires Ready(t, a.dir, dp) && IsName(a.name) && Ready(t, b.dir, dp) && IsName(b.name)
    requires Step(t, a.dir, a.name, dp, a.name) == Ok(u)
    requires Ready(u, b.dir, dp) && Step(u, b.dir, b.name, dp, b.name) == Ok(v)
    ensures forall s | s in [a, b] :: Ready(t, s.dir, dp) && IsName(s.name)
    ensures Apply(t, [a, b], dp).Ok? && Apply(t, [a, b], dp).value.0 == v
  {
    assert [a, b][1..] == [b] && [b][1..] == [];
    assert Apply(v, [], dp) == Ok((v, []));
    assert Apply(u, [b], dp).Ok? && Apply(u, [b], dp).value.0 == v;
  }

  lemma FirstStep(fs: FS)
    requires IsSample(fs) && IsName("x")
    ensures Step(Tree(fs, fs), 0, "x", 1, "x") == Ok(Tree(AfterX(fs), AfterX(fs)))
  {
    var es := fs[0].content.entries;
    SampleChildren(fs);
    MoveFacts.StepOnStore(fs, 0, "x", 1, "x");
    assert es[1..] == [Entry(2, "x", FileKind), Entry(3, "y", FileKind)] && es[1..][1..] == [Entry(3, "y", FileKind)];
    assert Keep(es, {"x"}) == [Entry(1, "d", DirectoryKind), Entry(3, "y", FileKind)];
  }

  lemma SecondStep(fs: FS)
    requires IsSample(fs) && IsName("y")
    ensures Step(Tree(AfterX(fs), AfterX(fs)), 0, "y", 1, "y") == Ok(Tree(AfterY(fs), AfterY(fs)))
  {
    var one := AfterX(fs);
    var es := one[0].content.entries;
    assert es[1..] == [Entry(3, "y", FileKind)] && es[1..][1..] == [] && one[1].content.entries[1..] == [];
    assert Find(es, "y") == Some(Entry(3, "y", FileKind)) && Find(one[1].content.entries, "y").None?;
    assert Keep(es, {"y"}) == [Entry(1, "d", DirectoryKind)];
    assert View(one, 0, one[0], 1, one[1]) == one;
    assert MoveListings(one, 0, "y", 1, "y") == AfterY(fs);
  }

  // ---------------------------------------------------------------- several sources and cycles

  ghost predicate IsDeep(fs: FS) {
    fs.Keys == {0, 1, 2, 3} && fs[1] == Inode(1, Dir([Entry(3, "b", DirectoryKind)]))
    && fs[0] == Inode(0, Dir([Entry(1, "a", DirectoryKind), Entry(2, "x", FileKind)]))
    && fs[2] == Inode(1, File("")) && fs[3] == Inode(1, Dir([]))
  }

  /** The store when /a/b lists e alone, and both entries of / have been moved. */
  function AllInto(fs: FS, e: Entry): FS {
    fs[0 := Inode(0, Dir([]))][3 := Inode(1, Dir([e]))]
  }

  /** The directories /a and /a/b and the file /x. mv /x /a /a/b is not refused, and leaves
      a and b in each other; mv /a /x /a/b leaves no cycle, since the second move drops a. */
  lemma MvBatchCycle() returns (fs: FS, x: string, a: string, b: string)
    ensures IsDeep(fs) && Healthy(fs)
    ensures var r := MoveMany(fs, 0, [x, a], b);
            r.Ok? && Link(1, "b", 3) in Links(r.value.0.fs) && Link(3, "a", 1) in Links(r.value.0.fs)
            && !Acyclic(r.value.0.fs)
    ensures var r := MoveMany(fs, 0, [a, x], b); r.Ok? && Acyclic(r.value.0.fs)
  {
    fs := Deep();
    x, a, b := DeepPaths(fs);
    DeepMove(fs, x, a, b, Entry(2, "x", FileKind), Entry(1, "a", DirectoryKind));
    DeepMove(fs, a, x, b, Entry(1, "a", DirectoryKind), Entry(2, "x", FileKind));
    DeepCycle(fs, AllInto(fs, Entry(1, "a", DirectoryKind)));
    DeepNoCycle(fs, AllInto(fs, Entry(2, "x", FileKind)));
  }

  lemma Deep() returns (fs: FS)
    ensures IsDeep(fs) && Healthy(fs) && WellFormed(fs)
  {
    fs := map[0 := Inode(0, Dir([Entry(1, "a", DirectoryKind), Entry(2, "x", FileKind)])),
              1 := Inode(1, Dir([Entry(3, "b", DirectoryKind)])), 2 := Inode(1, File("")), 3 := Inode(1, Dir([]))];
    DeepHealthy(fs);
  }

  lemma DeepMove(fs: FS, p: string, q: string, b: string, e: Entry, k: Entry)
    requires IsDeep(fs) && ResolvePath(fs, 0, b, true) == Ok(Found(3, ["a"] + ["b"], []))
    requires Gather(fs, 0, [p, q], {}) == Ok([Source(0, e.name, e.ino), Source(0, k.name, k.ino)])
    requires {e, k} == {Entry(1, "a", DirectoryKind), Entry(2, "x", FileKind)} && e != k
    ensures MoveMany(fs, 0, [p, q], b).Ok? && MoveMany(fs, 0, [p, q], b).value.0.fs == AllInto(fs, k)
  {
    DeepBatch(fs, e, k);
  }

  lemma DeepListings(fs: FS)
    requires IsDeep(fs)
    ensures forall n :: Child(fs, 0, n) == if n == "a" then Some(1) else if n == "x" then Some(2) else None
    ensures forall n :: Child(fs, 1, n) == if n == "b" then Some(3) else None
    ensures IsName("a") && IsName("b") && IsName("x") && TidyNames(["a"]) && Tidy("a") && Tidy("b") && Tidy("x")
    ensures At(fs, 0, []) == Some(0) && At(fs, 0, ["a"]) == Some(1)
  {
    var es := fs[0].content.entries;
    assert es[1..] == [Entry(2, "x", FileKind)] && es[1..][1..] == [] && fs[1].content.entries[1..] == [];
    TidyWord("a");
    TidyWord("b");
    TidyWord("x");
    AtSnoc(fs, 0, [], "a");
    assert [] + ["a"] == ["a"];
  }

  lemma DeepHealthy(fs: FS)
    requires IsDeep(fs)
    ensures Healthy(fs) && WellFormed(fs)
  {
    DeepWellFormed(fs);
    DeepRanked(fs);
    DeepCounts(fs);
    TreeHealthy(fs);
  }

  lemma DeepWellFormed(fs: FS)
    requires IsDeep(fs)
    ensures WellFormed(fs)
  {
    DeepListings(fs);
  }

  lemma DeepLinks(fs: FS)
    requires IsDeep(fs)
    ensures Links(fs) == {Link(0, "a", 1), Link(0, "x", 2), Link(1, "b", 3)}
  {
    DeepListings(fs);
    forall l ensures HasLink(fs, l) <==> l in {Link(0, "a", 1), Link(0, "x", 2), Link(1, "b", 3)} {
      if HasLink(fs, l) { assert Child(fs, l.dir, l.name) == Some(l.ino); }
    }
  }

  lemma DeepRanked(fs: FS)
    requires IsDeep(fs)
    ensures Acyclic(fs)
  {
    DeepLinks(fs);
    RankedBy(fs, Links(fs), map[0 := 0, 1 := 1, 2 := 1, 3 := 2]);
  }

  lemma DeepCounts(fs: FS)
    requires IsDeep(fs)
    ensures forall l | l in Links(fs) :: l.ino != 0
    ensures forall x | x in fs && x != 0 ::
              |To(Links(fs), x)| == fs[x].nlink && fs[x].nlink >= 1 && (!fs[x].Regular() ==> fs[x].nlink == 1)
  {
    DeepLinks(fs);
    ThreeOnce(Links(fs), Link(0, "a", 1), Link(0, "x", 2), Link(1, "b", 3));
    DeepRows(fs);
  }

  lemma ThreeOnce(links: set<Link>, a: Link, b: Link, c: Link)
    requires links == {a, b, c} && a.ino == 1 && b.ino == 2 && c.ino == 3
    ensures forall x | x in {1, 2, 3} :: |To(links, x)| == 1
    ensures forall l | l in links :: l.ino != 0
  {
    SampleCount(links, 1, a);
    SampleCount(links, 2, b);
    SampleCount(links, 3, c);
  }

  lemma DeepRows(fs: FS)
    requires IsDeep(fs)
    ensures forall x | x in fs && x != 0 :: x in {1, 2, 3} && fs[x].nlink == 1
  {
  }

  lemma DeepPaths(fs: FS) returns (x: string, a: string, b: string)
    requires IsDeep(fs) && WellFormed(fs)
    ensures ResolvePath(fs, 0, b, true) == Ok(Found(3, ["a"] + ["b"], []))
    ensures Gather(fs, 0, [x, a], {}) == Ok([Source(0, "x", 2), Source(0, "a", 1)])
    ensures Gather(fs, 0, [a, x], {}) == Ok([Source(0, "a", 1), Source(0, "x", 2)])
  {
    DeepListings(fs);
    x := PathTo(fs, 0, [], "x", 0);
    a := PathTo(fs, 0, [], "a", 0);
    b := PathTo(fs, 0, ["a"], "b", 1);
    GatherTwo(fs, 0, x, a, Found(2, [] + ["x"], []), Found(1, [] + ["a"], []), (0, "x"), (0, "a"));
    GatherTwo(fs, 0, a, x, Found(1, [] + ["a"], []), Found(2, [] + ["x"], []), (0, "a"), (0, "x"));
  }

  /** A move from / into /a/b, of an entry /a/b does not list. */
  lemma DeepStep(fs: FS, e: Entry, rest: seq<Entry>)
    requires 0 in fs && fs[0].IsDir() && 3 in fs && fs[3].IsDir() && IsName(e.name)
    requires Find(fs[0].content.entries, e.name) == Some(e) && Find(fs[3].content.entries, e.name).None?
    requires Keep(fs[0].content.entries, {e.name}) == rest
    ensures var gs := fs[0 := fs[0].(content := Dir(rest))][3 := fs[3].(content := Dir([e]))];
            Step(Tree(fs, fs), 0, e.name, 3, e.name) == Ok(Tree(gs, gs))
  {
    MoveFacts.StepOnStore(fs, 0, e.name, 3, e.name);
    assert e.(name := e.name) == e;
  }

  /** The store when / lists k alone, and /a/b lists e. */
  function OneInto(fs: FS, e: Entry, k: Entry): FS {
    fs[0 := Inode(0, Dir([k]))][3 := Inode(1, Dir([e]))]
  }

  lemma DeepBatch(fs: FS, e: Entry, k: Entry)
    requires IsDeep(fs) && {e, k} == {Entry(1, "a", DirectoryKind), Entry(2, "x", FileKind)} && e != k
    ensures var srcs := [Source(0, e.name, e.ino), Source(0, k.name, k.ino)];
            (forall s | s in srcs :: Ready(Tree(fs, fs), s.dir, 3) && IsName(s.name))
            && Apply(Tree(fs, fs), srcs, 3).Ok? && Apply(Tree(fs, fs), srcs, 3).value.0.fs == AllInto(fs, k)
  {
    var one, two := OneInto(fs, e, k), AllInto(fs, k);
    DeepListings(fs);
    DeepSteps(fs, e, k);
    ApplyTwo(Tree(fs, fs), Source(0, e.name, e.ino), Source(0, k.name, k.ino), 3, Tree(one, one), Tree(two, two));
  }

  lemma DeepSteps(fs: FS, e: Entry, k: Entry)
    requires IsDeep(fs) && IsName(e.name) && IsName(k.name)
    requires {e, k} == {Entry(1, "a", DirectoryKind), Entry(2, "x", FileKind)} && e != k
    ensures Step(Tree(fs, fs), 0, e.name, 3, e.name) == Ok(Tree(OneInto(fs, e, k), OneInto(fs, e, k)))
    ensures var one := OneInto(fs, e, k);
            Step(Tree(one, one), 0, k.name, 3, k.name) == Ok(Tree(AllInto(fs, k), AllInto(fs, k)))
  {
    DeepKeep(fs[0].content.entries, e, k);
    DeepStep(fs, e, [k]);
    var one := OneInto(fs, e, k);
    assert [k][1..] == [] && [e][1..] == [];
    DeepStep(one, k, []);
    assert one[0 := Inode(0, Dir([]))][3 := Inode(1, Dir([k]))] == AllInto(fs, k);
  }

  lemma DeepKeep(es: seq<Entry>, e: Entry, k: Entry)
    requires es == [Entry(1, "a", DirectoryKind), Entry(2, "x", FileKind)] && e != k && e in es && k in es
    ensures Find(es, e.name) == Some(e) && Keep(es, {e.name}) == [k]
  {
    var tail := es[1..];
    assert tail == [Entry(2, "x", FileKind)] && tail[1..] == [];
    assert Keep(tail[1..], {e.name}) == [];
    assert Keep(tail, {e.name}) == if e.name == "x" then [] else tail;
  }

  lemma DeepCycle(fs: FS, gs: FS)
    requires IsDeep(fs) && gs == AllInto(fs, Entry(1, "a", DirectoryKind))
    ensures Link(1, "b", 3) in Links(gs) && Link(3, "a", 1) in Links(gs) && !Acyclic(gs)
  {
    assert HasLink(gs, Link(1, "b", 3)) && HasLink(gs, Link(3, "a", 1));
  }

  lemma DeepNoCycle(fs: FS, gs: FS)
    requires IsDeep(fs) && gs == AllInto(fs, Entry(2, "x", FileKind))
    ensures Acyclic(gs)
  {
    var rank: map<Id, nat> := map[0 := 0, 1 := 0, 3 := 1, 2 := 2];
    forall l | l in Links(gs) ensures rank[l.dir] < rank[l.ino] {
      assert Find(gs[l.dir].content.entries, l.name).value in gs[l.dir].content.entries;
    }
    assert Ranked(gs, rank);
  }

  // ---------------------------------------------------------------- rm on the shipped repository

  /** rm /x /y, two files of one directory: with reads that see what was removed before,
      both go; with committed reads and checked revisions the second is refused. */
  lemma RmSiblingsRefused() returns (fs: FS, x: string, y: string)
    ensures IsSample(fs) && Healthy(fs) && TidyStore(fs) && TidyPaths([x, y])
    ensures Remove.AllPlain(fs, 0, [x, y], false)
    ensures EntRemove.AllTargets(fs, 0, [x, y], false) && !EntRemove.Removable(fs, 0, [x, y], false)
  {
    fs := Sample();
    SampleTidy(fs);
    x, y := SiblingPaths(fs);
  }

  lemma SiblingPaths(fs: FS) returns (x: string, y: string)
    requires IsSample(fs) && Healthy(fs)
    ensures TidyPaths([x, y]) && Remove.AllPlain(fs, 0, [x, y], false)
    ensures EntRemove.AllTargets(fs, 0, [x, y], false) && !EntRemove.AllSeparate(fs, 0, [x, y])
  {
    x, y := TwoFiles(fs);
    BothTargets(fs, x, y);
    TwoPlain(fs, Cut(fs, {Link(0, "x", 2)}), 0, x, y);
    BothClash(fs, x, y);
  }

  lemma TwoFiles(fs: FS) returns (x: string, y: string)
    requires IsSample(fs) && Healthy(fs)
    ensures RootFile(fs, x, "x", 2) && RootFile(fs, y, "y", 3)
    ensures Remove.PlainTarget(Cut(fs, {Link(0, "x", 2)}), 0, y, false)
  {
    SampleChildren(fs);
    x := SamplePath(fs, "x", 2);
    y := SamplePath(fs, "y", 3);
    StillThere(fs, y);
  }

  /** A path to a file of the root directory: a plain target, whose entry is all rm removes. */
  ghost predicate RootFile(fs: FS, p: string, n: string, c: Id) {
    AllTidy(Split(p)) && Comps(p) == [n]
    && Remove.PlainTarget(fs, 0, p, false) && EntRemove.Target(fs, 0, p, false)
    && HasLeaf(fs, 0, p) && RemovedLinks(fs, 0, p) == {Link(0, n, c)}
  }

  lemma BothTargets(fs: FS, x: string, y: string)
    requires AllTidy(Split(x)) && EntRemove.Target(fs, 0, x, false)
    requires AllTidy(Split(y)) && EntRemove.Target(fs, 0, y, false)
    ensures TidyPaths([x, y]) && EntRemove.AllTargets(fs, 0, [x, y], false)
  {
    assert forall p | p in [x, y] :: p == x || p == y;
  }

  lemma TwoPlain(fs: FS, gs: FS, root: Id, p: string, q: string)
    requires Remove.PlainTarget(fs, root, p, false) && HasLeaf(fs, root, p) && gs == Cut(fs, RemovedLinks(fs, root, p))
    requires Remove.PlainTarget(gs, root, q, false)
    ensures Remove.AllPlain(fs, root, [p, q], false)
  {
    assert [p, q][1..] == [q] && [q][1..] == [];
    assert Remove.AllPlain(gs, root, [q], false);
  }

  lemma BothClash(fs: FS, x: string, y: string)
    requires RootFile(fs, x, "x", 2) && RootFile(fs, y, "y", 3)
    ensures !EntRemove.AllSeparate(fs, 0, [x, y])
  {
    var a, b := EntRemove.RemovedBy(fs, 0, [x, y][0]), EntRemove.RemovedBy(fs, 0, [x, y][1]);
    assert Link(0, "x", 2) in a && Link(0, "y", 3) in b;
    assert !EntRemove.NoClash(a, b);
  }

  lemma SamplePath(fs: FS, n: string, c: Id) returns (p: string)
    requires IsSample(fs) && n in {"x", "y"} && Child(fs, 0, n) == Some(c) && c in {2, 3}
    ensures RootFile(fs, p, n, c)
  {
    SampleWellFormed(fs);
    p := PathOf([n]);
    TidyPath(n);
    assert [] + [n] == [n];
    PathResolves(fs, 0, [], n, 0);
    AtSnoc(fs, 0, [], n);
    assert [n][..0] == [];
  }

  lemma TidyPath(n: string)
    requires IsName(n) && Tidy(n)
    ensures AllTidy(Split(PathOf([n]))) && Comps(PathOf([n])) == [n]
  {
    NamesTidyComps([n]);
    assert Join([n]) == n && "/" + n == "" + "/" + n;
    SplitConcat("", n);
    SplitAtom(n);
  }

  lemma SampleTidy(fs: FS)
    requires IsSample(fs)
    ensures TidyStore(fs)
  {
    SampleWellFormed(fs);
    SampleLinks(fs);
    TidyLinks(Links(fs), Link(0, "d", 1), Link(0, "x", 2), Link(0, "y", 3), Link(1, "z", 4));
    NoSymlinks(fs);
  }

  lemma NoSymlinks(fs: FS)
    requires IsSample(fs)
    ensures TidyTargets(fs)
  {
    assert forall x | x in fs :: x in {0, 1, 2, 3, 4};
  }

  /** A row whose entry stays, and a name in it. */
  lemma OneLess(fs: FS, l: Link, x: Id, n: string)
    requires x in fs && x != l.ino
    ensures var gs := Cut(fs, {l});
            x in gs && (gs[x].IsDir() <==> fs[x].IsDir()) && (!fs[x].IsDir() ==> gs[x].content == fs[x].content)
            && Child(gs, x, n) == if x == l.dir && n == l.name then None else Child(fs, x, n)
  {
    assert To({l}, x) == {} && CutNames({l}, x) == if x == l.dir then {l.name} else {};
    if fs[x].IsDir() { FindKeep(fs[x].content.entries, CutNames({l}, x), n); }
  }

  /** /y after rm /x. */
  lemma StillThere(fs: FS, y: string)
    requires IsSample(fs) && Healthy(fs) && Comps(y) == ["y"]
    ensures Remove.PlainTarget(Cut(fs, {Link(0, "x", 2)}), 0, y, false)
  {
    SampleChildren(fs);
    OneLess(fs, Link(0, "x", 2), 0, "y");
    OneLess(fs, Link(0, "x", 2), 3, "");
    RootEntry(Cut(fs, {Link(0, "x", 2)}), "y", 3);
  }

  lemma RootEntry(fs: FS, n: string, c: Id)
    requires Child(fs, 0, n) == Some(c)
    ensures At(fs, 0, [n]) == Some(c)
  {
    AtSnoc(fs, 0, [], n);
    assert [] + [n] == [n];
  }

  // ---------------------------------------------------------------- rm of a path with a blank in it

  ghost predicate IsSpaced(fs: FS) {
    fs.Keys == {0, 1, 2, 3, 4}
    && fs[0] == Inode(0, Dir([Entry(1, "x", DirectoryKind), Entry(2, "x" + " ", DirectoryKind)]))
    && fs[1] == Inode(1, Dir([Entry(3, "y", DirectoryKind)])) && fs[2] == Inode(1, Dir([Entry(4, "y", FileKind)]))
    && fs[3] == Inode(1, Dir([])) && fs[4] == Inode(1, File(""))
  }

  /** Two directories whose names differ in a trailing blank, a directory y in one and a file y
      in the other. rm of "/x /y", without -r, resolves the path to the file and removes the
      directory /x/y. */
  lemma RmTakesDirectory() returns (fs: FS, p: string)
    ensures IsSpaced(fs) && Healthy(fs)
    ensures ResolvePath(fs, 0, p, true).Ok? && ResolvePath(fs, 0, p, true).value.ino == 4 && fs[4].content.File?
    ensures HasLeaf(fs, 0, p) && LeafLink(fs, 0, p) == Link(1, "y", 3) && fs[3].IsDir()
    ensures 3 !in Cut(fs, {LeafLink(fs, 0, p)})
  {
    fs := map[0 := Inode(0, Dir([Entry(1, "x", DirectoryKind), Entry(2, "x" + " ", DirectoryKind)])),
              1 := Inode(1, Dir([Entry(3, "y", DirectoryKind)])), 2 := Inode(1, Dir([Entry(4, "y", FileKind)])),
              3 := Inode(1, Dir([])), 4 := Inode(1, File(""))];
    SpacedHealthy(fs);
    p := SpacedPath(fs, "x" + " ", "y");
    ToOne(Link(1, "y", 3), 3);
  }

  lemma SpacedChildren(fs: FS)
    requires IsSpaced(fs)
    ensures forall n :: Child(fs, 0, n) == if n == "x" then Some(1) else if n == "x" + " " then Some(2) else None
    ensures forall n :: Child(fs, 1, n) == if n == "y" then Some(3) else None
    ensures forall n :: Child(fs, 2, n) == if n == "y" then Some(4) else None
    ensures forall d, n | d !in {0, 1, 2} :: Child(fs, d, n).None?
  {
    assert fs[0].content.entries[1..] == [Entry(2, "x" + " ", DirectoryKind)];
    assert fs[1].content.entries[1..] == [] && fs[2].content.entries[1..] == [];
  }

  lemma SpacedLinks(fs: FS)
    requires IsSpaced(fs)
    ensures Links(fs) == {Link(0, "x", 1), Link(0, "x" + " ", 2), Link(1, "y", 3), Link(2, "y", 4)}
  {
    SpacedChildren(fs);
    forall l
      ensures HasLink(fs, l) <==> l in {Link(0, "x", 1), Link(0, "x" + " ", 2), Link(1, "y", 3), Link(2, "y", 4)} {
      assert HasLink(fs, l) <==> Child(fs, l.dir, l.name) == Some(l.ino);
    }
  }

  lemma SpacedHealthy(fs: FS)
    requires IsSpaced(fs)
    ensures Healthy(fs) && WellFormed(fs)
  {
    SpacedWellFormed(fs, "x" + " ");
    SpacedRanked(fs);
    SpacedCounts(fs);
    TreeHealthy(fs);
  }

  lemma SpacedRanked(fs: FS)
    requires IsSpaced(fs)
    ensures Acyclic(fs)
  {
    SpacedLinks(fs);
    RankedBy(fs, Links(fs), map[0 := 0, 1 := 1, 2 := 1, 3 := 2, 4 := 2]);
  }

  lemma SpacedCounts(fs: FS)
    requires IsSpaced(fs)
    ensures forall l | l in Links(fs) :: l.ino != 0
    ensures forall x | x in fs && x != 0 ::
              |To(Links(fs), x)| == fs[x].nlink && fs[x].nlink >= 1 && (!fs[x].Regular() ==> fs[x].nlink == 1)
  {
    SpacedLinks(fs);
    EachOnce(Links(fs), Link(0, "x", 1), Link(0, "x" + " ", 2), Link(1, "y", 3), Link(2, "y", 4));
    assert forall x | x in fs && x != 0 :: x in {1, 2, 3, 4} && fs[x].nlink == 1;
  }

  lemma SpacedWellFormed(fs: FS, x: string)
    requires IsSpaced(fs) && x == "x" + " "
    ensures WellFormed(fs)
  {
    UntidyNames(x, "y");
    assert ListingOk(fs, fs[0].content.entries);
  }

  lemma SpacedPath(fs: FS, x: string, y: string) returns (p: string)
    requires IsSpaced(fs) && WellFormed(fs) && x == "x" + " " && y == "y"
    ensures ResolvePath(fs, 0, p, true).Ok? && ResolvePath(fs, 0, p, true).value.ino == 4
    ensures ResolveParent(fs, 0, p) == Ok((1, "y")) && Child(fs, 1, "y") == Some(3)
  {
    p := "/" + x + "/" + y;
    ParentOfUntidy(x, y);
    SpacedChildren(fs);
    TwoDown(fs, 0, x, y, 2, 4);
    TwoDown(fs, 0, "x", y, 1, 3);
    ResolvePlain(fs, 0, p, true, 4);
    ResolvePlain(fs, 0, ParentPath(p), true, 1);
  }

  lemma TwoDown(fs: FS, root: Id, a: string, b: string, d: Id, c: Id)
    requires Child(fs, root, a) == Some(d) && Child(fs, d, b) == Some(c)
    ensures At(fs, root, [a]) == Some(d) && At(fs, root, [a, b]) == Some(c)
  {
    AtSnoc(fs, root, [], a);
    AtSnoc(fs, root, [a], b);
    assert [] + [a] == [a] && [a] + [b] == [a, b];
  }

  // ---------------------------------------------------------------- rm of a link and of a link to it

  ghost predicate IsChained(fs: FS) {
    fs.Keys == {0, 1, 2, 3, 4} && fs[1] == Inode(1, Dir([Entry(4, "k", SymlinkKind)]))
    && fs[0] == Inode(0, Dir([Entry(1, "c", DirectoryKind), Entry(2, "f", FileKind), Entry(3, "l", SymlinkKind)]))
    && fs[2] == Inode(1, File("")) && fs[3] == Inode(1, Symlink(PathOf(["f"])))
    && fs[4] == Inode(1, Symlink(PathOf(["l"])))
  }

  /** A file /f, a link /l to it, and in a directory c a link k to /l. rm /l /c/k: with
      committed reads both paths lead to the file, and both links go; where reads see what
      was removed before, /c/k leads nowhere by its turn, and nothing goes. */
  lemma RmStaleLink() returns (fs: FS, l: string, k: string)
    ensures IsChained(fs) && Healthy(fs) && TidyStore(fs) && TidyPaths([l, k])
    ensures EntRemove.Removable(fs, 0, [l, k], false) && !Remove.AllRemovable(fs, 0, [l, k], false)
  {
    fs := Chained();
    l, k := StaleLink(fs);
  }

  lemma Chained() returns (fs: FS)
    ensures IsChained(fs) && Healthy(fs) && WellFormed(fs) && TidyStore(fs)
  {
    fs := map[0 := Inode(0, Dir([Entry(1, "c", DirectoryKind), Entry(2, "f", FileKind), Entry(3, "l", SymlinkKind)])),
              1 := Inode(1, Dir([Entry(4, "k", SymlinkKind)])),
              2 := Inode(1, File("")), 3 := Inode(1, Symlink(PathOf(["f"]))), 4 := Inode(1, Symlink(PathOf(["l"])))];
    ChainedHealthy(fs);
    ChainedTidy(fs);
  }

  lemma StaleLink(fs: FS) returns (l: string, k: string)
    requires IsChained(fs) && WellFormed(fs)
    ensures TidyPaths([l, k]) && EntRemove.Removable(fs, 0, [l, k], false) && !Remove.AllRemovable(fs, 0, [l, k], false)
  {
    l, k := ChainedPaths(fs);
    LinksApart(fs, l, k);
    LinkStale(fs, l, k);
  }

  lemma ChainedNames()
    ensures forall n | n in {"c", "f", "l", "k"} :: IsName(n) && Tidy(n)
  {
    TidyWord("c");
    TidyWord("f");
    TidyWord("l");
    TidyWord("k");
  }

  /** What the names lead to, from the root and from c; nothing else is a directory. */
  lemma ChainedListings(fs: FS)
    requires IsChained(fs)
    ensures forall n :: Child(fs, 0, n) == ChainedChild(n)
    ensures forall n :: Child(fs, 1, n) == if n == "k" then Some(4) else None
    ensures forall d, n | d != 0 && d != 1 :: Child(fs, d, n).None?
  {
    var es := fs[0].content.entries;
    assert es[1..] == [Entry(2, "f", FileKind), Entry(3, "l", SymlinkKind)];
    assert es[1..][1..] == [Entry(3, "l", SymlinkKind)];
    assert fs[1].content.entries[1..] == [];
  }

  function ChainedChild(n: string): Option<Id> {
    if n == "c" then Some(1) else if n == "f" then Some(2) else if n == "l" then Some(3) else None
  }

  lemma ChainedLinks(fs: FS)
    requires IsChained(fs)
    ensures Links(fs) == {Link(0, "c", 1), Link(0, "f", 2), Link(0, "l", 3), Link(1, "k", 4)}
  {
    ChainedListings(fs);
    LinksOfChildren(fs);
  }

  lemma LinksOfChildren(fs: FS)
    requires forall n :: Child(fs, 0, n) == ChainedChild(n)
    requires forall n :: Child(fs, 1, n) == if n == "k" then Some(4) else None
    requires forall d, n | d != 0 && d != 1 :: Child(fs, d, n).None?
    ensures Links(fs) == {Link(0, "c", 1), Link(0, "f", 2), Link(0, "l", 3), Link(1, "k", 4)}
  {
    forall l ensures HasLink(fs, l) <==> l in {Link(0, "c", 1), Link(0, "f", 2), Link(0, "l", 3), Link(1, "k", 4)} {
      assert HasLink(fs, l) <==> Child(fs, l.dir, l.name) == Some(l.ino);
    }
  }

  lemma ChainedHealthy(fs: FS)
    requires IsChained(fs)
    ensures Healthy(fs) && WellFormed(fs)
  {
    ChainedWellFormed(fs);
    ChainedRanked(fs);
    ChainedCounts(fs);
    TreeHealthy(fs);
  }

  lemma ChainedWellFormed(fs: FS)
    requires IsChained(fs)
    ensures WellFormed(fs)
  {
    ChainedNames();
    RootListing(fs, fs[0].content.entries);
    assert ListingOk(fs, fs[1].content.entries);
  }

  lemma RootListing(fs: FS, es: seq<Entry>)
    requires es == [Entry(1, "c", DirectoryKind), Entry(2, "f", FileKind), Entry(3, "l", SymlinkKind)]
    requires forall n | n in {"c", "f", "l"} :: IsName(n)
    requires {1, 2, 3} <= fs.Keys
    requires fs[1].Kind() == DirectoryKind && fs[2].Kind() == FileKind && fs[3].Kind() == SymlinkKind
    ensures ListingOk(fs, es)
  {
  }

  lemma ChainedRanked(fs: FS)
    requires IsChained(fs)
    ensures Acyclic(fs)
  {
    ChainedLinks(fs);
    RankedFour(fs, Link(0, "c", 1), Link(0, "f", 2), Link(0, "l", 3), Link(1, "k", 4));
  }

  function Depth(x: Id): nat { if x == 0 then 0 else if x == 4 then 2 else 1 }

  ghost predicate Deeper(fs: FS, l: Link) { l.dir in fs && l.ino in fs && Depth(l.dir) < Depth(l.ino) }

  lemma RankedFour(fs: FS, a: Link, b: Link, c: Link, d: Link)
    requires Links(fs) == {a, b, c, d} && Deeper(fs, a) && Deeper(fs, b) && Deeper(fs, c) && Deeper(fs, d)
    ensures Acyclic(fs)
  {
    forall l | l in Links(fs) ensures Deeper(fs, l) {}
    RankedBy(fs, Links(fs), map x | x in fs :: Depth(x));
  }

  lemma ChainedCounts(fs: FS)
    requires IsChained(fs)
    ensures forall l | l in Links(fs) :: l.ino != 0
    ensures forall x | x in fs && x != 0 ::
              |To(Links(fs), x)| == fs[x].nlink && fs[x].nlink >= 1 && (!fs[x].Regular() ==> fs[x].nlink == 1)
  {
    ChainedLinks(fs);
    EachOnce(Links(fs), Link(0, "c", 1), Link(0, "f", 2), Link(0, "l", 3), Link(1, "k", 4));
    assert forall x | x in fs && x != 0 :: x in {1, 2, 3, 4} && fs[x].nlink == 1;
  }

  lemma ChainedTidy(fs: FS)
    requires IsChained(fs)
    ensures TidyStore(fs)
  {
    ChainedLinks(fs);
    ChainedNames();
    TidyLinks(Links(fs), Link(0, "c", 1), Link(0, "f", 2), Link(0, "l", 3), Link(1, "k", 4));
    ChainedTargets(fs);
  }

  lemma ChainedTargets(fs: FS)
    requires IsChained(fs)
    ensures TidyTargets(fs)
  {
    ChainedNames();
    TidyPath("f");
    TidyPath("l");
    forall x | x in fs && fs[x].content.Symlink? ensures AllTidy(Split(fs[x].content.target)) {
      assert x == 3 || x == 4;
    }
  }

  /** The walk at a symlink to a path, as the last component. */
  lemma AtLastLink(fs: FS, root: Id, done: seq<string>, cur: Id, n: string, c: Id, target: string, visited: set<Id>)
    requires root in fs && cur in fs && fs[cur].IsDir() && Child(fs, cur, n) == Some(c) && c in fs
    requires fs[c].content == Symlink(PathOf([target])) && c !in visited && |visited| < MAX_SYMLINK_DEPTH
    requires IsName(target) && Tidy(target)
    ensures WalkFrom(fs, root, done, cur, [n], true, visited) ==
            WalkFrom(fs, root, [], root, [target], true, visited + {c})
  {
    assert [n][1..] == [] && Join([]) == "";
    TidyPath(target);
  }

  /** The links l and k of the root and of c, and the paths of both. */
  lemma ChainedPaths(fs: FS) returns (l: string, k: string)
    requires IsChained(fs) && WellFormed(fs)
    ensures AllTidy(Split(l)) && Comps(l) == ["l"] && ResolveParent(fs, 0, l) == Ok((0, "l"))
    ensures AllTidy(Split(k)) && Comps(k) == ["c", "k"] && ResolveParent(fs, 0, k) == Ok((1, "k"))
  {
    ChainedListings(fs);
    ChainedNames();
    AtSnoc(fs, 0, [], "c");
    assert [] + ["c"] == ["c"];
    l := TidyPathTo(fs, [], "l", 0);
    k := TidyPathTo(fs, ["c"], "k", 1);
  }

  lemma TidyPathTo(fs: FS, init: seq<string>, n: string, d: Id) returns (p: string)
    requires WellFormed(fs) && 0 in fs && |init| <= 1 && TidyNames(init) && IsName(n) && Tidy(n)
    requires At(fs, 0, init) == Some(d) && d in fs && fs[d].IsDir()
    ensures AllTidy(Split(p)) && Comps(p) == init + [n] && ResolveParent(fs, 0, p) == Ok((d, n))
  {
    p := PathOf(init + [n]);
    PathResolves(fs, 0, init, n, d);
    if init == [] {
      assert init + [n] == [n];
      TidyPath(n);
    } else {
      assert init + [n] == [init[0], n];
      TidyPathOfTwo(init[0], n);
    }
  }

  lemma TidyPathOfTwo(a: string, b: string)
    requires IsName(a) && Tidy(a) && IsName(b) && Tidy(b)
    ensures AllTidy(Split(PathOf([a, b]))) && Comps(PathOf([a, b])) == [a, b]
  {
    NamesTidyComps([a, b]);
    assert [a, b][1..] == [b] && Join([a, b]) == a + "/" + b && "/" + (a + "/" + b) == "" + "/" + (a + "/" + b);
    SplitConcat("", a + "/" + b);
    SplitConcat(a, b);
    SplitAtom(a);
    SplitAtom(b);
  }

  /** On the store as it is, both links lead to the file. */
  lemma BothLead(fs: FS, l: string, k: string)
    requires IsChained(fs) && Comps(l) == ["l"] && Comps(k) == ["c", "k"]
    ensures ResolvePath(fs, 0, l, true) == Ok(Found(2, ["f"], []))
    ensures ResolvePath(fs, 0, k, true) == Ok(Found(2, ["f"], []))
  {
    ChainedListings(fs);
    ChainedNames();
    ToFile(fs, {3});
    ToFile(fs, {4} + {3});
    AtLastLink(fs, 0, [], 0, "l", 3, "f", {});
    assert {} + {3} == {3} && {} + {4} == {4};
    AtLastLink(fs, 0, [], 0, "l", 3, "f", {4});
    AtLastLink(fs, 0, ["c"], 1, "k", 4, "l", {});
    IntoC(fs);
  }

  lemma ToFile(fs: FS, visited: set<Id>)
    requires IsChained(fs)
    ensures WalkFrom(fs, 0, [], 0, ["f"], true, visited) == Ok(Found(2, ["f"], []))
  {
    ChainedListings(fs);
    assert ["f"][1..] == [] && [] + ["f"] == ["f"];
  }

  lemma IntoC(fs: FS)
    requires 0 in fs && fs[0].IsDir() && Child(fs, 0, "c") == Some(1) && 1 in fs && fs[1].IsDir()
    ensures WalkFrom(fs, 0, [], 0, ["c", "k"], true, {}) == WalkFrom(fs, 0, ["c"], 1, ["k"], true, {})
  {
    assert ["c", "k"][1..] == ["k"] && [] + ["c"] == ["c"];
  }

  lemma LinksApart(fs: FS, l: string, k: string)
    requires IsChained(fs) && Comps(l) == ["l"] && Comps(k) == ["c", "k"]
    requires ResolveParent(fs, 0, l) == Ok((0, "l")) && ResolveParent(fs, 0, k) == Ok((1, "k"))
    requires AllTidy(Split(l)) && AllTidy(Split(k))
    ensures HasLeaf(fs, 0, l) && RemovedLinks(fs, 0, l) == {Link(0, "l", 3)}
    ensures TidyPaths([l, k]) && EntRemove.Removable(fs, 0, [l, k], false)
  {
    LinksRemoved(fs, l, k);
    BothTargets(fs, l, k);
    ApartIsSeparate(fs, l, k, Link(0, "l", 3), Link(1, "k", 4));
  }

  lemma LinksRemoved(fs: FS, l: string, k: string)
    requires IsChained(fs) && Comps(l) == ["l"] && Comps(k) == ["c", "k"]
    requires ResolveParent(fs, 0, l) == Ok((0, "l")) && ResolveParent(fs, 0, k) == Ok((1, "k"))
    ensures HasLeaf(fs, 0, l) && RemovedLinks(fs, 0, l) == {Link(0, "l", 3)}
    ensures EntRemove.RemovedBy(fs, 0, l) == {Link(0, "l", 3)} && EntRemove.RemovedBy(fs, 0, k) == {Link(1, "k", 4)}
    ensures EntRemove.Target(fs, 0, l, false) && EntRemove.Target(fs, 0, k, false)
  {
    BothLead(fs, l, k);
    ChainedEnds(fs);
    OneLinkRemoved(fs, l, Link(0, "l", 3));
    OneLinkRemoved(fs, k, Link(1, "k", 4));
  }

  lemma ChainedEnds(fs: FS)
    requires IsChained(fs)
    ensures Child(fs, 0, "l") == Some(3) && Child(fs, 1, "k") == Some(4) && 2 in fs && fs[2].content.File?
  {
    ChainedListings(fs);
  }

  /** A path to a file, by an entry of its parent. */
  lemma OneLinkRemoved(fs: FS, p: string, l: Link)
    requires ResolveParent(fs, 0, p) == Ok((l.dir, l.name)) && Child(fs, l.dir, l.name) == Some(l.ino)
    requires var out := ResolvePath(fs, 0, p, true); out.Ok? && out.value.ino in fs && fs[out.value.ino].content.File?
    ensures HasLeaf(fs, 0, p) && RemovedLinks(fs, 0, p) == EntRemove.RemovedBy(fs, 0, p) == {l}
    ensures EntRemove.Target(fs, 0, p, false)
  {
  }

  lemma ApartIsSeparate(fs: FS, p: string, q: string, a: Link, b: Link)
    requires EntRemove.RemovedBy(fs, 0, p) == {a} && EntRemove.RemovedBy(fs, 0, q) == {b}
    requires a.dir != b.dir && a.ino != b.ino
    ensures EntRemove.AllSeparate(fs, 0, [p, q])
  {
    var paths := [p, q];
    forall i | 0 <= i < |paths| ensures EntRepo.Separate(EntRemove.RemovedBy(fs, 0, paths[i])) {
      assert i == 0 || i == 1;
    }
    forall i, j | 0 <= i < j < |paths|
      ensures EntRemove.NoClash(EntRemove.RemovedBy(fs, 0, paths[i]), EntRemove.RemovedBy(fs, 0, paths[j])) {
      assert i == 0 && j == 1;
    }
  }

  /** After rm /l, the link /c/k leads nowhere. */
  lemma LinkStale(fs: FS, l: string, k: string)
    requires IsChained(fs) && HasLeaf(fs, 0, l) && RemovedLinks(fs, 0, l) == {Link(0, "l", 3)} && Comps(k) == ["c", "k"]
    ensures !Remove.AllRemovable(fs, 0, [l, k], false)
  {
    var gs := Cut(fs, {Link(0, "l", 3)});
    LeadsNowhere(fs, gs, k);
    SecondFails(fs, gs, l, k);
  }

  lemma SecondFails(fs: FS, gs: FS, l: string, k: string)
    requires HasLeaf(fs, 0, l) && gs == Cut(fs, RemovedLinks(fs, 0, l)) && ResolvePath(gs, 0, k, true).Err?
    ensures !Remove.AllRemovable(fs, 0, [l, k], false)
  {
    assert [l, k][1..] == [k];
    assert !Remove.Removable(gs, 0, k, false);
  }

  lemma LeadsNowhere(fs: FS, gs: FS, k: string)
    requires IsChained(fs) && gs == Cut(fs, {Link(0, "l", 3)}) && Comps(k) == ["c", "k"]
    ensures ResolvePath(gs, 0, k, true).Err?
  {
    WithoutL(fs, gs);
    IntoC(gs);
    TidyWord("l");
    AtLastLink(gs, 0, ["c"], 1, "k", 4, "l", {});
  }

  lemma WithoutL(fs: FS, gs: FS)
    requires IsChained(fs) && gs == Cut(fs, {Link(0, "l", 3)})
    ensures 0 in gs && gs[0].IsDir() && Child(gs, 0, "c") == Some(1) && Child(gs, 0, "l").None?
    ensures 1 in gs && gs[1].IsDir() && Child(gs, 1, "k") == Some(4) && 4 in gs && gs[4].content == fs[4].content
  {
    ChainedListings(fs);
    OneLess(fs, Link(0, "l", 3), 0, "c");
    OneLess(fs, Link(0, "l", 3), 0, "l");
    OneLess(fs, Link(0, "l", 3), 1, "k");
    OneLess(fs, Link(0, "l", 3), 4, "");
  }

  // ---------------------------------------------------------------- tombstones

  const BLOB: Ref := Ref("bucket", "key")

  ghost predicate IsShared(fs: FS) {
    fs.Keys == {0, 1} && fs[1] == Inode(2, Object(BLOB))
    && fs[0] == Inode(0, Dir([Entry(1, "a", ObjectKind), Entry(1, "b", ObjectKind)]))
  }

  /** One object under two names, and the paths of both. */
  lemma Shared() returns (fs: FS, a: string, b: string)
    ensures IsShared(fs) && Healthy(fs) && Child(fs, 0, "a") == Some(1) && Child(fs, 0, "b") == Some(1)
    ensures ResolveParent(fs, 0, a) == Ok((0, "a")) && ResolvePath(fs, 0, a, true) == Ok(Found(1, [] + ["a"], []))
    ensures ResolveParent(fs, 0, b) == Ok((0, "b"))
  {
    fs := map[0 := Inode(0, Dir([Entry(1, "a", ObjectKind), Entry(1, "b", ObjectKind)])), 1 := Inode(2, Object(BLOB))];
    SharedHealthy(fs);
    TidyWord("a");
    TidyWord("b");
    assert fs[0].content.entries[1..] == [Entry(1, "b", ObjectKind)];
    a := PathTo(fs, 0, [], "a", 0);
    b := PathTo(fs, 0, [], "b", 0);
  }

  /** rm /a: the object stays, under /b, and its reference is tombstoned. */
  lemma RmTombstonesSurvivor() returns (fs: FS, a: string)
    ensures IsShared(fs) && Healthy(fs) && 1 in RmAll(fs, 0, [a]) && BLOB in RmGarbage(fs, 0, [a])
  {
    var b;
    fs, a, b := Shared();
    RmOne(fs, 0, a, Found(1, [] + ["a"], []), (0, "a"));
    SharedCut(fs, {Link(0, "a", 1)});
  }

  lemma SharedHealthy(fs: FS)
    requires IsShared(fs)
    ensures Healthy(fs)
  {
    SharedTree(fs);
    SharedLinks(fs);
    TreeHealthy(fs);
  }

  lemma SharedTree(fs: FS)
    requires IsShared(fs)
    ensures WellFormed(fs) && Acyclic(fs)
  {
    TidyWord("a");
    TidyWord("b");
    forall l | l in Links(fs) ensures l.ino == 1 {
      assert Find(fs[l.dir].content.entries, l.name).value in fs[l.dir].content.entries;
    }
    assert Ranked(fs, map[0 := 0, 1 := 1]);
  }

  lemma SharedLinks(fs: FS)
    requires IsShared(fs)
    ensures Links(fs) == {Link(0, "a", 1), Link(0, "b", 1)} && |To(Links(fs), 1)| == 2
  {
    assert fs[0].content.entries[1..] == [Entry(1, "b", ObjectKind)];
    forall l ensures HasLink(fs, l) <==> l in {Link(0, "a", 1), Link(0, "b", 1)} {
      if HasLink(fs, l) { assert Find(fs[l.dir].content.entries, l.name).value in fs[l.dir].content.entries; }
    }
    assert To(Links(fs), 1) == {Link(0, "a", 1), Link(0, "b", 1)};
  }

  lemma SharedCut(fs: FS, c: set<Link>)
    requires IsShared(fs) && c == {Link(0, "a", 1)}
    ensures 1 in Cut(fs, c) && BLOB in Garbage(fs, c)
  {
    assert To(c, 1) == c;
    assert Link(0, "a", 1) in c && fs[1].Garbage() == Some(BLOB);
  }

  lemma RmOne(fs: FS, root: Id, p: string, f: Found, at: (Id, string))
    requires ResolvePath(fs, root, p, true) == Ok(f) && ResolveParent(fs, root, p) == Ok(at)
    requires Child(fs, at.0, at.1) == Some(f.ino) && f.ino in fs && !fs[f.ino].IsDir()
    ensures var c := {Link(at.0, at.1, f.ino)};
            RmAll(fs, root, [p]) == Cut(fs, c) && RmGarbage(fs, root, [p]) == Garbage(fs, c)
  {
    assert RemovedLinks(fs, root, p) == {Link(at.0, at.1, f.ino)};
    assert [p][1..] == [];
  }

  /** mv /a /b: the entries already name one inode, nothing moves, and the object's
      reference is tombstoned all the same. */
  lemma MvTombstonesItself() returns (fs: FS, a: string, b: string)
    ensures IsShared(fs) && Healthy(fs) && MoveOne(fs, 0, a, b) == Ok((Tree(fs, fs), [BLOB]))
  {
    fs, a, b := Shared();
    PlanIs(fs, 0, a, b, Found(1, [] + ["a"], []), Plan(0, "a", 0, "b"));
    MoveFacts.StepOnStore(fs, 0, "a", 0, "b");
  }

  // ---------------------------------------------------------------- cycles that are none

  /** A symlink l to the root, and a file f. */
  function Looping(): FS {
    map[0 := Inode(0, Dir([Entry(1, "l", SymlinkKind), Entry(2, "f", FileKind)])),
        1 := Inode(1, Symlink("/")), 2 := Inode(1, File(""))]
  }

  lemma LoopingChildren()
    ensures Child(Looping(), 0, "l") == Some(1) && Child(Looping(), 0, "f") == Some(2)
    ensures Resume([], "/") == ([], [])
    ensures TidyNames(["l", "f"]) && TidyNames(["l", "l", "f"]) && AllTidy(Split("/"))
  {
    TidyWord("l");
    TidyWord("f");
    assert Looping()[0].content.entries[1..] == [Entry(2, "f", FileKind)];
    assert "/"[1..] == "" && Split("/") == ["", ""];
    assert ["", ""][1..] == [""] && [""][1..] == [];
  }

  /** /l/l/f leads to f, and is reported as a cycle. */
  lemma FiniteButCyclic()
    ensures ResolvePath(Looping(), 0, PathOf(["l", "l", "f"]), true) == Err(SymlinkCycle)
    ensures Derives(Looping(), 0, [], Comps(PathOf(["l", "l", "f"])), true,
                    Follow(1, Follow(1, Down(Arrive))), Found(2, ["f"], []))
  {
    LoopingChildren();
    NamesTidyComps(["l", "l", "f"]);
    SeenTwice(Looping(), PathOf(["l", "l", "f"]));
    TwoFollows(Looping());
  }

  lemma SeenTwice(fs: FS, p: string)
    requires fs == Looping() && Comps(p) == ["l", "l", "f"]
    ensures ResolvePath(fs, 0, p, true) == Err(SymlinkCycle)
  {
    LoopingChildren();
    assert ["l", "l", "f"][1..] == ["l", "f"] && [] + [] + ["l", "f"] == ["l", "f"];
    SplicedMeans([], "/", ["l", "f"]);
    AtSymlink(fs, ["l", "l", "f"], {});
    AtSymlink(fs, ["l", "f"], {1});
  }

  /** The turn of the walk at the symlink. */
  lemma AtSymlink(fs: FS, todo: seq<string>, visited: set<Id>)
    requires fs == Looping() && todo != [] && todo[0] == "l" && |visited| < MAX_SYMLINK_DEPTH
    ensures WalkFrom(fs, 0, [], 0, todo, true, visited) ==
            if 1 in visited then Err(SymlinkCycle)
            else WalkFrom(fs, 0, [], 0, Comps(Spliced([], "/", todo[1..])), true, visited + {1})
  {
    LoopingChildren();
  }

  lemma ThenDown(fs: FS)
    requires fs == Looping()
    ensures Derives(fs, 0, [], ["f"], true, Down(Arrive), Found(2, ["f"], []))
  {
    LoopingChildren();
    AtSnoc(fs, 0, [], "f");
    assert ["f"][1..] == [] && [] + ["f"] == ["f"];
    assert Derives(fs, 0, ["f"], [], true, Arrive, Found(2, ["f"], []));
  }

  lemma OneFollow(fs: FS)
    requires fs == Looping()
    ensures Derives(fs, 0, [], ["l", "f"], true, Follow(1, Down(Arrive)), Found(2, ["f"], []))
  {
    LoopingChildren();
    ThenDown(fs);
    assert ["l", "f"][1..] == ["f"] && [] + ["f"] == ["f"];
  }

  lemma TwoFollows(fs: FS)
    requires fs == Looping()
    ensures Derives(fs, 0, [], ["l", "l", "f"], true, Follow(1, Follow(1, Down(Arrive))), Found(2, ["f"], []))
  {
    LoopingChildren();
    OneFollow(fs);
    assert ["l", "l", "f"][1..] == ["l", "f"] && [] + ["l", "f"] == ["l", "f"];
  }

  const WORK: DriveId := "work"
  const TWO: map<DriveId, Id> := map[HOME := 0, WORK := 3]

  /** Two drives, each mounted in the other. */
  function Crossed(): FS {
    map[0 := Inode(0, Dir([Entry(1, "m", MountKind), Entry(2, "f", FileKind)])),
        1 := Inode(1, Mount(WORK)), 2 := Inode(1, File("")),
        3 := Inode(0, Dir([Entry(4, "n", MountKind)])), 4 := Inode(1, Mount(HOME))]
  }

  /** A walk that stops at a mount in the root directory. */
  lemma StopsAtOnce(fs: FS, root: Id, n: string, rest: seq<string>, c: Id)
    requires root in fs && TidyNames([n] + rest) && Child(fs, root, n) == Some(c) && c in fs && fs[c].content.Mount?
    ensures ResolvePath(fs, root, PathOf([n] + rest), true) == Ok(Found(c, [n], rest))
  {
    NamesTidyComps([n] + rest);
    assert ([n] + rest)[1..] == rest && [] + [n] == [n];
  }

  /** /m/n/f leads back to the home drive and its file f, and is reported as a cycle. */
  lemma ReturnIsCycle()
    ensures Mounts.Chain(Crossed(), TWO, true, CleanPath(PathOf(["m", "n", "f"])), [HOME, WORK, HOME], 2)
    ensures Mounts.ResolveWithMounts(Crossed(), TWO, HOME, PathOf(["m", "n", "f"]), true) == Err(MountCycle)
  {
    CrossedStops();
    CleanAlready();
    ThereAndBack(Crossed(), PathOf(["m", "n", "f"]), PathOf(["n", "f"]), PathOf(["f"]));
  }

  lemma CleanAlready()
    ensures CleanPath(PathOf(["m", "n", "f"])) == PathOf(["m", "n", "f"])
  {
    TidyWord("m");
    TidyWord("n");
    TidyWord("f");
    NamesTidyComps(["m", "n", "f"]);
    CleanPathForm(PathOf(["m", "n", "f"]));
  }

  lemma ThereAndBack(fs: FS, p: string, q: string, r: string)
    requires fs == Crossed() && q == PathOf(["n", "f"]) && r == PathOf(["f"])
    requires ResolvePath(fs, 0, p, true) == Ok(Found(1, ["m"], ["n", "f"]))
    requires ResolvePath(fs, 3, q, true) == Ok(Found(4, ["n"], ["f"]))
    requires ResolvePath(fs, 0, r, true) == Ok(Found(2, ["f"], []))
    ensures Mounts.Chain(fs, TWO, true, p, [HOME, WORK, HOME], 2)
    ensures Mounts.Cross(fs, TWO, HOME, p, true, {HOME}, 1) == Err(MountCycle)
  {
    Mounts.ChainOnward(fs, TWO, true, WORK, q, [HOME], 2);
    assert [WORK] + [HOME] == [WORK, HOME] && [HOME] + [WORK, HOME] == [HOME, WORK, HOME];
    Mounts.ChainOnward(fs, TWO, true, HOME, p, [WORK, HOME], 2);
    Mounts.CrossOnward(fs, TWO, HOME, p, true, {HOME}, 1);
  }

  lemma CrossedStops()
    ensures ResolvePath(Crossed(), 0, PathOf(["m", "n", "f"]), true) == Ok(Found(1, ["m"], ["n", "f"]))
    ensures ResolvePath(Crossed(), 3, PathOf(["n", "f"]), true) == Ok(Found(4, ["n"], ["f"]))
    ensures ResolvePath(Crossed(), 0, PathOf(["f"]), true) == Ok(Found(2, ["f"], []))
  {
    TidyWord("m");
    TidyWord("n");
    TidyWord("f");
    assert ["m"] + ["n", "f"] == ["m", "n", "f"] && ["n"] + ["f"] == ["n", "f"];
    StopsAtOnce(Crossed(), 0, "m", ["n", "f"], 1);
    StopsAtOnce(Crossed(), 3, "n", ["f"], 4);
    CrossedEnds();
  }

  lemma CrossedWellFormed()
    ensures WellFormed(Crossed()) && IsName("f") && Tidy("f")
  {
    TidyWord("m");
    TidyWord("n");
    TidyWord("f");
  }

  lemma CrossedEnds()
    ensures ResolvePath(Crossed(), 0, PathOf(["f"]), true) == Ok(Found(2, ["f"], []))
  {
    var fs := Crossed();
    CrossedWellFormed();
    assert fs[0].content.entries[1..] == [Entry(2, "f", FileKind)];
    assert [] + ["f"] == ["f"];
    PathResolves(fs, 0, [], "f", 0);
  }

  // ---------------------------------------------------------------- a second inode of one token

  const CALM := Faults(false, false, false)

  function Bare(): FS { map[0 := Inode(0, Dir([]))] }

  function Holding(x: Id, ref: Ref): FS { AddLink(Bare(), 0, "f", x, Inode(0, Object(ref))) }

  function TokenFor(p: string): PresignMeta {
    PresignMeta("t", HOME, "user", p, "bucket", Uploads.UploadKey(HOME, "t"), None, 0)
  }

  function RefFor(p: string): Ref { Ref(TokenFor(p).bucket, TokenFor(p).key) }

  /** The token has been issued, and its object uploaded. */
  function Started(p: string): Uploads.World {
    Uploads.World(Bare(), {RefFor(p)}, map["t" := Item(TokenFor(p), 0)], map["t" := TokenFor(p)], map[], map[])
  }

  ghost predicate HoldsToken(p: string, w: Uploads.World) {
    w.objects == {RefFor(p)} && w.items == map["t" := Item(TokenFor(p), 0)]
  }

  function Passed(p: string): Uploads.Pending { Uploads.Passed("t", TokenFor(p), HOME, 0) }

  function TokenCheck(c: nat): Uploads.Step { Uploads.Check(c, "user", HOME, "t", 0, 0, false) }

  /** Two completions of one token pass their checks; the first commits, rm /f frees the
      name, and the second commits: the token has made two inodes. */
  lemma TokenTwice() returns (worlds: seq<Uploads.World>, ids: seq<Id>, steps: seq<Uploads.Step>)
    ensures Uploads.Complete(worlds, ids, steps, ONE, map[])
    ensures Uploads.Served(worlds, ids, steps, Runs.Setup(ONE, {}, false, false), |steps|)
    ensures Uploads.Made(worlds[|steps|].made, "t") == [5, 6]
  {
    TidyWord("f");
    TidyPath("f");
    var p := PathOf(["f"]);
    var w0 := TokenIssued(p);
    var w1 := ChecksPass(p, w0, 1);
    var w2 := ChecksPass(p, w1, 2);
    var w3 := CommitGoes(p, w2, 1, 5);
    FreedByRm(p, 5, RefFor(p));
    var w4 := w3.(fs := Bare());
    var w5 := CommitGoes(p, w4, 2, 6);
    MadeBoth(w0.made, w3.made, w5.made);
    worlds, ids, steps := FiveSteps(w0, w1, w2, w3, w4, w5, Runs.Call(Runs.Rm(HOME, [p], false, false), CALM), ONE);
  }

  lemma TokenIssued(p: string) returns (w: Uploads.World)
    ensures w == Started(p) && HoldsToken(p, w) && Uploads.Tracked(w)
  {
    TidyWord("t");
    w := Started(p);
  }

  lemma FiveSteps(w0: Uploads.World, w1: Uploads.World, w2: Uploads.World, w3: Uploads.World, w4: Uploads.World,
                  w5: Uploads.World, call: Runs.Call, roots: map<DriveId, Id>)
      returns (worlds: seq<Uploads.World>, ids: seq<Id>, steps: seq<Uploads.Step>)
    requires Uploads.Tracked(w0) && w0.pending == map[]
    requires Uploads.Advances(w0, w1, roots, map[], TokenCheck(1), 0)
    requires Uploads.Advances(w1, w2, roots, map[], TokenCheck(2), 0)
    requires Uploads.Advances(w2, w3, roots, map[], Uploads.Commit(1, CALM), 5)
    requires Runs.Takes(w3.fs, w4.fs, Runs.Setup(roots, {}, false, false), call, 0) && w4 == w3.(fs := w4.fs)
    requires Uploads.Advances(w4, w5, roots, map[], Uploads.Commit(2, CALM), 6)
    ensures Uploads.Complete(worlds, ids, steps, roots, map[])
    ensures Uploads.Served(worlds, ids, steps, Runs.Setup(roots, {}, false, false), |steps|)
    ensures |steps| == 5 && worlds[5] == w5
  {
    worlds, ids := [w0, w1, w2, w3, w4, w5], [0, 0, 5, 0, 6];
    steps := [TokenCheck(1), TokenCheck(2), Uploads.Commit(1, CALM), Uploads.Other(call), Uploads.Commit(2, CALM)];
    FiveTraced(worlds, ids, steps, roots);
    OneServed(worlds, ids, steps, Runs.Setup(roots, {}, false, false));
  }

  lemma FiveTraced(worlds: seq<Uploads.World>, ids: seq<Id>, steps: seq<Uploads.Step>, roots: map<DriveId, Id>)
    requires |worlds| == 6 && |ids| == |steps| == 5
    requires Uploads.Advances(worlds[0], worlds[1], roots, map[], steps[0], ids[0])
    requires Uploads.Advances(worlds[1], worlds[2], roots, map[], steps[1], ids[1])
    requires Uploads.Advances(worlds[2], worlds[3], roots, map[], steps[2], ids[2])
    requires Uploads.Advances(worlds[3], worlds[4], roots, map[], steps[3], ids[3])
    requires Uploads.Advances(worlds[4], worlds[5], roots, map[], steps[4], ids[4])
    ensures Uploads.Trace(worlds, ids, steps, roots, map[], 5)
  {
    forall i | 0 <= i < 5 ensures Uploads.StepOk(worlds, ids, steps, roots, map[], i) {
      assert i == 0 || i == 1 || i == 2 || i == 3 || i == 4;
    }
  }

  lemma OneServed(worlds: seq<Uploads.World>, ids: seq<Id>, steps: seq<Uploads.Step>, s: Runs.Setup)
    requires |worlds| == 6 && |ids| == |steps| == 5 && forall i | 0 <= i < 5 :: steps[i].Other? ==> i == 3
    requires steps[3].Other? && Runs.Takes(worlds[3].fs, worlds[4].fs, s, steps[3].call, ids[3])
    ensures Uploads.Served(worlds, ids, steps, s, 5)
  {
  }

  lemma MadeBoth(a: map<string, seq<Id>>, b: map<string, seq<Id>>, c: map<string, seq<Id>>)
    requires a == map[] && b == a["t" := Uploads.Made(a, "t") + [5]] && c == b["t" := Uploads.Made(b, "t") + [6]]
    ensures Uploads.Made(c, "t") == [5, 6]
  {
  }

  lemma ChecksPass(p: string, w: Uploads.World, c: nat) returns (v: Uploads.World)
    requires HoldsToken(p, w) && c !in w.pending
    ensures HoldsToken(p, v) && v == w.(pending := w.pending[c := Passed(p)])
    ensures Uploads.Advances(w, v, ONE, map[], TokenCheck(c), 0)
  {
    v := w.(pending := w.pending[c := Passed(p)]);
  }

  lemma CommitGoes(p: string, w: Uploads.World, c: nat, x: Id) returns (v: Uploads.World)
    requires p == PathOf(["f"]) && IsName("f") && Tidy("f") && x != 0
    requires HoldsToken(p, w) && w.fs == Bare() && c in w.pending && w.pending[c] == Passed(p)
    ensures HoldsToken(p, v)
    ensures v == w.(fs := Holding(x, RefFor(p)), made := w.made["t" := Uploads.Made(w.made, "t") + [x]],
                    pending := w.pending[c := Uploads.Linked("t")])
    ensures Uploads.Advances(w, v, ONE, map[], Uploads.Commit(c, CALM), x)
  {
    FileParent(Bare(), p);
    KeyNotEmpty();
    v := w.(fs := Holding(x, RefFor(p)), made := w.made["t" := Uploads.Made(w.made, "t") + [x]],
            pending := w.pending[c := Uploads.Linked("t")]);
  }

  lemma KeyNotEmpty()
    ensures Uploads.UploadKey(HOME, "t") != ""
  {
    TidyWord("t");
    Uploads.KeyEndsInID(HOME, "t");
  }

  lemma FileParent(fs: FS, p: string)
    requires WellFormed(fs) && 0 in fs && fs[0].IsDir() && p == PathOf(["f"]) && IsName("f") && Tidy("f")
    ensures ResolveParent(fs, 0, p) == Ok((0, "f"))
    ensures var c := Child(fs, 0, "f");
            c.Some? && c.value in fs && fs[c.value].content.Object? ==>
              ResolvePath(fs, 0, p, true) == Ok(Found(c.value, ["f"], []))
  {
    assert [] + ["f"] == ["f"];
    PathResolves(fs, 0, [], "f", 0);
  }

  lemma HoldingRows(x: Id, ref: Ref)
    requires x != 0 && IsName("f")
    ensures var fs := Holding(x, ref);
            fs.Keys == {0, x} && fs[0] == Inode(0, Dir([Entry(x, "f", ObjectKind)])) && fs[x] == Inode(1, Object(ref))
            && WellFormed(fs) && Child(fs, 0, "f") == Some(x) && Links(fs) == {Link(0, "f", x)}
  {
    var fs := Holding(x, ref);
    assert fs[0].content.entries == [Entry(x, "f", ObjectKind)] && fs[0].content.entries[1..] == [];
    forall l ensures HasLink(fs, l) <==> l == Link(0, "f", x) {}
  }

  lemma WithoutF(x: Id, ref: Ref)
    requires x != 0 && IsName("f")
    ensures Cut(Holding(x, ref), {Link(0, "f", x)}) == Bare()
  {
    var fs, c := Holding(x, ref), {Link(0, "f", x)};
    HoldingRows(x, ref);
    assert To(c, x) == c && To(c, 0) == {} && CutNames(c, 0) == {"f"};
    assert Keep([Entry(x, "f", ObjectKind)], {"f"}) == [];
  }

  /** rm /f is one of the requests that may come in between. */
  lemma FreedByRm(p: string, x: Id, ref: Ref)
    requires p == PathOf(["f"]) && Comps(p) == ["f"] && IsName("f") && Tidy("f") && x != 0
    ensures Runs.RmTakes(Holding(x, ref), Bare(), Runs.Setup(ONE, {}, false, false), HOME, [p], false)
  {
    var fs, l := Holding(x, ref), Link(0, "f", x);
    HoldingRows(x, ref);
    WithoutF(x, ref);
    FileParent(fs, p);
    assert At(fs, 0, []) == Some(0);
    assert Pares(fs, Bare(), 0, {l});
    assert RemovedLinks(fs, 0, p) == {l};
    OnePathGoes(fs, Bare(), 0, p);
  }

  lemma OnePathGoes(fs: FS, gs: FS, root: Id, p: string)
    requires Remove.Removable(fs, root, p, false) && HasLeaf(fs, root, p) && gs == Cut(fs, RemovedLinks(fs, root, p))
    ensures Remove.AllRemovable(fs, root, [p], false) && RmAll(fs, root, [p]) == gs
  {
    assert [p][1..] == [];
    assert Remove.AllRemovable(gs, root, [], false) && RmAll(gs, root, []) == gs;
  }
}

/** What rm -r removes: the entries below a directory, and the entry the path names. */
module Removal {
  import opened Paths
  import opened Inodes
  import opened Graph
  import opened Moves
  import opened Walk

  // ---------------------------------------------------------------- the entries below a place

  /** d lies at or below the canonical path q. */
  ghost predicate Under(fs: FS, root: Id, q: seq<string>, d: Id) {
    exists r :: q <= r && At(fs, root, r) == Some(d)
  }

  ghost function SubLinks(fs: FS, root: Id, q: seq<string>): set<Link> {
    set l | l in Links(fs) && Under(fs, root, q, l.dir)
  }

  /** The part of SubLinks behind the names A of the directory at q. */
  ghost predicate InDone(fs: FS, root: Id, q: seq<string>, names: set<string>, l: Link) {
    (At(fs, root, q) == Some(l.dir) && l.name in names)
    || exists a :: a in names && Under(fs, root, q + [a], l.dir)
  }

  ghost function Done(fs: FS, root: Id, q: seq<string>, names: set<string>): set<Link> {
    set l | l in Links(fs) && InDone(fs, root, q, names, l)
  }

  function EntryNames(es: seq<Entry>): set<string> { set e | e in es :: e.name }

  lemma DoneNothing(fs: FS, root: Id, q: seq<string>)
    ensures Done(fs, root, q, {}) == {}
  {
  }

  lemma DoneAll(fs: FS, root: Id, q: seq<string>, n: Id)
    requires At(fs, root, q) == Some(n) && n in fs && fs[n].IsDir()
    ensures Done(fs, root, q, EntryNames(fs[n].content.entries)) == SubLinks(fs, root, q)
  {
    var names := EntryNames(fs[n].content.entries);
    forall l | l in Links(fs) ensures InDone(fs, root, q, names, l) <==> Under(fs, root, q, l.dir) {
      if Under(fs, root, q, l.dir) {
        var r :| q <= r && At(fs, root, r) == Some(l.dir);
        if r == q {
          assert Find(fs[n].content.entries, l.name).value in fs[n].content.entries;
        } else {
          UnderNext(fs, root, q, n, r);
          assert Under(fs, root, q + [r[|q|]], l.dir);
        }
      }
      forall a | Under(fs, root, q + [a], l.dir)
        ensures Under(fs, root, q, l.dir) { UnderShorter(fs, root, q, a, l.dir); }
      assert At(fs, root, q) == Some(l.dir) ==> Under(fs, root, q, l.dir);
    }
  }

  lemma UnderShorter(fs: FS, root: Id, q: seq<string>, a: string, d: Id)
    requires Under(fs, root, q + [a], d)
    ensures Under(fs, root, q, d)
  {
    var r :| q + [a] <= r && At(fs, root, r) == Some(d);
    assert q <= r;
  }

  lemma UnderNext(fs: FS, root: Id, q: seq<string>, n: Id, r: seq<string>)
    requires At(fs, root, q) == Some(n) && q <= r && r != q && At(fs, root, r).Some?
    ensures n in fs && fs[n].IsDir() && r[|q|] in EntryNames(fs[n].content.entries) && q + [r[|q|]] <= r
  {
    PrefixNext(q, r);
    NextIsEntry(fs, root, q, n, r[|q|], r);
  }

  lemma PrefixNext(q: seq<string>, r: seq<string>)
    requires q <= r && r != q
    ensures |q| < |r| && q + [r[|q|]] <= r
  {
    assert r[..|q|] == q;
  }

  lemma NextIsEntry(fs: FS, root: Id, q: seq<string>, n: Id, a: string, r: seq<string>)
    requires At(fs, root, q) == Some(n) && q + [a] <= r && At(fs, root, r).Some?
    ensures n in fs && fs[n].IsDir() && a in EntryNames(fs[n].content.entries)
  {
    AtPrefixOf(fs, root, q + [a], r);
    AtSnoc(fs, root, q, a);
    ChildNamed(fs, n, a);
  }

  lemma ChildNamed(fs: FS, n: Id, a: string)
    requires Child(fs, n, a).Some?
    ensures a in EntryNames(fs[n].content.entries)
  {
    var e := Find(fs[n].content.entries, a).value;
    assert e in fs[n].content.entries && e.name == a;
  }

  /** One name more: the entry itself and everything below it. */
  lemma DoneStep(fs: FS, root: Id, q: seq<string>, n: Id, names: set<string>, a: string, c: Id)
    requires At(fs, root, q) == Some(n) && Child(fs, n, a) == Some(c)
    ensures Done(fs, root, q, names + {a}) == Done(fs, root, q, names) + {Link(n, a, c)} + SubLinks(fs, root, q + [a])
  {
    forall l | l in Links(fs)
      ensures InDone(fs, root, q, names + {a}, l) <==>
              InDone(fs, root, q, names, l) || l == Link(n, a, c) || Under(fs, root, q + [a], l.dir)
    {
    }
  }

  /** Below a name that is no directory there is nothing. */
  lemma NothingBelowLeaf(fs: FS, root: Id, q: seq<string>, n: Id, a: string, c: Id)
    requires At(fs, root, q) == Some(n) && Child(fs, n, a) == Some(c) && (c in fs ==> !fs[c].IsDir())
    ensures SubLinks(fs, root, q + [a]) == {}
  {
    forall l | l in Links(fs) ensures !Under(fs, root, q + [a], l.dir) {
      if Under(fs, root, q + [a], l.dir) { UnderADirectory(fs, root, q, n, a, c, l.dir); }
    }
  }

  lemma UnderADirectory(fs: FS, root: Id, q: seq<string>, n: Id, a: string, c: Id, d: Id)
    requires At(fs, root, q) == Some(n) && Child(fs, n, a) == Some(c)
    requires Under(fs, root, q + [a], d) && d in fs && fs[d].IsDir()
    ensures c in fs && fs[c].IsDir()
  {
    var r :| q + [a] <= r && At(fs, root, r) == Some(d);
    AtSnoc(fs, root, q, a);
    AtPrefixOf(fs, root, q + [a], r);
  }

  // ---------------------------------------------------------------- what is not touched

  ghost predicate TreeOk(fs: FS, roots: map<DriveId, Id>, root: Id) {
    WellFormed(fs) && RootsOk(fs, roots) && CountsOk(fs, roots) && IsRoot(roots, root)
  }

  lemma CutTreeOk(fs: FS, roots: map<DriveId, Id>, root: Id, c: set<Link>)
    requires TreeOk(fs, roots, root) && c <= Links(fs)
    ensures TreeOk(Cut(fs, c), roots, root) && root in Cut(fs, c)
  {
    CutWellFormed(fs, roots, c);
    CutRoots(fs, roots, c);
    CutCounts(fs, roots, c);
  }

  lemma DirPlaceUnique(fs: FS, roots: map<DriveId, Id>, root: Id, p: seq<string>, q: seq<string>)
    requires TreeOk(fs, roots, root) && At(fs, root, p).Some? && At(fs, root, p) == At(fs, root, q)
    requires At(fs, root, p).value in fs && fs[At(fs, root, p).value].IsDir()
    ensures p == q
  {
    AtUnique(fs, roots, root, p, q);
  }

  /** An entry in the directory at r is outside Done(q, names) when r is above q, or
      behind another name of q. */
  lemma NotDone(fs: FS, roots: map<DriveId, Id>, root: Id, q: seq<string>, names: set<string>, r: seq<string>, l: Link)
    requires TreeOk(fs, roots, root) && At(fs, root, r) == Some(l.dir) && l in Links(fs)
    requires |r| < |q| || (r == q && l.name !in names) || (|r| > |q| && q <= r && r[|q|] !in names)
    ensures l !in Done(fs, root, q, names)
  {
    if At(fs, root, q) == Some(l.dir) { DirPlaceUnique(fs, roots, root, r, q); }
    forall a | a in names ensures !Under(fs, root, q + [a], l.dir) { NotBehind(fs, roots, root, q, names, a, r, l); }
  }

  lemma NotBehind(fs: FS, roots: map<DriveId, Id>, root: Id, q: seq<string>, names: set<string>, a: string,
                  r: seq<string>, l: Link)
    requires TreeOk(fs, roots, root) && At(fs, root, r) == Some(l.dir) && HasLink(fs, l) && a in names
    requires |r| <= |q| || (q <= r && r[|q|] !in names)
    ensures !Under(fs, root, q + [a], l.dir)
  {
    if Under(fs, root, q + [a], l.dir) {
      var s :| q + [a] <= s && At(fs, root, s) == Some(l.dir);
      assert s[|q|] == a;
      DirPlaceUnique(fs, roots, root, r, s);
    }
  }

  /** So the way to any place above q, or behind a name of q not yet done, is intact. */
  lemma {:induction false} AvoidsDone(fs: FS, roots: map<DriveId, Id>, root: Id, q: seq<string>, names: set<string>,
                                      r: seq<string>)
    requires TreeOk(fs, roots, root) && At(fs, root, r).Some?
    requires r <= q || (|r| > |q| && q <= r && r[|q|] !in names)
    ensures Avoids(fs, root, r, Done(fs, root, q, names))
    decreases |r|
  {
    if r != [] {
      var up := r[..|r| - 1];
      assert up <= q || (|up| > |q| && q <= up && up[|q|] !in names);
      AvoidsDone(fs, roots, root, q, names, up);
      LastNotDone(fs, roots, root, q, names, r);
    }
  }

  lemma LastNotDone(fs: FS, roots: map<DriveId, Id>, root: Id, q: seq<string>, names: set<string>, r: seq<string>)
    requires TreeOk(fs, roots, root) && r != [] && At(fs, root, r).Some?
    requires r <= q || (|r| > |q| && q <= r && r[|q|] !in names)
    ensures LastLink(fs, root, r) !in Done(fs, root, q, names)
  {
    var up, l := r[..|r| - 1], LastLink(fs, root, r);
    UpOf(q, names, r);
    LastListed(fs, root, r);
    NotDone(fs, roots, root, q, names, up, l);
  }

  lemma LastListed(fs: FS, root: Id, r: seq<string>)
    requires r != [] && At(fs, root, r).Some?
    ensures var l := LastLink(fs, root, r);
            l in Links(fs) && At(fs, root, r[..|r| - 1]) == Some(l.dir) && l.name == r[|r| - 1]
  {
  }

  lemma UpOf(q: seq<string>, names: set<string>, r: seq<string>)
    requires r != [] && (r <= q || (|r| > |q| && q <= r && r[|q|] !in names))
    ensures var up := r[..|r| - 1];
            |up| < |q| || (up == q && r[|r| - 1] !in names) || (|up| > |q| && q <= up && up[|q|] !in names)
  {
  }

  lemma DoneClosed(fs: FS, roots: map<DriveId, Id>, root: Id, q: seq<string>, names: set<string>)
    requires TreeOk(fs, roots, root)
    ensures Done(fs, root, q, names) <= Links(fs) && Closed(fs, Done(fs, root, q, names))
  {
    var c := Done(fs, root, q, names);
    forall l | l in Links(fs) && Gone(fs, c, l.dir) ensures l in c {
      var k :| k in To(c, l.dir);
      GoneDirectory(fs, roots, root, q, names, k, l);
    }
  }

  /** A directory whose entry is removed lies behind a done name, so its entries do too. */
  lemma GoneDirectory(fs: FS, roots: map<DriveId, Id>, root: Id, q: seq<string>, names: set<string>, k: Link, l: Link)
    requires k in Done(fs, root, q, names) && l in Links(fs) && k.ino == l.dir
    ensures l in Done(fs, root, q, names)
  {
    if At(fs, root, q) == Some(k.dir) && k.name in names {
      AtSnoc(fs, root, q, k.name);
      assert q + [k.name] <= q + [k.name];
      assert Under(fs, root, q + [k.name], l.dir);
    } else {
      var a :| a in names && Under(fs, root, q + [a], k.dir);
      UnderStep(fs, root, q + [a], k);
    }
  }

  lemma {:induction false} AtWithin(gs: FS, fs: FS, start: Id, r: seq<string>)
    requires Within(gs, fs) && At(gs, start, r).Some?
    ensures At(fs, start, r) == At(gs, start, r)
    decreases |r|
  {
    if r != [] { AtWithin(gs, fs, start, r[..|r| - 1]); }
  }

  lemma CutWithin(fs: FS, c: set<Link>)
    requires c <= Links(fs)
    ensures Within(Cut(fs, c), fs)
  {
    var gs := Cut(fs, c);
    forall x | x in gs && gs[x].IsDir()
      ensures forall n :: Find(gs[x].content.entries, n).Some? ==>
                Find(fs[x].content.entries, n).Some?
                && Find(fs[x].content.entries, n).value.ino == Find(gs[x].content.entries, n).value.ino
    {
      forall n
        ensures Find(gs[x].content.entries, n).Some? ==>
                  Find(fs[x].content.entries, n) == Find(gs[x].content.entries, n) {
        FindKeep(fs[x].content.entries, CutNames(c, x), n);
      }
    }
  }

  /** Removing what is behind some names leaves what is behind another name as it was. */
  lemma SubLinksStable(fs: FS, roots: map<DriveId, Id>, root: Id, q: seq<string>, names: set<string>, a: string)
    requires TreeOk(fs, roots, root) && a !in names
    ensures SubLinks(Cut(fs, Done(fs, root, q, names)), root, q + [a]) == SubLinks(fs, root, q + [a])
  {
    var c := Done(fs, root, q, names);
    var gs := Cut(fs, c);
    DoneClosed(fs, roots, root, q, names);
    CutWithin(fs, c);
    forall l ensures l in SubLinks(gs, root, q + [a]) <==> l in SubLinks(fs, root, q + [a]) {
      if l in SubLinks(gs, root, q + [a]) {
        var r :| q + [a] <= r && At(gs, root, r) == Some(l.dir);
        AtWithin(gs, fs, root, r);
        CutLinks(fs, c, l);
      }
      if l in SubLinks(fs, root, q + [a]) {
        var r :| q + [a] <= r && At(fs, root, r) == Some(l.dir);
        StaysBehind(fs, roots, root, q, names, a, r, l);
      }
    }
  }

  lemma StaysBehind(fs: FS, roots: map<DriveId, Id>, root: Id, q: seq<string>, names: set<string>, a: string,
                    r: seq<string>, l: Link)
    requires TreeOk(fs, roots, root) && a !in names && Done(fs, root, q, names) <= Links(fs)
    requires l in Links(fs) && q + [a] <= r && At(fs, root, r) == Some(l.dir)
    ensures l in SubLinks(Cut(fs, Done(fs, root, q, names)), root, q + [a])
  {
    var c := Done(fs, root, q, names);
    assert r[|q|] == a && q <= r;
    AvoidsDone(fs, roots, root, q, names, r);
    CutAt(fs, roots, root, c, r);
    NotDone(fs, roots, root, q, names, r, l);
    CutLinks(fs, c, l);
  }

  /** A place above q, q itself, or a name of q not yet done, is where it was. */
  lemma PlaceStable(fs: FS, roots: map<DriveId, Id>, root: Id, q: seq<string>, names: set<string>, r: seq<string>)
    requires TreeOk(fs, roots, root) && At(fs, root, r).Some?
    requires r <= q || (|r| > |q| && q <= r && r[|q|] !in names)
    ensures At(Cut(fs, Done(fs, root, q, names)), root, r) == At(fs, root, r)
  {
    DoneClosed(fs, roots, root, q, names);
    AvoidsDone(fs, roots, root, q, names, r);
    CutAt(fs, roots, root, Done(fs, root, q, names), r);
  }

  // ---------------------------------------------------------------- any removal

  /** Some entries of directories below a root are gone, and nothing else has changed. */
  ghost predicate Pared(fs: FS, gs: FS, root: Id) {
    exists c :: Pares(fs, gs, root, c)
  }

  ghost predicate Pares(fs: FS, gs: FS, root: Id, c: set<Link>) {
    c <= Links(fs) && gs == Cut(fs, c) && forall l | l in c :: Below(fs, root, l.dir)
  }

  lemma ParedItself(fs: FS, root: Id)
    ensures Pared(fs, fs, root) && Within(fs, fs)
  {
    CutNothing(fs);
    assert Pares(fs, fs, root, {});
  }

  lemma BelowWithin(gs: FS, fs: FS, x: Id, d: Id)
    requires Within(gs, fs) && Below(gs, x, d)
    ensures Below(fs, x, d)
  {
    var q :| At(gs, x, q) == Some(d);
    AtWithin(gs, fs, x, q);
  }

  lemma ParesTwice(fs: FS, gs: FS, hs: FS, roots: map<DriveId, Id>, root: Id, a: set<Link>, b: set<Link>)
    requires TreeOk(fs, roots, root) && Pares(fs, gs, root, a) && Pares(gs, hs, root, b)
    ensures Pares(fs, hs, root, a + b)
  {
    CutCut(fs, roots, a, b);
    CutWithin(fs, a);
    forall l | l in a + b ensures Below(fs, root, l.dir) {
      if l in b { BelowWithin(gs, fs, root, l.dir); }
    }
  }

  lemma ParedTwice(fs: FS, gs: FS, hs: FS, roots: map<DriveId, Id>, root: Id)
    requires TreeOk(fs, roots, root) && Pared(fs, gs, root) && Pared(gs, hs, root)
    ensures Pared(fs, hs, root) && Within(hs, gs)
  {
    var a: set<Link> :| Pares(fs, gs, root, a);
    var b: set<Link> :| Pares(gs, hs, root, b);
    ParesTwice(fs, gs, hs, roots, root, a, b);
    assert Pares(fs, hs, root, a + b);
    CutWithin(gs, b);
  }

  lemma ParedKeeps(fs: FS, gs: FS, roots: map<DriveId, Id>, owner: map<Id, DriveId>, root: Id)
    requires Inv(fs, roots, owner) && Pared(fs, gs, root)
    ensures Inv(gs, roots, owner) && (Acyclic(fs) ==> Acyclic(gs))
  {
    var c: set<Link> :| Pares(fs, gs, root, c);
    CutKeepsInv(fs, roots, owner, c);
    if Acyclic(fs) { CutKeepsAcyclic(fs, c); }
  }

  /** No inode of any other drive is touched. */
  lemma ParedSpares(fs: FS, gs: FS, roots: map<DriveId, Id>, owner: map<Id, DriveId>, d: DriveId, x: Id)
    requires Inv(fs, roots, owner) && d in roots && Pared(fs, gs, roots[d]) && x in fs && owner[x] != d
    ensures x in gs && gs[x] == fs[x]
  {
    var c: set<Link> :| Pares(fs, gs, roots[d], c);
    forall l | l in c ensures l.dir != x && l.ino != x {
      var q :| At(fs, roots[d], q) == Some(l.dir);
      AtOwner(fs, roots, owner, d, q);
    }
    CutOutside(fs, c, x);
  }

  // ---------------------------------------------------------------- garbage

  /** The references of the objects that entries name. */
  ghost function Garbage(fs: FS, c: set<Link>): set<Ref> {
    set l | l in c && l.ino in fs && fs[l.ino].Garbage().Some? :: fs[l.ino].Garbage().value
  }

  lemma GarbageUnion(fs: FS, a: set<Link>, b: set<Link>)
    ensures Garbage(fs, a + b) == Garbage(fs, a) + Garbage(fs, b)
  {
  }

  lemma GarbageCut(fs: FS, a: set<Link>, b: set<Link>)
    requires WellFormed(Cut(fs, a)) && b <= Links(Cut(fs, a))
    ensures Garbage(Cut(fs, a), b) == Garbage(fs, b)
  {
    forall l | l in b ensures l.ino in Cut(fs, a) && l.ino in fs && Cut(fs, a)[l.ino].Garbage() == fs[l.ino].Garbage() {
      LinkTarget(Cut(fs, a), l);
    }
  }

  // ---------------------------------------------------------------- the strings of rm.go

  /** strings.TrimRight(path, "/") + "/" + name */
  function ChildPath(path: string, name: string): string {
    TrimRight(path, IsSlash) + "/" + name
  }

  lemma {:induction false} TrimSlashes(path: string)
    ensures Norm(Split(TrimRight(path, IsSlash))) == Norm(Split(path))
    ensures AllTidy(Split(path)) ==> AllTidy(Split(TrimRight(path, IsSlash)))
  {
    if path != "" && path[|path| - 1] == '/' {
      var t := path[..|path| - 1];
      assert path == t + "/" + "";
      SplitConcat(t, "");
      NormInit(Split(t), "");
      assert forall p | p in Split(t) :: p in Split(path);
      TrimSlashes(t);
    }
  }

  /** The child's path has the directory's components and the entry's name. */
  lemma ChildPathComps(path: string, name: string)
    requires AllTidy(Split(path)) && IsName(name) && Tidy(name)
    ensures var cp := ChildPath(path, name);
            AllTidy(Split(cp)) && Comps(cp) == Comps(path) + [name] && Comps(ParentPath(cp)) == Comps(path)
  {
    var t, cp := TrimRight(path, IsSlash), ChildPath(path, name);
    TrimSlashes(path);
    SplitConcat(t, name);
    SplitAtom(name);
    assert AllTidy(Split(cp));
    CompsTidy(path);
    CompsTidy(cp);
    NormInit(Split(t), name);
    CompsAreNames(path);
    NamesTidyComps(Comps(path));
    assert Comps(cp)[..|Comps(cp)| - 1] == Comps(path);
  }

  /** Names and symlink targets have no outer white space. */
  ghost predicate TidyStore(fs: FS) {
    TidyTargets(fs) && forall l | l in Links(fs) :: Tidy(l.name)
  }

  lemma TidyWithin(gs: FS, fs: FS)
    requires Within(gs, fs) && TidyStore(fs)
    ensures TidyStore(gs)
  {
    forall l | l in Links(gs) ensures Tidy(l.name) {
      assert Link(l.dir, l.name, l.ino) in Links(fs);
    }
  }

  // ---------------------------------------------------------------- what one path removes

  /** The entry resolveParent points at. */
  ghost function LeafLink(fs: FS, root: Id, path: string): Link
    requires ResolveParent(fs, root, path).Ok?
    requires var at := ResolveParent(fs, root, path).value; Child(fs, at.0, at.1).Some?
  {
    var at := ResolveParent(fs, root, path).value;
    Link(at.0, at.1, Child(fs, at.0, at.1).value)
  }

  ghost predicate HasLeaf(fs: FS, root: Id, path: string) {
    var at := ResolveParent(fs, root, path); at.Ok? && Child(fs, at.value.0, at.value.1).Some?
  }

  /** Everything rm removes for a path: the entry it names, and, when the path leads to a
      directory, every entry at or below that directory. Symlinks below are entries like
      any other; mounted drives hang below no entry. */
  ghost function RemovedLinks(fs: FS, root: Id, path: string): set<Link>
    requires HasLeaf(fs, root, path)
  {
    var out := ResolvePath(fs, root, path, true);
    {LeafLink(fs, root, path)}
    + if out.Ok? && out.value.ino in fs && fs[out.value.ino].IsDir() then SubLinks(fs, root, out.value.place) else {}
  }

  // ---------------------------------------------------------------- one directory entry at a time

  /** Removing a further entry, with all that is below it, extends what is done by its name. */
  lemma RemoveNext(fs: FS, roots: map<DriveId, Id>, root: Id, q: seq<string>, n: Id, names: set<string>, a: string,
                   c: Id, cur: FS, gs: FS)
    requires TreeOk(fs, roots, root) && At(fs, root, q) == Some(n) && Child(fs, n, a) == Some(c) && a !in names
    requires cur == Cut(fs, Done(fs, root, q, names))
    requires var d := SubLinks(cur, root, q + [a]) + {Link(n, a, c)}; d <= Links(cur) && gs == Cut(cur, d)
    ensures gs == Cut(fs, Done(fs, root, q, names + {a}))
    ensures Garbage(fs, Done(fs, root, q, names + {a})) ==
            Garbage(fs, Done(fs, root, q, names)) + Garbage(cur, SubLinks(cur, root, q + [a]) + {Link(n, a, c)})
  {
    var done, d := Done(fs, root, q, names), SubLinks(cur, root, q + [a]) + {Link(n, a, c)};
    DoneNext(fs, roots, root, q, n, names, a, c);
    CutFurther(fs, roots, done, d);
  }

  lemma DoneNext(fs: FS, roots: map<DriveId, Id>, root: Id, q: seq<string>, n: Id, names: set<string>, a: string, c: Id)
    requires TreeOk(fs, roots, root) && At(fs, root, q) == Some(n) && Child(fs, n, a) == Some(c) && a !in names
    ensures var done := Done(fs, root, q, names);
            done <= Links(fs)
            && Done(fs, root, q, names + {a}) == done + (SubLinks(Cut(fs, done), root, q + [a]) + {Link(n, a, c)})
  {
    SubLinksStable(fs, roots, root, q, names, a);
    DoneStep(fs, root, q, n, names, a, c);
  }

  lemma CutFurther(fs: FS, roots: map<DriveId, Id>, done: set<Link>, d: set<Link>)
    requires WellFormed(fs) && RootsOk(fs, roots) && CountsOk(fs, roots)
    requires done <= Links(fs) && d <= Links(Cut(fs, done))
    ensures done + d <= Links(fs) && Cut(Cut(fs, done), d) == Cut(fs, done + d)
    ensures Garbage(fs, done + d) == Garbage(fs, done) + Garbage(Cut(fs, done), d)
  {
    CutCut(fs, roots, done, d);
    CutWellFormed(fs, roots, done);
    GarbageCut(fs, done, d);
    GarbageUnion(fs, done, d);
  }

  /** The directory's own entry goes last. */
  lemma RemoveTop(fs: FS, roots: map<DriveId, Id>, root: Id, q: seq<string>, n: Id, leaf: Link, cur: FS, gs: FS)
    requires TreeOk(fs, roots, root) && At(fs, root, q) == Some(n) && n in fs && fs[n].IsDir()
    requires cur == Cut(fs, SubLinks(fs, root, q)) && leaf in Links(cur) && gs == Cut(cur, {leaf})
    ensures var c := SubLinks(fs, root, q) + {leaf};
            c <= Links(fs) && gs == Cut(fs, c)
            && Garbage(fs, c) == Garbage(fs, SubLinks(fs, root, q)) + Garbage(cur, {leaf})
  {
    CutFurther(fs, roots, SubLinks(fs, root, q), {leaf});
  }

  // ---------------------------------------------------------------- properties of what is removed

  lemma LeafIsTarget(fs: FS, roots: map<DriveId, Id>, root: Id, path: string)
    requires TreeOk(fs, roots, root) && TidyStore(fs) && AllTidy(Comps(path)) && HasLeaf(fs, root, path)
    ensures var l := LeafLink(fs, root, path); l in Links(fs) && l.ino in fs
    ensures var l := LeafLink(fs, root, path); !fs[l.ino].content.Symlink? ==>
              ResolvePath(fs, root, path, true).Ok? && ResolvePath(fs, root, path, true).value.ino == l.ino
              && At(fs, root, ResolvePath(fs, root, path, true).value.place) == Some(l.ino)
  {
    var l := LeafLink(fs, root, path);
    LinkTarget(fs, l);
    if !fs[l.ino].content.Symlink? {
      LockStep(fs, root, path, l.ino);
      ResolvePlace(fs, root, path, true);
    }
  }

  /** A removed directory takes only removed entries with it. */
  lemma RemovedClosed(fs: FS, roots: map<DriveId, Id>, root: Id, path: string)
    requires TreeOk(fs, roots, root) && TidyStore(fs) && AllTidy(Comps(path)) && HasLeaf(fs, root, path)
    ensures RemovedLinks(fs, root, path) <= Links(fs) && Closed(fs, RemovedLinks(fs, root, path))
  {
    var out := ResolvePath(fs, root, path, true);
    LeafIsTarget(fs, roots, root, path);
    if out.Ok? && out.value.ino in fs && fs[out.value.ino].IsDir() {
      SubtreeClosed(fs, root, out.value.place, LeafLink(fs, root, path));
    } else {
      LeafClosed(fs, LeafLink(fs, root, path));
      assert RemovedLinks(fs, root, path) == {LeafLink(fs, root, path)};
    }
  }

  lemma LeafClosed(fs: FS, leaf: Link)
    requires leaf in Links(fs) && leaf.ino in fs && !fs[leaf.ino].IsDir()
    ensures Closed(fs, {leaf})
  {
    forall l | l in Links(fs) ensures !Gone(fs, {leaf}, l.dir) {
      assert To({leaf}, l.dir) == {};
    }
  }

  lemma SubtreeClosed(fs: FS, root: Id, q: seq<string>, leaf: Link)
    requires leaf in Links(fs) && leaf.ino in fs && (fs[leaf.ino].IsDir() ==> At(fs, root, q) == Some(leaf.ino))
    ensures {leaf} + SubLinks(fs, root, q) <= Links(fs) && Closed(fs, {leaf} + SubLinks(fs, root, q))
  {
    var c := {leaf} + SubLinks(fs, root, q);
    forall l | l in Links(fs) && Gone(fs, c, l.dir) ensures l in c {
      var k :| k in To(c, l.dir);
      GoneBelow(fs, root, q, leaf, k, l);
    }
  }

  /** A directory whose entry is removed is the top, or lies below it. */
  lemma GoneBelow(fs: FS, root: Id, q: seq<string>, leaf: Link, k: Link, l: Link)
    requires l in Links(fs) && k.ino == l.dir && (k == leaf || k in SubLinks(fs, root, q))
    requires leaf.ino in fs && (fs[leaf.ino].IsDir() ==> At(fs, root, q) == Some(leaf.ino))
    ensures l in SubLinks(fs, root, q)
  {
    if k == leaf {
      assert q <= q;
      assert Under(fs, root, q, l.dir);
    } else {
      UnderStep(fs, root, q, k);
    }
  }

  lemma UnderStep(fs: FS, root: Id, q: seq<string>, k: Link)
    requires k in Links(fs) && Under(fs, root, q, k.dir)
    ensures Under(fs, root, q, k.ino)
  {
    var r :| q <= r && At(fs, root, r) == Some(k.dir);
    AtSnoc(fs, root, r, k.name);
    assert q <= r + [k.name];
  }

  /** rm -r keeps exact link counts exact. */
  lemma RmKeepsExact(fs: FS, roots: map<DriveId, Id>, owner: map<Id, DriveId>, root: Id, path: string)
    requires Inv(fs, roots, owner) && Exact(fs, roots) && IsRoot(roots, root)
    requires TidyStore(fs) && AllTidy(Comps(path)) && HasLeaf(fs, root, path)
    ensures Exact(Cut(fs, RemovedLinks(fs, root, path)), roots)
  {
    RemovedClosed(fs, roots, root, path);
    CutKeepsExact(fs, roots, owner, RemovedLinks(fs, root, path));
  }

  /** The entries left are exactly the others, and an inode no removed entry touches is
      exactly as before. */
  lemma RmIsExact(fs: FS, roots: map<DriveId, Id>, root: Id, path: string, x: Id)
    requires TreeOk(fs, roots, root) && TidyStore(fs) && AllTidy(Comps(path)) && HasLeaf(fs, root, path)
    ensures var c, gs := RemovedLinks(fs, root, path), Cut(fs, RemovedLinks(fs, root, path));
            Links(gs) == Links(fs) - c
            && (x in fs && (forall l | l in c :: l.dir != x && l.ino != x) ==> x in gs && gs[x] == fs[x])
            && (x in fs && (forall l | l in c :: l.dir != x) && x in gs ==> gs[x].content == fs[x].content)
  {
    var c := RemovedLinks(fs, root, path);
    RemovedClosed(fs, roots, root, path);
    CutLinksAll(fs, c);
    if x in fs { CutOutside(fs, c, x); }
  }

  lemma CutOutside(fs: FS, c: set<Link>, x: Id)
    requires x in fs
    ensures (forall l | l in c :: l.dir != x && l.ino != x) ==> x in Cut(fs, c) && Cut(fs, c)[x] == fs[x]
    ensures (forall l | l in c :: l.dir != x) && x in Cut(fs, c) ==> Cut(fs, c)[x].content == fs[x].content
  {
    if forall l | l in c :: l.dir != x {
      assert CutNames(c, x) == {};
      if fs[x].IsDir() { KeepNone(fs[x].content.entries, {}); }
      if forall l | l in c :: l.ino != x { assert To(c, x) == {}; }
    }
  }

  /** Unless the path names a symlink, every directory at or below its target is gone. */
  lemma RmRemovesTree(fs: FS, roots: map<DriveId, Id>, root: Id, path: string, d: Id)
    requires TreeOk(fs, roots, root) && TidyStore(fs) && AllTidy(Comps(path)) && HasLeaf(fs, root, path)
    requires !fs[LeafLink(fs, root, path).ino].content.Symlink? && d in fs && fs[d].IsDir()
    requires ResolvePath(fs, root, path, true).Ok? && Under(fs, root, ResolvePath(fs, root, path, true).value.place, d)
    ensures d !in Cut(fs, RemovedLinks(fs, root, path))
  {
    LeafIsTarget(fs, roots, root, path);
    SubtreeGoes(fs, roots, root, ResolvePath(fs, root, path, true).value.place, LeafLink(fs, root, path), d);
  }

  lemma SubtreeGoes(fs: FS, roots: map<DriveId, Id>, root: Id, q: seq<string>, leaf: Link, d: Id)
    requires TreeOk(fs, roots, root) && leaf in Links(fs) && At(fs, root, q) == Some(leaf.ino)
    requires Under(fs, root, q, d) && d in fs && fs[d].IsDir()
    ensures fs[leaf.ino].IsDir() && Gone(fs, {leaf} + SubLinks(fs, root, q), d)
  {
    var c := {leaf} + SubLinks(fs, root, q);
    LinkTarget(fs, leaf);
    var r :| q <= r && At(fs, root, r) == Some(d);
    AtPrefixOf(fs, root, q, r);
    if r == q {
      CutDirectoryGoes(fs, roots, c, leaf);
    } else {
      LastUnder(fs, root, q, r);
      CutDirectoryGoes(fs, roots, c, LastLink(fs, root, r));
    }
  }

  lemma LastUnder(fs: FS, root: Id, q: seq<string>, r: seq<string>)
    requires q <= r && r != q && At(fs, root, r).Some?
    ensures LastLink(fs, root, r) in SubLinks(fs, root, q)
  {
    assert q <= r[..|r| - 1];
    assert Under(fs, root, q, LastLink(fs, root, r).dir);
  }

  lemma CutDirectoryGoes(fs: FS, roots: map<DriveId, Id>, c: set<Link>, l: Link)
    requires RootsOk(fs, roots) && CountsOk(fs, roots) && l in c && l in Links(fs) && l.ino in fs && fs[l.ino].IsDir()
    ensures Gone(fs, c, l.ino)
  {
    assert CountOk(fs[l.ino], |To(Links(fs), l.ino)|);
    ToProper(c, {}, l);
  }

  function SetOf(refs: seq<Ref>): set<Ref> { set r | r in refs }

  lemma SetOfConcat(a: seq<Ref>, b: seq<Ref>)
    ensures SetOf(a + b) == SetOf(a) + SetOf(b)
  {
  }

  function RefsOf(n: Inode): seq<Ref> {
    if n.Garbage().Some? then [n.Garbage().value] else []
  }

  // ---------------------------------------------------------------- several paths

  ghost function RmAll(fs: FS, root: Id, paths: seq<string>): FS
    decreases |paths|
  {
    if paths == [] || !HasLeaf(fs, root, paths[0]) then fs
    else RmAll(Cut(fs, RemovedLinks(fs, root, paths[0])), root, paths[1..])
  }

  ghost function RmGarbage(fs: FS, root: Id, paths: seq<string>): set<Ref>
    decreases |paths|
  {
    if paths == [] || !HasLeaf(fs, root, paths[0]) then {}
    else Garbage(fs, RemovedLinks(fs, root, paths[0]))
         + RmGarbage(Cut(fs, RemovedLinks(fs, root, paths[0])), root, paths[1..])
  }

  ghost predicate TidyPaths(paths: seq<string>) {
    forall p | p in paths :: AllTidy(Split(p))
  }

  lemma {:induction false} RmAllKeepsExact(fs: FS, roots: map<DriveId, Id>, owner: map<Id, DriveId>, root: Id,
                                           paths: seq<string>)
    requires Inv(fs, roots, owner) && Exact(fs, roots) && IsRoot(roots, root) && TidyStore(fs) && TidyPaths(paths)
    ensures Inv(RmAll(fs, root, paths), roots, owner) && Exact(RmAll(fs, root, paths), roots)
    decreases |paths|
  {
    if paths != [] && HasLeaf(fs, root, paths[0]) {
      var c := RemovedLinks(fs, root, paths[0]);
      assert paths[0] in paths;
      CompsTidy(paths[0]);
      RemovedClosed(fs, roots, root, paths[0]);
      RmKeepsExact(fs, roots, owner, root, paths[0]);
      CutKeepsInv(fs, roots, owner, c);
      CutWithin(fs, c);
      TidyWithin(Cut(fs, c), fs);
      RmAllKeepsExact(Cut(fs, c), roots, owner, root, paths[1..]);
    }
  }

  ghost predicate SingleLinkObjects(fs: FS) {
    forall x | x in fs && fs[x].content.Object? :: fs[x].nlink == 1
  }

  /** The references of the objects present in fs and absent from gs. */
  ghost function DeletedRefs(fs: FS, gs: FS): set<Ref> {
    set x | x in fs && x !in gs && fs[x].Garbage().Some? :: fs[x].Garbage().value
  }

  lemma CutGarbage(fs: FS, c: set<Link>)
    requires SingleLinkObjects(fs)
    ensures Garbage(fs, c) == DeletedRefs(fs, Cut(fs, c))
    ensures SingleLinkObjects(Cut(fs, c))
  {
    forall l | l in c && l.ino in fs && fs[l.ino].Garbage().Some? ensures l.ino !in Cut(fs, c) {
      ToProper(c, {}, l);
    }
    forall x | x in fs && x !in Cut(fs, c) && fs[x].Garbage().Some?
      ensures fs[x].Garbage().value in Garbage(fs, c)
    {
      var l :| l in To(c, x);
      assert l in c && l.ino == x;
    }
    forall x | x in Cut(fs, c) && fs[x].content.Object? ensures Cut(fs, c)[x].nlink == 1 {
      assert To(c, x) == {} || |To(c, x)| >= 1;
    }
  }

  /** What is deleted from one store to the next and on to a third. */
  lemma DeletedInTurn(fs: FS, gs: FS, hs: FS)
    requires hs.Keys <= gs.Keys <= fs.Keys && forall x | x in gs :: gs[x].Garbage() == fs[x].Garbage()
    ensures DeletedRefs(fs, hs) == DeletedRefs(fs, gs) + DeletedRefs(gs, hs)
  {
    forall x | x in gs && x !in hs && gs[x].Garbage().Some? ensures fs[x].Garbage().value in DeletedRefs(fs, hs) {}
    forall x | x in fs && x !in hs && fs[x].Garbage().Some?
      ensures fs[x].Garbage().value in DeletedRefs(fs, gs) + DeletedRefs(gs, hs) {
      if x in gs { assert gs[x].Garbage().value in DeletedRefs(gs, hs); }
    }
  }

  /** When every object has one link, the tombstones of rm are exactly the references of
      the object inodes it deleted. */
  lemma {:induction false} RmTombstones(fs: FS, roots: map<DriveId, Id>, root: Id, paths: seq<string>)
    requires SingleLinkObjects(fs)
    ensures RmGarbage(fs, root, paths) == DeletedRefs(fs, RmAll(fs, root, paths))
    ensures RmAll(fs, root, paths).Keys <= fs.Keys
    ensures forall x | x in RmAll(fs, root, paths) :: RmAll(fs, root, paths)[x].Garbage() == fs[x].Garbage()
    decreases |paths|
  {
    if paths != [] && HasLeaf(fs, root, paths[0]) {
      var gs := Cut(fs, RemovedLinks(fs, root, paths[0]));
      CutGarbage(fs, RemovedLinks(fs, root, paths[0]));
      RmTombstones(gs, roots, root, paths[1..]);
      var hs := RmAll(gs, root, paths[1..]);
      assert forall x | x in gs :: gs[x].Garbage() == fs[x].Garbage();
      DeletedInTurn(fs, gs, hs);
    }
  }

  ghost predicate DistinctRefs(fs: FS) {
    forall x, y | x in fs && y in fs && fs[x].Garbage().Some? && fs[x].Garbage() == fs[y].Garbage() :: x == y
  }

  /** So no surviving inode is tombstoned. */
  lemma RmSparesSurvivors(fs: FS, roots: map<DriveId, Id>, root: Id, paths: seq<string>, x: Id)
    requires SingleLinkObjects(fs) && DistinctRefs(fs)
    requires x in RmAll(fs, root, paths) && RmAll(fs, root, paths)[x].Garbage().Some?
    ensures RmAll(fs, root, paths)[x].Garbage().value !in RmGarbage(fs, root, paths)
  {
    RmTombstones(fs, roots, root, paths);
  }

  /** All entries that rm of several paths removes, each path on what the ones before it left. */
  ghost function RmLinks(fs: FS, root: Id, paths: seq<string>): set<Link>
    decreases |paths|
  {
    if paths == [] || !HasLeaf(fs, root, paths[0]) then {}
    else RemovedLinks(fs, root, paths[0]) + RmLinks(Cut(fs, RemovedLinks(fs, root, paths[0])), root, paths[1..])
  }

  /** Path after path comes to one cut. */
  lemma {:induction false} RmIsOneCut(fs: FS, roots: map<DriveId, Id>, root: Id, paths: seq<string>)
    requires TreeOk(fs, roots, root) && TidyStore(fs) && TidyPaths(paths)
    ensures RmLinks(fs, root, paths) <= Links(fs)
    ensures RmAll(fs, root, paths) == Cut(fs, RmLinks(fs, root, paths))
    ensures RmGarbage(fs, root, paths) == Garbage(fs, RmLinks(fs, root, paths))
    decreases |paths|
  {
    if paths == [] || !HasLeaf(fs, root, paths[0]) {
      CutNothing(fs);
    } else {
      var c := RemovedLinks(fs, root, paths[0]);
      FirstPath(fs, roots, root, paths);
      RmIsOneCut(Cut(fs, c), roots, root, paths[1..]);
      CutFurther(fs, roots, c, RmLinks(Cut(fs, c), root, paths[1..]));
    }
  }

  /** What is recorded are the complete references of the objects that removed entries named. */
  lemma RmGarbageMeans(fs: FS, roots: map<DriveId, Id>, root: Id, paths: seq<string>, ref: Ref)
    requires TreeOk(fs, roots, root) && TidyStore(fs) && TidyPaths(paths)
    ensures ref in RmGarbage(fs, root, paths) <==>
            ref.bucket != "" && ref.key != "" && exists l :: l in RmLinks(fs, root, paths) && NamesObject(fs, l, ref)
  {
    RmIsOneCut(fs, roots, root, paths);
    GarbageMeans(fs, RmLinks(fs, root, paths), ref);
  }

  predicate NamesObject(fs: FS, l: Link, ref: Ref) { l.ino in fs && fs[l.ino].content == Object(ref) }

  lemma GarbageMeans(fs: FS, c: set<Link>, ref: Ref)
    ensures ref in Garbage(fs, c) <==>
            ref.bucket != "" && ref.key != "" && exists l :: l in c && NamesObject(fs, l, ref)
  {
    forall l | l in c && NamesObject(fs, l, ref) && ref.bucket != "" && ref.key != "" ensures ref in Garbage(fs, c) {
      assert fs[l.ino].Garbage() == Some(ref);
    }
    if ref in Garbage(fs, c) {
      var l :| l in c && l.ino in fs && fs[l.ino].Garbage().Some? && fs[l.ino].Garbage().value == ref;
      assert NamesObject(fs, l, ref);
    }
  }

  lemma FirstPath(fs: FS, roots: map<DriveId, Id>, root: Id, paths: seq<string>)
    requires TreeOk(fs, roots, root) && TidyStore(fs) && TidyPaths(paths) && paths != [] && HasLeaf(fs, root, paths[0])
    ensures var c := RemovedLinks(fs, root, paths[0]);
            c <= Links(fs) && TreeOk(Cut(fs, c), roots, root) && TidyStore(Cut(fs, c)) && TidyPaths(paths[1..])
  {
    var c := RemovedLinks(fs, root, paths[0]);
    assert paths[0] in paths;
    CompsTidy(paths[0]);
    RemovedClosed(fs, roots, root, paths[0]);
    CutWellFormed(fs, roots, c);
    CutRoots(fs, roots, c);
    CutCounts(fs, roots, c);
    CutWithin(fs, c);
    TidyWithin(Cut(fs, c), fs);
  }

  /** With shared objects it is: an object that keeps an entry is tombstoned exactly when
      some, but not all, of its links were removed. */
  lemma SharedObjectTombstoned(fs: FS, roots: map<DriveId, Id>, root: Id, paths: seq<string>, x: Id)
    requires TreeOk(fs, roots, root) && TidyStore(fs) && TidyPaths(paths)
    requires x in fs && fs[x].Garbage().Some? && DistinctRefs(fs)
    ensures x in RmAll(fs, root, paths) && fs[x].Garbage().value in RmGarbage(fs, root, paths) <==>
            0 < |To(RmLinks(fs, root, paths), x)| < fs[x].nlink
  {
    RmIsOneCut(fs, roots, root, paths);
    SharedInCut(fs, RmLinks(fs, root, paths), x);
  }

  lemma SharedInCut(fs: FS, c: set<Link>, x: Id)
    requires x in fs && fs[x].Garbage().Some? && DistinctRefs(fs)
    ensures x in Cut(fs, c) && fs[x].Garbage().value in Garbage(fs, c) <==> 0 < |To(c, x)| < fs[x].nlink
  {
    if 0 < |To(c, x)| {
      var l :| l in To(c, x);
      assert l in c && l.ino == x;
    } else {
      forall l | l in c && l.ino in fs && fs[l.ino].Garbage().Some? ensures fs[l.ino].Garbage() != fs[x].Garbage() {
        assert l !in To(c, x);
      }
    }
  }
}

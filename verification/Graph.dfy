/** What the node operations do to the graph of links, and what each keeps. */
module Graph {
  import opened Paths
  import opened Inodes

  // ---------------------------------------------------------------- counting links

  lemma ToMono(a: set<Link>, b: set<Link>, x: Id)
    requires a <= b
    ensures To(a, x) <= To(b, x) && |To(a, x)| <= |To(b, x)|
  {
    SubsetCard(To(a, x), To(b, x));
  }

  lemma ToMinus(a: set<Link>, b: set<Link>, x: Id)
    requires b <= a
    ensures |To(a - b, x)| == |To(a, x)| - |To(b, x)|
  {
    assert To(a, x) == To(a - b, x) + To(b, x);
  }

  lemma ToPlus(a: set<Link>, b: set<Link>, x: Id)
    requires a !! b
    ensures To(a + b, x) == To(a, x) + To(b, x)
    ensures |To(a + b, x)| == |To(a, x)| + |To(b, x)|
  {
    assert To(a + b, x) == To(a, x) + To(b, x);
  }

  lemma ToOne(l: Link, x: Id)
    ensures |To({l}, x)| == if l.ino == x then 1 else 0
  {
    assert To({l}, x) == if l.ino == x then {l} else {};
  }

  lemma ToProper(a: set<Link>, b: set<Link>, l: Link)
    requires b <= a && l in a && l !in b
    ensures |To(b, l.ino)| < |To(a, l.ino)|
  {
    ToMono(b, a - {l}, l.ino);
    ToMinus(a, {l}, l.ino);
    ToOne(l, l.ino);
  }

  // ---------------------------------------------------------------- unlinking

  ghost function CutNames(c: set<Link>, d: Id): set<string> {
    set l | l in c && l.dir == d :: l.name
  }

  /** An inode disappears once the entries cut use up its link count. */
  ghost predicate Gone(fs: FS, c: set<Link>, x: Id)
    requires x in fs
  {
    To(c, x) != {} && |To(c, x)| >= fs[x].nlink
  }

  ghost function CutInode(n: Inode, x: Id, c: set<Link>): Inode
    requires To(c, x) == {} || |To(c, x)| < n.nlink
  {
    Inode(n.nlink - |To(c, x)|,
          if n.IsDir() then Dir(Keep(n.content.entries, CutNames(c, x))) else n.content)
  }

  /** The store with exactly the entries c removed: each inode loses one link per entry
      cut, inodes that lose their last link go, nothing else changes. */
  ghost function Cut(fs: FS, c: set<Link>): FS {
    map x | x in fs && !Gone(fs, c, x) :: CutInode(fs[x], x, c)
  }

  /** A removed directory takes only entries with it that are cut themselves. */
  ghost predicate Closed(fs: FS, c: set<Link>) {
    forall l | l in Links(fs) && Gone(fs, c, l.dir) :: l in c
  }

  lemma CutLinks(fs: FS, c: set<Link>, l: Link)
    requires c <= Links(fs)
    ensures l in Links(Cut(fs, c)) <==> l in Links(fs) && l !in c && !Gone(fs, c, l.dir)
  {
    if l.dir in fs && fs[l.dir].IsDir() {
      FindKeep(fs[l.dir].content.entries, CutNames(c, l.dir), l.name);
      if l.name in CutNames(c, l.dir) {
        var k :| k in c && k.dir == l.dir && k.name == l.name;
        assert HasLink(fs, k);
      }
    }
  }

  lemma CutLinksAll(fs: FS, c: set<Link>)
    requires c <= Links(fs)
    ensures Links(Cut(fs, c)) <= Links(fs) - c
    ensures Closed(fs, c) ==> Links(Cut(fs, c)) == Links(fs) - c
  {
    forall l ensures l in Links(Cut(fs, c)) <==> l in Links(fs) && l !in c && !Gone(fs, c, l.dir) {
      CutLinks(fs, c, l);
    }
  }

  /** No entry is left pointing at an inode that went. */
  lemma CutTarget(fs: FS, roots: map<DriveId, Id>, c: set<Link>, l: Link)
    requires RootsOk(fs, roots) && CountsOk(fs, roots) && c <= Links(fs)
    requires l in Links(fs) && l !in c && l.ino in fs
    ensures !Gone(fs, c, l.ino)
  {
    ToProper(Links(fs), c, l);
  }

  lemma CutWellFormed(fs: FS, roots: map<DriveId, Id>, c: set<Link>)
    requires WellFormed(fs) && RootsOk(fs, roots) && CountsOk(fs, roots) && c <= Links(fs)
    ensures WellFormed(Cut(fs, c))
  {
    var gs := Cut(fs, c);
    forall l | l in Links(fs) && l !in c && l.ino in fs ensures !Gone(fs, c, l.ino) { CutTarget(fs, roots, c, l); }
    forall d | d in gs && gs[d].IsDir() ensures ListingOk(gs, gs[d].content.entries) {
      CutListing(fs, c, d);
    }
  }

  lemma CutListing(fs: FS, c: set<Link>, d: Id)
    requires d in fs && fs[d].IsDir() && ListingOk(fs, fs[d].content.entries)
    requires forall l | l in Links(fs) && l !in c && l.ino in fs :: !Gone(fs, c, l.ino)
    ensures ListingOk(Cut(fs, c), Keep(fs[d].content.entries, CutNames(c, d)))
  {
    KeepUnique(fs[d].content.entries, CutNames(c, d));
    forall e | e in Keep(fs[d].content.entries, CutNames(c, d))
      ensures IsName(e.name) && e.ino in Cut(fs, c) && e.kind == Cut(fs, c)[e.ino].Kind()
    {
      FindUnique(fs[d].content.entries, e);
      assert HasLink(fs, Link(d, e.name, e.ino));
    }
  }

  lemma RootUncut(fs: FS, roots: map<DriveId, Id>, c: set<Link>, root: Id)
    requires RootsOk(fs, roots) && c <= Links(fs) && IsRoot(roots, root)
    ensures To(c, root) == {}
  {
    forall l | l in c ensures l.ino != root { assert !IsRoot(roots, l.ino); }
  }

  lemma CutRoots(fs: FS, roots: map<DriveId, Id>, c: set<Link>)
    requires RootsOk(fs, roots) && c <= Links(fs)
    ensures RootsOk(Cut(fs, c), roots)
  {
    CutLinksAll(fs, c);
    forall d | d in roots ensures roots[d] in Cut(fs, c) {
      assert IsRoot(roots, roots[d]);
      RootUncut(fs, roots, c, roots[d]);
    }
  }

  lemma CutCount(fs: FS, c: set<Link>, x: Id)
    requires c <= Links(fs)
    ensures |To(Links(Cut(fs, c)), x)| <= |To(Links(fs), x)| - |To(c, x)|
    ensures Closed(fs, c) ==> |To(Links(Cut(fs, c)), x)| == |To(Links(fs), x)| - |To(c, x)|
  {
    CutLinksAll(fs, c);
    ToMinus(Links(fs), c, x);
    ToMono(Links(Cut(fs, c)), Links(fs) - c, x);
  }

  lemma CutCounts(fs: FS, roots: map<DriveId, Id>, c: set<Link>)
    requires CountsOk(fs, roots) && c <= Links(fs)
    ensures CountsOk(Cut(fs, c), roots)
  {
    forall x | x in Cut(fs, c) && !IsRoot(roots, x)
      ensures CountOk(Cut(fs, c)[x], |To(Links(Cut(fs, c)), x)|)
    {
      CutCount(fs, c, x);
    }
  }

  lemma CutKeepsInv(fs: FS, roots: map<DriveId, Id>, owner: map<Id, DriveId>, c: set<Link>)
    requires Inv(fs, roots, owner) && c <= Links(fs)
    ensures Inv(Cut(fs, c), roots, owner)
  {
    CutWellFormed(fs, roots, c);
    CutRoots(fs, roots, c);
    CutCounts(fs, roots, c);
    CutLinksAll(fs, c);
  }

  /** Removing entries keeps link counts exact exactly when no directory is removed
      with entries of its own still in it. */
  lemma CutKeepsExact(fs: FS, roots: map<DriveId, Id>, owner: map<Id, DriveId>, c: set<Link>)
    requires Inv(fs, roots, owner) && Exact(fs, roots) && c <= Links(fs)
    ensures Exact(Cut(fs, c), roots) <==> Closed(fs, c)
  {
    if Closed(fs, c) {
      forall x | x in Cut(fs, c) && !IsRoot(roots, x)
        ensures |To(Links(Cut(fs, c)), x)| == Cut(fs, c)[x].nlink
      {
        CutCount(fs, c, x);
      }
    } else {
      var l :| l in Links(fs) && Gone(fs, c, l.dir) && l !in c;
      CutOpenLosesLink(fs, roots, owner, c, l);
    }
  }

  lemma CutOpenLosesLink(fs: FS, roots: map<DriveId, Id>, owner: map<Id, DriveId>, c: set<Link>, l: Link)
    requires Inv(fs, roots, owner) && Exact(fs, roots) && c <= Links(fs)
    requires l in Links(fs) && Gone(fs, c, l.dir) && l !in c
    ensures l.ino in Cut(fs, c) && |To(Links(Cut(fs, c)), l.ino)| < Cut(fs, c)[l.ino].nlink
  {
    var x := l.ino;
    LinkTarget(fs, l);
    CutTarget(fs, roots, c, l);
    CutLinks(fs, c, l);
    CutLinksAll(fs, c);
    ToMinus(Links(fs), c, x);
    ToProper(Links(fs) - c, Links(Cut(fs, c)), l);
  }

  /** Cutting twice is cutting once. */
  lemma CutCut(fs: FS, roots: map<DriveId, Id>, a: set<Link>, b: set<Link>)
    requires WellFormed(fs) && RootsOk(fs, roots) && CountsOk(fs, roots)
    requires a <= Links(fs) && b <= Links(Cut(fs, a))
    ensures a !! b && a + b <= Links(fs)
    ensures Cut(Cut(fs, a), b) == Cut(fs, a + b)
  {
    CutLinksAll(fs, a);
    CutWellFormed(fs, roots, a);
    CutCutExtensional(fs, a, b);
  }

  lemma CutCutExtensional(fs: FS, a: set<Link>, b: set<Link>)
    requires a !! b && WellFormed(Cut(fs, a)) && b <= Links(Cut(fs, a))
    ensures Cut(Cut(fs, a), b) == Cut(fs, a + b)
  {
    forall x | x in fs
      ensures x in Cut(Cut(fs, a), b) <==> x in Cut(fs, a + b)
      ensures x in Cut(fs, a + b) ==> Cut(Cut(fs, a), b)[x] == Cut(fs, a + b)[x]
    {
      CutCutAt(fs, a, b, x);
    }
  }

  lemma CutCutAt(fs: FS, a: set<Link>, b: set<Link>, x: Id)
    requires a !! b && x in fs && WellFormed(Cut(fs, a)) && b <= Links(Cut(fs, a))
    ensures x in Cut(Cut(fs, a), b) <==> x in Cut(fs, a + b)
    ensures x in Cut(fs, a + b) ==> Cut(Cut(fs, a), b)[x] == Cut(fs, a + b)[x]
  {
    ToPlus(a, b, x);
    if x !in Cut(fs, a) {
      forall l | l in b ensures l.ino != x { LinkTarget(Cut(fs, a), l); }
      assert To(b, x) == {};
    }
    CutInodeTwice(fs[x], x, a, b);
  }

  lemma CutInodeTwice(n: Inode, x: Id, a: set<Link>, b: set<Link>)
    requires a !! b
    ensures |To(a + b, x)| == |To(a, x)| + |To(b, x)|
    ensures (To(a, x) == {} || |To(a, x)| < n.nlink) && (To(b, x) == {} || |To(a, x)| + |To(b, x)| < n.nlink) ==>
              CutInode(CutInode(n, x, a), x, b) == CutInode(n, x, a + b)
  {
    ToPlus(a, b, x);
    assert CutNames(a + b, x) == CutNames(a, x) + CutNames(b, x);
    if n.IsDir() { KeepKeep(n.content.entries, CutNames(a, x), CutNames(b, x)); }
  }

  lemma CutNothing(fs: FS)
    ensures Cut(fs, {}) == fs
  {
    forall x | x in fs ensures x in Cut(fs, {}) && Cut(fs, {})[x] == fs[x] {
      assert To({}, x) == {} && CutNames({}, x) == {};
      if fs[x].IsDir() { KeepNone(fs[x].content.entries, {}); }
    }
  }

  lemma CutKeepsAcyclic(fs: FS, c: set<Link>)
    requires Acyclic(fs) && c <= Links(fs)
    ensures Acyclic(Cut(fs, c))
  {
    var rank :| Ranked(fs, rank);
    forall l | l in Links(Cut(fs, c)) ensures l in Links(fs) && fs[l.dir].IsDir() { CutLinks(fs, c, l); }
    assert Ranked(Cut(fs, c), rank);
  }

  /** None of the entries on a canonical path is among c. */
  ghost predicate Avoids(fs: FS, start: Id, q: seq<string>, c: set<Link>)
    requires At(fs, start, q).Some?
    decreases |q|
  {
    q != [] ==> LastLink(fs, start, q) !in c && Avoids(fs, start, q[..|q| - 1], c)
  }

  /** A place stays reachable by its canonical path while no entry on that path is cut. */
  lemma {:induction false} CutAt(fs: FS, roots: map<DriveId, Id>, root: Id, c: set<Link>, q: seq<string>)
    requires WellFormed(fs) && RootsOk(fs, roots) && CountsOk(fs, roots) && c <= Links(fs)
    requires IsRoot(roots, root) && At(fs, root, q).Some? && Avoids(fs, root, q, c)
    ensures At(Cut(fs, c), root, q) == At(fs, root, q)
    ensures At(fs, root, q).value in fs ==> !Gone(fs, c, At(fs, root, q).value)
    decreases |q|
  {
    if q == [] {
      RootUncut(fs, roots, c, root);
    } else {
      CutAt(fs, roots, root, c, q[..|q| - 1]);
      var l := LastLink(fs, root, q);
      LinkTarget(fs, l);
      CutTarget(fs, roots, c, l);
      CutLinks(fs, c, l);
    }
  }

  // ---------------------------------------------------------------- linking

  /** node.Link: the parent gains an entry, the child a link. */
  function AddLink(fs: FS, p: Id, name: string, id: Id, n: Inode): FS
    requires p in fs && fs[p].IsDir()
  {
    fs[p := fs[p].(content := Dir(fs[p].content.entries + [Entry(id, name, n.Kind())]))]
      [id := n.(nlink := n.nlink + 1)]
  }

  /** One entry more, at the end of p's listing, for an inode with that content and link count;
      no other row is different. */
  ghost predicate EntryAdded(fs: FS, gs: FS, p: Id, name: string, id: Id, content: Content, nlink: nat) {
    p in fs && fs[p].IsDir() && id != p
    && gs.Keys == fs.Keys + {id} && gs[id] == Inode(nlink, content)
    && gs[p] == Inode(fs[p].nlink, Dir(fs[p].content.entries + [Entry(id, name, gs[id].Kind())]))
    && forall x | x in fs && x != p && x != id :: gs[x] == fs[x]
  }

  lemma AddLinkAdds(fs: FS, p: Id, name: string, id: Id, n: Inode)
    requires p in fs && fs[p].IsDir() && id != p
    ensures EntryAdded(fs, AddLink(fs, p, name, id, n), p, name, id, n.content, n.nlink + 1)
  {
  }

  /** The child of a Link: a fresh inode without entries, or an existing file or object. */
  ghost predicate Linkable(fs: FS, roots: map<DriveId, Id>, id: Id, n: Inode) {
    if id in fs then fs[id] == n && n.Regular() && !IsRoot(roots, id)
    else n.nlink == 0 && (n.IsDir() ==> n.content.entries == [])
  }

  lemma AddLinkLinks(fs: FS, roots: map<DriveId, Id>, p: Id, name: string, id: Id, n: Inode)
    requires p in fs && fs[p].IsDir() && Linkable(fs, roots, id, n)
    requires Find(fs[p].content.entries, name).None?
    ensures Links(AddLink(fs, p, name, id, n)) == Links(fs) + {Link(p, name, id)}
    ensures Link(p, name, id) !in Links(fs)
  {
    var gs := AddLink(fs, p, name, id, n);
    forall l ensures l in Links(gs) <==> l in Links(fs) || l == Link(p, name, id) {
      if l.dir == p {
        FindAppend(fs[p].content.entries, Entry(id, name, n.Kind()), l.name);
      }
    }
  }

  /** A good listing stays good while its inodes stay and keep their kinds. */
  lemma ListingGrows(fs: FS, gs: FS, es: seq<Entry>)
    requires ListingOk(fs, es) && forall x | x in fs :: x in gs && gs[x].Kind() == fs[x].Kind()
    ensures ListingOk(gs, es)
  {
  }

  lemma ListingAppend(gs: FS, es: seq<Entry>, e: Entry)
    requires ListingOk(gs, es) && Find(es, e.name).None? && IsName(e.name) && e.ino in gs && e.kind == gs[e.ino].Kind()
    ensures ListingOk(gs, es + [e])
  {
    assert forall i | 0 <= i < |es| :: es[i] in es;
  }

  lemma AddLinkWellFormed(fs: FS, roots: map<DriveId, Id>, p: Id, name: string, id: Id, n: Inode)
    requires WellFormed(fs) && p in fs && fs[p].IsDir() && Linkable(fs, roots, id, n)
    requires Find(fs[p].content.entries, name).None? && IsName(name)
    ensures WellFormed(AddLink(fs, p, name, id, n))
  {
    var gs := AddLink(fs, p, name, id, n);
    forall d | d in gs && gs[d].IsDir() ensures ListingOk(gs, gs[d].content.entries) {
      if d in fs { ListingGrows(fs, gs, fs[d].content.entries); }
      if d == p { ListingAppend(gs, fs[p].content.entries, Entry(id, name, n.Kind())); }
    }
  }

  lemma AddLinkKeepsInv(fs: FS, roots: map<DriveId, Id>, owner: map<Id, DriveId>, p: Id, name: string, id: Id, n: Inode)
      returns (owner': map<Id, DriveId>)
    requires Inv(fs, roots, owner) && p in fs && fs[p].IsDir() && Linkable(fs, roots, id, n)
    requires Find(fs[p].content.entries, name).None? && IsName(name)
    requires id in fs ==> owner[id] == owner[p]
    ensures owner' == owner[id := owner[p]]
    ensures Inv(AddLink(fs, p, name, id, n), roots, owner')
  {
    owner' := owner[id := owner[p]];
    AddLinkWellFormed(fs, roots, p, name, id, n);
    if id !in fs { FreshHasNoLinks(fs, roots, owner, id); }
    AddLinkRootsOwners(fs, roots, owner, p, name, id, n);
    AddLinkCounts(fs, roots, p, name, id, n);
  }

  lemma AddLinkRootsOwners(fs: FS, roots: map<DriveId, Id>, owner: map<Id, DriveId>, p: Id, name: string, id: Id,
                           n: Inode)
    requires RootsOk(fs, roots) && OwnersOk(fs, roots, owner)
    requires p in fs && fs[p].IsDir() && Linkable(fs, roots, id, n)
    requires Find(fs[p].content.entries, name).None?
    requires id in fs ==> owner[id] == owner[p]
    requires id !in fs ==> forall l | l in Links(fs) :: l.dir != id && l.ino != id
    ensures RootsOk(AddLink(fs, p, name, id, n), roots)
    ensures OwnersOk(AddLink(fs, p, name, id, n), roots, owner[id := owner[p]])
  {
    AddLinkLinks(fs, roots, p, name, id, n);
    assert !IsRoot(roots, id);
  }

  lemma FreshHasNoLinks(fs: FS, roots: map<DriveId, Id>, owner: map<Id, DriveId>, id: Id)
    requires WellFormed(fs) && id !in fs
    ensures To(Links(fs), id) == {}
    ensures forall l | l in Links(fs) :: l.dir != id && l.ino != id
  {
    forall l | l in Links(fs) ensures l.dir != id && l.ino != id { LinkTarget(fs, l); }
  }

  lemma AddLinkTo(fs: FS, roots: map<DriveId, Id>, p: Id, name: string, id: Id, n: Inode, x: Id)
    requires p in fs && fs[p].IsDir() && Linkable(fs, roots, id, n)
    requires Find(fs[p].content.entries, name).None?
    ensures |To(Links(AddLink(fs, p, name, id, n)), x)| == |To(Links(fs), x)| + if x == id then 1 else 0
  {
    AddLinkLinks(fs, roots, p, name, id, n);
    ToPlus(Links(fs), {Link(p, name, id)}, x);
    ToOne(Link(p, name, id), x);
  }

  lemma AddLinkCounts(fs: FS, roots: map<DriveId, Id>, p: Id, name: string, id: Id, n: Inode)
    requires CountsOk(fs, roots) && p in fs && fs[p].IsDir() && Linkable(fs, roots, id, n)
    requires Find(fs[p].content.entries, name).None?
    requires id !in fs ==> To(Links(fs), id) == {}
    ensures CountsOk(AddLink(fs, p, name, id, n), roots)
    ensures Exact(fs, roots) ==> Exact(AddLink(fs, p, name, id, n), roots)
  {
    var gs := AddLink(fs, p, name, id, n);
    forall x | x in gs && !IsRoot(roots, x)
      ensures CountOk(gs[x], |To(Links(gs), x)|)
      ensures Exact(fs, roots) ==> |To(Links(gs), x)| == gs[x].nlink
    {
      AddLinkTo(fs, roots, p, name, id, n, x);
    }
  }

  lemma AddLinkKeepsAcyclic(fs: FS, roots: map<DriveId, Id>, p: Id, name: string, id: Id, n: Inode)
    requires WellFormed(fs) && Acyclic(fs) && p in fs && fs[p].IsDir() && Linkable(fs, roots, id, n)
    requires Find(fs[p].content.entries, name).None?
    ensures Acyclic(AddLink(fs, p, name, id, n))
  {
    var rank :| Ranked(fs, rank);
    var gs := AddLink(fs, p, name, id, n);
    AddLinkLinks(fs, roots, p, name, id, n);
    var rank' := if id in fs then rank else rank[id := rank[p] + 1];
    forall l | l in Links(gs) && l.ino in gs && gs[l.ino].IsDir() ensures rank'[l.dir] < rank'[l.ino] {
      if l in Links(fs) { LinkTarget(fs, l); }
    }
    assert Ranked(gs, rank');
  }

  // ---------------------------------------------------------------- changes the graph does not see

  ghost predicate SameShape(fs: FS, gs: FS) {
    fs.Keys == gs.Keys
    && forall x | x in fs ::
         gs[x].Kind() == fs[x].Kind() && gs[x].IsDir() == fs[x].IsDir() && gs[x].Regular() == fs[x].Regular()
         && (fs[x].IsDir() ==> gs[x].content == fs[x].content)
  }

  lemma SameShapeLinks(fs: FS, gs: FS)
    requires SameShape(fs, gs)
    ensures Links(gs) == Links(fs)
  {
    forall l ensures HasLink(gs, l) <==> HasLink(fs, l) {}
  }

  lemma SameShapeWellFormed(fs: FS, gs: FS)
    requires SameShape(fs, gs) && WellFormed(fs)
    ensures WellFormed(gs)
  {
    forall d | d in gs && gs[d].IsDir() ensures ListingOk(gs, gs[d].content.entries) {
      assert ListingOk(fs, fs[d].content.entries);
    }
  }

  lemma CountsDown(fs: FS, gs: FS, roots: map<DriveId, Id>)
    requires CountsOk(fs, roots) && gs.Keys == fs.Keys && Links(gs) == Links(fs)
    requires forall x | x in fs && !IsRoot(roots, x) ::
               gs[x].Regular() == fs[x].Regular() && |To(Links(fs), x)| <= gs[x].nlink <= fs[x].nlink
               && gs[x].nlink >= 1
    ensures CountsOk(gs, roots)
  {
  }

  lemma SameShapeRootsOwners(fs: FS, gs: FS, roots: map<DriveId, Id>, owner: map<Id, DriveId>)
    requires SameShape(fs, gs) && RootsOk(fs, roots) && OwnersOk(fs, roots, owner)
    ensures RootsOk(gs, roots) && OwnersOk(gs, roots, owner)
  {
    SameShapeLinks(fs, gs);
  }

  lemma SameShapeKeepsInv(fs: FS, gs: FS, roots: map<DriveId, Id>, owner: map<Id, DriveId>)
    requires SameShape(fs, gs) && Inv(fs, roots, owner)
    requires forall x | x in fs && !IsRoot(roots, x) ::
               |To(Links(fs), x)| <= gs[x].nlink <= fs[x].nlink && gs[x].nlink >= 1
    ensures Inv(gs, roots, owner)
  {
    SameShapeWellFormed(fs, gs);
    SameShapeRootsOwners(fs, gs, roots, owner);
    SameShapeLinks(fs, gs);
    CountsDown(fs, gs, roots);
  }
}

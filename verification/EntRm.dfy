/** internal/vfs/rm.go on the repository of internal/core/node/ent.go. All reads of one rm
    see the committed rows, so paths and listings never change under it; its writes go to
    the transaction, and are refused for a row that has been written before. */
module EntRemove {
  import opened Paths
  import opened Inodes
  import opened Graph
  import opened Walk
  import opened Removal
  import opened EntRepo
  import Remove

  // ---------------------------------------------------------------- entries that do not meet

  /** No entry of a shares a directory or an inode with one of b. */
  ghost predicate NoClash(a: set<Link>, b: set<Link>) {
    forall l | l in b :: Clear(a, l)
  }

  /** The entries s can be removed one by one after those of c. */
  ghost predicate Fits(c: set<Link>, s: set<Link>) {
    NoClash(c, s) && Separate(s)
  }

  lemma FitsUnion(c: set<Link>, a: set<Link>, b: set<Link>)
    requires a !! b
    ensures Fits(c, a + b) <==> Fits(c, a) && Fits(c + a, b)
  {
    if Fits(c, a + b) {
      forall k, l | k in a && l in b
        ensures k.dir != l.dir && k.ino != l.ino { assert k in a + b && l in a + b && k != l; }
    }
  }

  lemma FitsOne(c: set<Link>, l: Link)
    ensures Fits(c, {l}) <==> Clear(c, l)
  {
  }

  lemma FitsLast(c: set<Link>, below: set<Link>, l: Link)
    requires l !in below
    ensures Fits(c, below + {l}) <==> Fits(c, below) && Clear(c + below, l)
  {
    FitsUnion(c, below, {l});
    FitsOne(c + below, l);
  }

  lemma FitsLess(c: set<Link>, a: set<Link>, b: set<Link>)
    requires a <= b && Fits(c, b)
    ensures Fits(c, a)
  {
  }

  // ---------------------------------------------------------------- the entries of one plain path

  datatype Store = Store(fs: FS, roots: map<DriveId, Id>, root: Id)

  /** The committed rows, the roots of the drives, and the root of the drive at hand. */
  type TidyTree = s: Store | TreeOk(s.fs, s.roots, s.root) && TidyStore(s.fs)
    ghost witness EmptyDrive()

  ghost function EmptyDrive(): (s: Store)
    ensures TreeOk(s.fs, s.roots, s.root) && TidyStore(s.fs)
  {
    var s := Store(map[0 := Inode(0, Dir([]))], map["" := 0], 0);
    assert s.roots[""] == 0;
    assert forall l :: !HasLink(s.fs, l);
    s
  }

  /** A path without symlinks or white space that leads to n. */
  ghost predicate Planted(t: TidyTree, path: string, n: Id) {
    AllTidy(Split(path)) && Comps(path) != [] && At(t.fs, t.root, Comps(path)) == Some(n) && n in t.fs
  }

  /** The entries at and below a place, and the entry that leads to it. */
  ghost function TreeLinks(fs: FS, root: Id, q: seq<string>): set<Link>
    requires q != [] && At(fs, root, q).Some?
  {
    SubLinks(fs, root, q) + {LastLink(fs, root, q)}
  }

  lemma PlantedParent(t: TidyTree, path: string, n: Id)
    requires Planted(t, path, n)
    ensures var l := LastLink(t.fs, t.root, Comps(path));
            ResolveParent(t.fs, t.root, path) == Ok((l.dir, l.name))
            && HasLeaf(t.fs, t.root, path) && LeafLink(t.fs, t.root, path) == l
  {
    var comps := Comps(path);
    var up := comps[..|comps| - 1];
    CompsTidy(path);
    CompsAreNames(path);
    NamesTidyComps(up);
    ResolvePlain(t.fs, t.root, ParentPath(path), true, At(t.fs, t.root, up).value);
    assert HasLink(t.fs, LastLink(t.fs, t.root, comps));
  }

  /** An entry that is not its directory's own, with nothing left below it. */
  ghost predicate MayGo(t: TidyTree, c: set<Link>, l: Link) {
    l in Links(t.fs) && l.dir != l.ino && forall k | k in Links(t.fs) && k.dir == l.ino :: k in c
  }

  /** The entry a plain path names may go once nothing is below it. */
  lemma LastMayGo(t: TidyTree, q: seq<string>, n: Id, c: set<Link>)
    requires q != [] && At(t.fs, t.root, q) == Some(n) && n in t.fs
    requires t.fs[n].IsDir() ==> SubLinks(t.fs, t.root, q) <= c
    ensures MayGo(t, c, LastLink(t.fs, t.root, q))
  {
    var l := LastLink(t.fs, t.root, q);
    assert HasLink(t.fs, l);
    if l.dir == n {
      DirPlaceUnique(t.fs, t.roots, t.root, q[..|q| - 1], q);
      assert false;
    }
    forall k | k in Links(t.fs) && k.dir == n ensures k in c {
      assert HasLink(t.fs, k);
      assert q <= q;
      assert Under(t.fs, t.root, q, k.dir);
    }
  }

  lemma LastNotBelow(t: TidyTree, q: seq<string>, n: Id)
    requires q != [] && At(t.fs, t.root, q) == Some(n) && n in t.fs && t.fs[n].IsDir()
    ensures LastLink(t.fs, t.root, q) !in SubLinks(t.fs, t.root, q)
  {
    DoneAll(t.fs, t.root, q, n);
    NotDone(t.fs, t.roots, t.root, q, EntryNames(t.fs[n].content.entries), q[..|q| - 1], LastLink(t.fs, t.root, q));
  }

  /** What is behind one name is apart from what is behind others. */
  lemma NextApart(t: TidyTree, q: seq<string>, names: set<string>, a: string)
    requires At(t.fs, t.root, q + [a]).Some? && a !in names
    ensures Done(t.fs, t.root, q, names) !! TreeLinks(t.fs, t.root, q + [a])
  {
    forall l | l in TreeLinks(t.fs, t.root, q + [a]) ensures l !in Done(t.fs, t.root, q, names) {
      if l in SubLinks(t.fs, t.root, q + [a]) {
        BelowApart(t, q, names, a, l);
      } else {
        assert (q + [a])[..|q|] == q;
        NotDone(t.fs, t.roots, t.root, q, names, q, l);
      }
    }
  }

  lemma BelowApart(t: TidyTree, q: seq<string>, names: set<string>, a: string, l: Link)
    requires l in SubLinks(t.fs, t.root, q + [a]) && a !in names
    ensures l !in Done(t.fs, t.root, q, names)
  {
    var r :| q + [a] <= r && At(t.fs, t.root, r) == Some(l.dir);
    assert r[|q|] == a && q <= r;
    NotDone(t.fs, t.roots, t.root, q, names, r, l);
  }

  /** Removing what is behind a further name, after all that went before. */
  lemma NextFits(t: TidyTree, q: seq<string>, n: Id, names: set<string>, a: string, x: Id, c: set<Link>)
    requires At(t.fs, t.root, q) == Some(n) && Child(t.fs, n, a) == Some(x) && a !in names
    ensures At(t.fs, t.root, q + [a]) == Some(x)
    ensures var done, s := Done(t.fs, t.root, q, names), TreeLinks(t.fs, t.root, q + [a]);
            Done(t.fs, t.root, q, names + {a}) == done + s
            && (Fits(c, done + s) <==> Fits(c, done) && Fits(c + done, s))
  {
    AtSnoc(t.fs, t.root, q, a);
    assert (q + [a])[..|q|] == q;
    DoneStep(t.fs, t.root, q, n, names, a, x);
    NextApart(t, q, names, a);
    FitsUnion(c, Done(t.fs, t.root, q, names), TreeLinks(t.fs, t.root, q + [a]));
  }

  lemma DoneLess(fs: FS, root: Id, q: seq<string>, names: set<string>, more: set<string>)
    requires names <= more
    ensures Done(fs, root, q, names) <= Done(fs, root, q, more)
  {
  }

  /** A tidy path, through symlinks or not, that leads to n, which sits at q. */
  ghost predicate Leads(t: TidyTree, path: string, n: Id, q: seq<string>) {
    match ResolvePath(t.fs, t.root, path, true)
    case Ok(out) => AllTidy(Split(path)) && out == Found(n, q, []) && At(t.fs, t.root, q) == Some(n) && n in t.fs
    case Err(_) => false
  }

  /** The child's path names the child's entry, and leads to the child if that is a directory. */
  lemma ChildLeads(t: TidyTree, path: string, n: Id, q: seq<string>, e: Entry)
    requires Leads(t, path, n, q) && t.fs[n].IsDir() && e in t.fs[n].content.entries
    ensures Child(t.fs, n, e.name) == Some(e.ino) && e.ino in t.fs && |q| < |t.fs|
    ensures At(t.fs, t.root, q + [e.name]) == Some(e.ino)
    ensures LastLink(t.fs, t.root, q + [e.name]) == Link(n, e.name, e.ino)
    ensures var cp := ChildPath(path, e.name);
            AllTidy(Split(cp)) && HasLeaf(t.fs, t.root, cp) && LeafLink(t.fs, t.root, cp) == Link(n, e.name, e.ino)
            && (t.fs[e.ino].IsDir() ==> Leads(t, cp, e.ino, q + [e.name]))
  {
    FindUnique(t.fs[n].content.entries, e);
    assert Link(n, e.name, e.ino) in Links(t.fs);
    AtSnoc(t.fs, t.root, q, e.name);
    assert (q + [e.name])[..|q|] == q;
    Remove.ChildResolves(t.fs, t.root, path, n, q, e.name, e.ino);
    PathShorterThanStore(t.fs, t.roots, t.root, q);
  }

  lemma LeafTree(fs: FS, root: Id, q: seq<string>, n: Id)
    requires q != [] && At(fs, root, q) == Some(n) && n in fs && !fs[n].IsDir()
    ensures TreeLinks(fs, root, q) == {LastLink(fs, root, q)}
  {
    var l, up := LastLink(fs, root, q), q[..|q| - 1];
    assert HasLink(fs, l);
    assert q == up + [l.name];
    NothingBelowLeaf(fs, root, up, l.dir, l.name, n);
  }

  // ---------------------------------------------------------------- rm

  ghost predicate OnRows(t: TidyTree, repo: EntRepository, root: Id)
    reads repo`client
  {
    t.root == root && Rows(repo.client) == t.fs
  }

  /** The entry a path names is there and meets none of c. */
  ghost predicate LeafFits(t: TidyTree, c: set<Link>, path: string) {
    HasLeaf(t.fs, t.root, path) && Clear(c, LeafLink(t.fs, t.root, path))
  }

  ghost function Base(t: TidyTree): Solid { Ground(t.fs, t.roots) }

  /** The directory is loaded, and the entry unlinked. */
  method UnlinkNamed(repo: EntRepository, d: Id, name: string, ghost g: Solid, ghost x: Option<Id>)
      returns (r: Result<()>)
    requires repo.Valid() && repo.HasCut() && g.fs == Rows(repo.client) && d in repo.client && x == Child(g.fs, d, name)
    requires x.Some? ==> Unlinkable(g.fs, repo.Unlinks(), Link(d, name, x.value))
    modifies repo`tx, repo`issued, repo`unlinked
    ensures repo.Valid() && g.fs == Rows(repo.client)
    ensures (r.Ok? <==> x.Some? && Clear(old(repo.Unlinks()), Link(d, name, x.value)))
            && (r.Ok? ==> repo.HasCut() && repo.Unlinks() == old(repo.Unlinks()) + {Link(d, name, x.value)})
  {
    var parent := repo.Get(d);
    r := repo.Unlink(parent.value, name, g);
  }

  /** rm: the parent is resolved, and the entry of the last name unlinked. */
  method RmLeaf(repo: EntRepository, rootID: Id, path: string, ghost t: TidyTree) returns (r: Result<()>)
    requires repo.Valid() && repo.HasCut() && OnRows(t, repo, rootID)
    requires HasLeaf(t.fs, t.root, path) ==> MayGo(t, repo.Unlinks(), LeafLink(t.fs, t.root, path))
    modifies repo`tx, repo`issued, repo`unlinked
    ensures repo.Valid() && OnRows(t, repo, rootID) && (r.Ok? <==> LeafFits(t, old(repo.Unlinks()), path))
    ensures r.Ok? ==> repo.HasCut() && repo.Unlinks() == old(repo.Unlinks()) + {LeafLink(t.fs, t.root, path)}
  {
    var at := ResolveParent(Rows(repo.client), rootID, path);
    if at.Err? { return Err(at.error); }
    ResolvePlace(t.fs, t.root, ParentPath(path), true);
    r := UnlinkNamed(repo, at.value.0, at.value.1, Base(t), Child(t.fs, at.value.0, at.value.1));
  }

  /** All below q fits, and then the entry of the path, which is not itself below q. */
  ghost predicate TreeFits(t: TidyTree, c: set<Link>, path: string, q: seq<string>) {
    Fits(c, SubLinks(t.fs, t.root, q)) && LeafFits(t, c + SubLinks(t.fs, t.root, q), path)
  }

  /** rmRecursive, on the directory at q that the path leads to. */
  method RmTree(repo: EntRepository, rootID: Id, n: Node, path: string, ghost t: TidyTree, ghost q: seq<string>)
      returns (r: Result<()>)
    requires repo.Valid() && repo.HasCut() && OnRows(t, repo, rootID) && Leads(t, path, n.id, q)
    requires n.inode == t.fs[n.id] && n.inode.IsDir()
    modifies repo`tx, repo`issued, repo`unlinked
    ensures repo.Valid() && OnRows(t, repo, rootID) && (r.Ok? <==> TreeFits(t, old(repo.Unlinks()), path, q))
    ensures r.Ok? ==>
              repo.HasCut()
              && repo.Unlinks() == old(repo.Unlinks()) + SubLinks(t.fs, t.root, q) + {LeafLink(t.fs, t.root, path)}
    decreases |t.fs| - |q|, 3
  {
    ghost var c := repo.Unlinks();
    r := RmEntries(repo, rootID, n.inode.content.entries, path, t, n.id, q);
    if r.Ok? { r := RmLast(repo, rootID, path, t, n.id, q, c + SubLinks(t.fs, t.root, q)); }
  }

  /** The entry of the path, after all that is below its directory. */
  method RmLast(repo: EntRepository, rootID: Id, path: string, ghost t: TidyTree, ghost n: Id, ghost q: seq<string>,
                ghost c: set<Link>)
      returns (r: Result<()>)
    requires SubLinks(t.fs, t.root, q) <= c == repo.Unlinks()
    requires repo.Valid() && repo.HasCut() && OnRows(t, repo, rootID) && Leads(t, path, n, q) && t.fs[n].IsDir()
    modifies repo`tx, repo`issued, repo`unlinked
    ensures repo.Valid() && OnRows(t, repo, rootID) && (r.Ok? <==> LeafFits(t, c, path))
    ensures r.Ok? ==> repo.HasCut() && repo.Unlinks() == c + {LeafLink(t.fs, t.root, path)}
  {
    LeafLast(t, path, n, q, c);
    r := RmLeaf(repo, rootID, path, t);
  }

  /** The entry of the path may go after all that is below its directory. */
  lemma LeafLast(t: TidyTree, path: string, n: Id, q: seq<string>, c: set<Link>)
    requires Leads(t, path, n, q) && t.fs[n].IsDir() && SubLinks(t.fs, t.root, q) <= c
    ensures HasLeaf(t.fs, t.root, path) ==> MayGo(t, c, LeafLink(t.fs, t.root, path))
  {
    if HasLeaf(t.fs, t.root, path) {
      CompsTidy(path);
      LeafIsTarget(t.fs, t.roots, t.root, path);
      LeafMayGo(t, path, c);
    }
  }

  /** The entry of a path that leads to a file, an object or a mount may go at once. */
  lemma LeafOnly(t: TidyTree, path: string, c: set<Link>)
    requires AllTidy(Split(path))
    requires var out := ResolvePath(t.fs, t.root, path, true);
             out.Ok? && out.value.ino in t.fs && !t.fs[out.value.ino].IsDir()
    ensures HasLeaf(t.fs, t.root, path) ==> MayGo(t, c, LeafLink(t.fs, t.root, path))
  {
    if HasLeaf(t.fs, t.root, path) {
      CompsTidy(path);
      LeafIsTarget(t.fs, t.roots, t.root, path);
      LeafMayGo(t, path, c);
    }
  }

  lemma LeafMayGo(t: TidyTree, path: string, c: set<Link>)
    requires HasLeaf(t.fs, t.root, path) && LeafLink(t.fs, t.root, path) in Links(t.fs)
    requires var l := LeafLink(t.fs, t.root, path);
             l.ino in t.fs && (t.fs[l.ino].IsDir() ==>
               exists q :: At(t.fs, t.root, q) == Some(l.ino) && SubLinks(t.fs, t.root, q) <= c)
    ensures MayGo(t, c, LeafLink(t.fs, t.root, path))
  {
    var l := LeafLink(t.fs, t.root, path);
    if t.fs[l.ino].IsDir() {
      var q :| At(t.fs, t.root, q) == Some(l.ino) && SubLinks(t.fs, t.root, q) <= c;
      ResolvePlace(t.fs, t.root, ParentPath(path), true);
      var p := ResolvePath(t.fs, t.root, ParentPath(path), true).value.place;
      AtSnoc(t.fs, t.root, p, l.name);
      DirMayGo(t, p, q, l, c);
    } else {
      NothingIn(t.fs, l.ino);
      assert HasLink(t.fs, l);
    }
  }

  lemma NothingIn(fs: FS, x: Id)
    requires x in fs && !fs[x].IsDir()
    ensures forall k | k in Links(fs) :: k.dir != x
  {
    forall k | k in Links(fs) ensures k.dir != x { assert HasLink(fs, k); }
  }

  lemma DirMayGo(t: TidyTree, p: seq<string>, q: seq<string>, l: Link, c: set<Link>)
    requires l in Links(t.fs) && At(t.fs, t.root, p) == Some(l.dir) && At(t.fs, t.root, p + [l.name]) == Some(l.ino)
    requires l.ino in t.fs && t.fs[l.ino].IsDir() && At(t.fs, t.root, q) == Some(l.ino)
    requires SubLinks(t.fs, t.root, q) <= c
    ensures MayGo(t, c, l)
  {
    if l.dir == l.ino {
      DirPlaceUnique(t.fs, t.roots, t.root, p, p + [l.name]);
      assert false;
    }
    forall k | k in Links(t.fs) && k.dir == l.ino ensures k in c {
      assert q <= q;
      assert Under(t.fs, t.root, q, k.dir);
    }
  }

  /** The loop over the entries es of the directory x. */
  method RmEntries(repo: EntRepository, rootID: Id, es: seq<Entry>, path: string,
                   ghost t: TidyTree, ghost x: Id, ghost q: seq<string>)
      returns (r: Result<()>)
    requires repo.Valid() && repo.HasCut() && OnRows(t, repo, rootID)
    requires Leads(t, path, x, q) && t.fs[x].IsDir() && es == t.fs[x].content.entries
    modifies repo`tx, repo`issued, repo`unlinked
    ensures repo.Valid() && OnRows(t, repo, rootID) && (r.Ok? <==> Fits(old(repo.Unlinks()), SubLinks(t.fs, t.root, q)))
    ensures r.Ok? ==> repo.HasCut() && repo.Unlinks() == old(repo.Unlinks()) + SubLinks(t.fs, t.root, q)
    decreases |t.fs| - |q|, 2
  {
    ghost var c := repo.Unlinks();
    TurnsStart(t, q, es, c);
    for i := 0 to |es|
      invariant repo.Valid() && repo.HasCut() && OnRows(t, repo, rootID) && Turned(t, q, es, i, c, repo.Unlinks())
    {
      r := RmTurn(repo, rootID, es[i], path, t, x, q, es, i, c);
      if r.Err? { return; }
    }
    TurnsEnd(t, q, x, es, c, repo.Unlinks());
    return Ok(());
  }

  /** One turn of the loop, and what it means for the whole. */
  method RmTurn(repo: EntRepository, rootID: Id, e: Entry, path: string,
                ghost t: TidyTree, ghost n: Id, ghost q: seq<string>, ghost es: seq<Entry>, ghost i: nat,
                ghost c: set<Link>)
      returns (r: Result<()>)
    requires repo.Valid() && repo.HasCut() && OnRows(t, repo, rootID)
    requires Leads(t, path, n, q) && t.fs[n].IsDir() && es == t.fs[n].content.entries && i < |es| && e == es[i]
    requires Turned(t, q, es, i, c, repo.Unlinks())
    modifies repo`tx, repo`issued, repo`unlinked
    ensures repo.Valid() && OnRows(t, repo, rootID)
    ensures r.Ok? ==> repo.HasCut() && Turned(t, q, es, i + 1, c, repo.Unlinks())
    ensures r.Err? ==> !Fits(c, SubLinks(t.fs, t.root, q))
    decreases |t.fs| - |q|, 1
  {
    ghost var s := TurnOf(t, n, q, es, i, c, repo.Unlinks());
    r := RmChild(repo, rootID, e, path, t, n, q);
  }

  /** The child is loaded, and removed by its path with all that is below it. */
  method RmChild(repo: EntRepository, rootID: Id, e: Entry, path: string, ghost t: TidyTree, ghost n: Id,
                 ghost q: seq<string>)
      returns (r: Result<()>)
    requires repo.Valid() && repo.HasCut() && OnRows(t, repo, rootID)
    requires Leads(t, path, n, q) && t.fs[n].IsDir() && e in t.fs[n].content.entries
    requires At(t.fs, t.root, q + [e.name]).Some?
    modifies repo`tx, repo`issued, repo`unlinked
    ensures var s := TreeLinks(t.fs, t.root, q + [e.name]);
            repo.Valid() && OnRows(t, repo, rootID) && (r.Ok? <==> Fits(old(repo.Unlinks()), s))
            && (r.Ok? ==> repo.HasCut() && repo.Unlinks() == old(repo.Unlinks()) + s)
    decreases |t.fs| - |q|, 0
  {
    ChildLeads(t, path, n, q, e);
    ChildFits(t, path, n, q, e, repo.Unlinks());
    var child := repo.Get(e.ino);
    if child.value.inode.IsDir() {
      r := RmTree(repo, rootID, child.value, ChildPath(path, e.name), t, q + [e.name]);
    } else {
      r := RmLeaf(repo, rootID, ChildPath(path, e.name), t);
    }
  }

  /** What removing a child by its path comes to. */
  lemma ChildFits(t: TidyTree, path: string, n: Id, q: seq<string>, e: Entry, c: set<Link>)
    requires Leads(t, path, n, q) && t.fs[n].IsDir() && e in t.fs[n].content.entries
    requires At(t.fs, t.root, q + [e.name]).Some?
    ensures var s, cp, r := TreeLinks(t.fs, t.root, q + [e.name]), ChildPath(path, e.name), q + [e.name];
            HasLeaf(t.fs, t.root, cp)
            && if t.fs[e.ino].IsDir()
               then (Fits(c, s) <==> TreeFits(t, c, cp, r))
                    && c + s == c + SubLinks(t.fs, t.root, r) + {LeafLink(t.fs, t.root, cp)}
               else (Fits(c, s) <==> LeafFits(t, c, cp)) && s == {LeafLink(t.fs, t.root, cp)}
                    && MayGo(t, c, LeafLink(t.fs, t.root, cp))
  {
    ChildLeads(t, path, n, q, e);
    if t.fs[e.ino].IsDir() {
      DirFits(t, q + [e.name], e.ino, c);
    } else {
      LeafAlone(t, q + [e.name], e.ino, c);
    }
  }

  lemma DirFits(t: TidyTree, r: seq<string>, x: Id, c: set<Link>)
    requires r != [] && At(t.fs, t.root, r) == Some(x) && x in t.fs && t.fs[x].IsDir()
    ensures var s, sub, l := TreeLinks(t.fs, t.root, r), SubLinks(t.fs, t.root, r), LastLink(t.fs, t.root, r);
            (Fits(c, s) <==> Fits(c, sub) && Clear(c + sub, l)) && c + s == c + sub + {l}
  {
    LastNotBelow(t, r, x);
    FitsLast(c, SubLinks(t.fs, t.root, r), LastLink(t.fs, t.root, r));
  }

  lemma LeafAlone(t: TidyTree, r: seq<string>, x: Id, c: set<Link>)
    requires r != [] && At(t.fs, t.root, r) == Some(x) && x in t.fs && !t.fs[x].IsDir()
    ensures var s, l := TreeLinks(t.fs, t.root, r), LastLink(t.fs, t.root, r);
            (Fits(c, s) <==> Clear(c, l)) && s == {l} && MayGo(t, c, l)
  {
    LeafTree(t.fs, t.root, r, x);
    LastMayGo(t, r, x, c);
    FitsOne(c, LastLink(t.fs, t.root, r));
  }

  /** The first i entries of a listing, and all below them, have been removed after c. */
  ghost predicate Turned(t: TidyTree, q: seq<string>, es: seq<Entry>, i: nat, c: set<Link>, cut: set<Link>) {
    i <= |es|
    && var done := Done(t.fs, t.root, q, EntryNames(es[..i]));
       cut == c + done && Fits(c, done)
  }

  lemma TurnsStart(t: TidyTree, q: seq<string>, es: seq<Entry>, c: set<Link>)
    ensures Turned(t, q, es, 0, c, c)
  {
    assert es[..0] == [] && EntryNames([]) == {};
    DoneNothing(t.fs, t.root, q);
  }

  lemma TurnsEnd(t: TidyTree, q: seq<string>, n: Id, es: seq<Entry>, c: set<Link>, cut: set<Link>)
    requires At(t.fs, t.root, q) == Some(n) && n in t.fs && t.fs[n].IsDir() && es == t.fs[n].content.entries
    requires Turned(t, q, es, |es|, c, cut)
    ensures Fits(c, SubLinks(t.fs, t.root, q)) && cut == c + SubLinks(t.fs, t.root, q)
  {
    assert es[..|es|] == es;
    DoneAll(t.fs, t.root, q, n);
  }

  lemma TurnNext(t: TidyTree, n: Id, q: seq<string>, es: seq<Entry>, i: nat, c: set<Link>)
    requires At(t.fs, t.root, q) == Some(n) && n in t.fs && t.fs[n].IsDir() && es == t.fs[n].content.entries && i < |es|
    ensures At(t.fs, t.root, q + [es[i].name]).Some?
    ensures var done, s := Done(t.fs, t.root, q, EntryNames(es[..i])), TreeLinks(t.fs, t.root, q + [es[i].name]);
            Done(t.fs, t.root, q, EntryNames(es[..i + 1])) == done + s
            && (Fits(c, done + s) <==> Fits(c, done) && Fits(c + done, s))
  {
    FindUnique(t.fs[n].content.entries, es[i]);
    Remove.EntryNamesStep(es, i);
    NextFits(t, q, n, EntryNames(es[..i]), es[i].name, es[i].ino, c);
  }

  lemma TurnBelow(t: TidyTree, n: Id, q: seq<string>, es: seq<Entry>, i: nat)
    requires At(t.fs, t.root, q) == Some(n) && n in t.fs && t.fs[n].IsDir() && es == t.fs[n].content.entries
    requires i <= |es|
    ensures Done(t.fs, t.root, q, EntryNames(es[..i])) <= SubLinks(t.fs, t.root, q)
  {
    assert forall e | e in es[..i] :: e in es;
    DoneAll(t.fs, t.root, q, n);
    DoneLess(t.fs, t.root, q, EntryNames(es[..i]), EntryNames(es));
  }

  /** What the turn of entry i removes, and what it means for the whole if it cannot. */
  lemma TurnOf(t: TidyTree, n: Id, q: seq<string>, es: seq<Entry>, i: nat, c: set<Link>, cut: set<Link>)
      returns (s: set<Link>)
    requires At(t.fs, t.root, q) == Some(n) && n in t.fs && t.fs[n].IsDir() && es == t.fs[n].content.entries && i < |es|
    requires Turned(t, q, es, i, c, cut)
    ensures At(t.fs, t.root, q + [es[i].name]).Some? && s == TreeLinks(t.fs, t.root, q + [es[i].name])
    ensures Fits(cut, s) ==> Turned(t, q, es, i + 1, c, cut + s)
    ensures !Fits(cut, s) ==> !Fits(c, SubLinks(t.fs, t.root, q))
  {
    TurnNext(t, n, q, es, i, c);
    s := TreeLinks(t.fs, t.root, q + [es[i].name]);
    TurnBelow(t, n, q, es, i + 1);
    if Fits(c, SubLinks(t.fs, t.root, q)) {
      FitsLess(c, Done(t.fs, t.root, q, EntryNames(es[..i + 1])), SubLinks(t.fs, t.root, q));
    }
  }

  // ---------------------------------------------------------------- several paths

  /** The entries rm removes for a path, on the committed rows. */
  ghost function RemovedBy(fs: FS, root: Id, path: string): set<Link> {
    if HasLeaf(fs, root, path) then RemovedLinks(fs, root, path) else {}
  }

  ghost function AllRemoved(fs: FS, root: Id, paths: seq<string>): set<Link> {
    set i, l | 0 <= i < |paths| && l in RemovedBy(fs, root, paths[i]) :: l
  }

  /** Among all entries removed, within one path and across paths, no two share a directory
      and no two name one inode. */
  ghost predicate AllSeparate(fs: FS, root: Id, paths: seq<string>) {
    (forall i | 0 <= i < |paths| :: Separate(RemovedBy(fs, root, paths[i])))
    && forall i, j | 0 <= i < j < |paths| :: NoClash(RemovedBy(fs, root, paths[i]), RemovedBy(fs, root, paths[j]))
  }

  lemma OnePathMore(fs: FS, root: Id, paths: seq<string>, i: nat)
    requires i < |paths|
    ensures AllRemoved(fs, root, paths[..i + 1]) == AllRemoved(fs, root, paths[..i]) + RemovedBy(fs, root, paths[i])
    ensures AllSeparate(fs, root, paths[..i + 1]) <==>
              AllSeparate(fs, root, paths[..i]) && Fits(AllRemoved(fs, root, paths[..i]), RemovedBy(fs, root, paths[i]))
  {
    assert paths[..i + 1] == paths[..i] + [paths[i]];
    RemovedMore(fs, root, paths[..i], paths[i]);
    SeparateMore(fs, root, paths[..i], paths[i]);
  }

  lemma RemovedMore(fs: FS, root: Id, paths: seq<string>, p: string)
    ensures AllRemoved(fs, root, paths + [p]) == AllRemoved(fs, root, paths) + RemovedBy(fs, root, p)
  {
    var more := paths + [p];
    forall l
      ensures l in AllRemoved(fs, root, more) <==> l in AllRemoved(fs, root, paths) || l in RemovedBy(fs, root, p) {
      if l in AllRemoved(fs, root, paths) {
        var j :| 0 <= j < |paths| && l in RemovedBy(fs, root, paths[j]);
        assert l in RemovedBy(fs, root, more[j]);
      }
      if l in RemovedBy(fs, root, p) { assert l in RemovedBy(fs, root, more[|paths|]); }
    }
  }

  lemma SeparateMore(fs: FS, root: Id, paths: seq<string>, p: string)
    ensures AllSeparate(fs, root, paths + [p]) <==>
              AllSeparate(fs, root, paths) && Fits(AllRemoved(fs, root, paths), RemovedBy(fs, root, p))
  {
    var more, s := paths + [p], RemovedBy(fs, root, p);
    NoClashAll(fs, root, paths, s);
    if AllSeparate(fs, root, more) {
      assert more[|paths|] == p;
      forall i | 0 <= i < |paths|
        ensures Separate(RemovedBy(fs, root, paths[i])) && NoClash(RemovedBy(fs, root, paths[i]), s) {
        assert more[i] == paths[i];
      }
      forall i, j | 0 <= i < j < |paths| ensures NoClash(RemovedBy(fs, root, paths[i]), RemovedBy(fs, root, paths[j])) {
        assert more[i] == paths[i] && more[j] == paths[j];
      }
    }
  }

  lemma NoClashAll(fs: FS, root: Id, paths: seq<string>, s: set<Link>)
    ensures NoClash(AllRemoved(fs, root, paths), s) <==>
              forall i | 0 <= i < |paths| :: NoClash(RemovedBy(fs, root, paths[i]), s)
  {
    forall i, k | 0 <= i < |paths| && k in RemovedBy(fs, root, paths[i]) ensures k in AllRemoved(fs, root, paths) {}
  }

  lemma FewerSeparate(fs: FS, root: Id, paths: seq<string>, i: nat)
    requires i <= |paths| && AllSeparate(fs, root, paths)
    ensures AllSeparate(fs, root, paths[..i])
  {
  }

  /** The path leads to something, to a directory only under -r; it names an entry; and that
      entry is not below the directory the path leads to. */
  ghost predicate Target(fs: FS, root: Id, path: string, recursive: bool) {
    Remove.Aimed(fs, root, path, recursive)
    && var out := ResolvePath(fs, root, path, true).value;
       fs[out.ino].IsDir() ==> LeafLink(fs, root, path) !in SubLinks(fs, root, out.place)
  }

  /** rmPath */
  method RmPath(repo: EntRepository, rootID: Id, path: string, recursive: bool, ghost t: TidyTree)
      returns (r: Result<()>)
    requires repo.Valid() && repo.HasCut() && OnRows(t, repo, rootID) && AllTidy(Split(path))
    modifies repo`tx, repo`issued, repo`unlinked
    ensures var s := RemovedBy(t.fs, t.root, path);
            repo.Valid() && OnRows(t, repo, rootID)
            && (r.Ok? <==> Target(t.fs, t.root, path, recursive) && Fits(old(repo.Unlinks()), s))
            && (r.Ok? ==> repo.HasCut() && repo.Unlinks() == old(repo.Unlinks()) + s)
    ensures !recursive && Remove.LeadsToDir(t.fs, t.root, path) ==> r == Err(IsDirectory) && repo.tx == old(repo.tx)
  {
    ghost var c := repo.Unlinks();
    var out := ResolvePath(Rows(repo.client), rootID, path, true);
    if out.Err? { return Err(out.error); }
    ResolvePlace(t.fs, t.root, path, true);
    var n := repo.Get(out.value.ino);
    if n.value.inode.IsDir() {
      if !recursive { return Err(IsDirectory); }
      r := RmTree(repo, rootID, n.value, path, t, out.value.place);
      TreePath(t, path, out.value.ino, out.value.place, c);
    } else {
      LeafOnly(t, path, c);
      r := RmLeaf(repo, rootID, path, t);
      LeafPath(t, path, recursive, c);
    }
  }

  lemma TreePath(t: TidyTree, path: string, n: Id, q: seq<string>, c: set<Link>)
    requires Leads(t, path, n, q) && t.fs[n].IsDir()
    ensures var s := RemovedBy(t.fs, t.root, path);
            TreeFits(t, c, path, q) <==> Target(t.fs, t.root, path, true) && Fits(c, s)
    ensures HasLeaf(t.fs, t.root, path) ==>
              c + RemovedBy(t.fs, t.root, path) == c + SubLinks(t.fs, t.root, q) + {LeafLink(t.fs, t.root, path)}
  {
    if HasLeaf(t.fs, t.root, path) {
      var l, below := LeafLink(t.fs, t.root, path), SubLinks(t.fs, t.root, q);
      assert RemovedBy(t.fs, t.root, path) == below + {l};
      if l in below {
        assert l in c + below;
      } else {
        FitsLast(c, below, l);
      }
    }
  }

  lemma LeafPath(t: TidyTree, path: string, recursive: bool, c: set<Link>)
    requires var out := ResolvePath(t.fs, t.root, path, true);
             out.Ok? && out.value.ino in t.fs && !t.fs[out.value.ino].IsDir()
    ensures LeafFits(t, c, path) <==> Target(t.fs, t.root, path, recursive) && Fits(c, RemovedBy(t.fs, t.root, path))
    ensures HasLeaf(t.fs, t.root, path) ==> RemovedBy(t.fs, t.root, path) == {LeafLink(t.fs, t.root, path)}
  {
    if HasLeaf(t.fs, t.root, path) { FitsOne(c, LeafLink(t.fs, t.root, path)); }
  }

  ghost predicate AllTargets(fs: FS, root: Id, paths: seq<string>, recursive: bool) {
    forall i | 0 <= i < |paths| :: Target(fs, root, paths[i], recursive)
  }

  ghost predicate Removable(fs: FS, root: Id, paths: seq<string>, recursive: bool) {
    AllTargets(fs, root, paths, recursive) && AllSeparate(fs, root, paths)
  }

  lemma OneMoreRemovable(fs: FS, root: Id, paths: seq<string>, recursive: bool, i: nat)
    requires i < |paths|
    ensures AllRemoved(fs, root, paths[..i + 1]) == AllRemoved(fs, root, paths[..i]) + RemovedBy(fs, root, paths[i])
    ensures Removable(fs, root, paths[..i + 1], recursive) <==>
              Removable(fs, root, paths[..i], recursive) && Target(fs, root, paths[i], recursive)
              && Fits(AllRemoved(fs, root, paths[..i]), RemovedBy(fs, root, paths[i]))
  {
    OnePathMore(fs, root, paths, i);
    assert paths[..i + 1] == paths[..i] + [paths[i]];
    TargetsMore(fs, root, paths[..i], paths[i], recursive);
  }

  lemma TargetsMore(fs: FS, root: Id, paths: seq<string>, p: string, recursive: bool)
    ensures AllTargets(fs, root, paths + [p], recursive) <==>
              AllTargets(fs, root, paths, recursive) && Target(fs, root, p, recursive)
  {
    var more := paths + [p];
    if AllTargets(fs, root, more, recursive) {
      assert more[|paths|] == p;
      forall j | 0 <= j < |paths| ensures Target(fs, root, paths[j], recursive) { assert more[j] == paths[j]; }
    }
  }

  lemma FewerRemovable(fs: FS, root: Id, paths: seq<string>, recursive: bool, i: nat)
    requires i <= |paths| && Removable(fs, root, paths, recursive)
    ensures Removable(fs, root, paths[..i], recursive)
  {
    FewerSeparate(fs, root, paths, i);
  }

  /** A path rm can take without -r leads to no directory and costs no directory its entry. */
  lemma FlatLeaf(t: TidyTree, path: string)
    requires AllTidy(Split(path)) && Target(t.fs, t.root, path, false)
    ensures !Remove.LeadsToDir(t.fs, t.root, path) && NoDirEntries(t.fs, RemovedBy(t.fs, t.root, path))
  {
    CompsTidy(path);
    LeafIsTarget(t.fs, t.roots, t.root, path);
    assert RemovedBy(t.fs, t.root, path) == {LeafLink(t.fs, t.root, path)};
  }

  ghost predicate NoDirEntries(fs: FS, c: set<Link>) {
    forall l | l in c :: l in Links(fs) && (l.ino in fs ==> !fs[l.ino].IsDir())
  }

  /** Without -r no path leads to a directory, and no directory goes. */
  lemma FlatSparesDirs(t: TidyTree, paths: seq<string>, recursive: bool)
    requires TidyPaths(paths)
    ensures !recursive && AllTargets(t.fs, t.root, paths, recursive) ==>
              (forall p | p in paths :: !Remove.LeadsToDir(t.fs, t.root, p))
              && Remove.DirsStay(t.fs, Cut(t.fs, AllRemoved(t.fs, t.root, paths)))
  {
    if !recursive && AllTargets(t.fs, t.root, paths, recursive) {
      forall i | 0 <= i < |paths|
        ensures !Remove.LeadsToDir(t.fs, t.root, paths[i]) && NoDirEntries(t.fs, RemovedBy(t.fs, t.root, paths[i]))
      {
        assert paths[i] in paths && Target(t.fs, t.root, paths[i], recursive);
        FlatLeaf(t, paths[i]);
      }
      assert NoDirEntries(t.fs, AllRemoved(t.fs, t.root, paths));
      Remove.CutSparesDirs(t.fs, AllRemoved(t.fs, t.root, paths));
    }
  }

  /** Rm in a transaction of its own. On tidy paths it succeeds iff every path leads to
      something (a directory only under -r) and names an entry, and no two of all the entries
      to be removed share a directory or name one inode; then exactly these entries are gone
      from the committed rows, and otherwise nothing is. */
  method Rm(repo: EntRepository, rootID: Id, paths: seq<string>, recursive: bool, ghost t: TidyTree)
      returns (r: Result<()>)
    requires repo.Valid() && repo.HasCut() && repo.Unlinks() == {} && OnRows(t, repo, rootID) && TidyPaths(paths)
    modifies repo
    ensures repo.Valid() && repo.HasCut() && repo.Unlinks() == {}
    ensures r.Ok? <==> Removable(t.fs, t.root, paths, recursive)
    ensures Rows(repo.client) == if r.Ok? then Cut(t.fs, AllRemoved(t.fs, t.root, paths)) else t.fs
    ensures r.Ok? && !recursive ==>
              (forall p | p in paths :: !Remove.LeadsToDir(t.fs, t.root, p))
              && Remove.DirsStay(t.fs, Rows(repo.client))
  {
    FlatSparesDirs(t, paths, recursive);
    r := RmPaths(repo, rootID, paths, recursive, t);
    if r.Ok? { repo.Commit(); } else { repo.Rollback(); }
  }

  /** The callback of Rm. */
  method RmPaths(repo: EntRepository, rootID: Id, paths: seq<string>, recursive: bool, ghost t: TidyTree)
      returns (r: Result<()>)
    requires repo.Valid() && repo.HasCut() && repo.Unlinks() == {} && OnRows(t, repo, rootID) && TidyPaths(paths)
    modifies repo`tx, repo`issued, repo`unlinked
    ensures repo.Valid() && OnRows(t, repo, rootID) && (r.Ok? <==> Removable(t.fs, t.root, paths, recursive))
    ensures r.Ok? ==> Rows(repo.tx) == Cut(t.fs, AllRemoved(t.fs, t.root, paths))
  {
    Underway0(t.fs, t.root, paths, recursive);
    for i := 0 to |paths|
      invariant repo.Valid() && repo.HasCut() && OnRows(t, repo, rootID)
      invariant Underway(t.fs, t.root, paths, recursive, i, repo.Unlinks())
    {
      UnderwayNext(t.fs, t.root, paths, recursive, i, repo.Unlinks());
      assert paths[i] in paths;
      r := RmPath(repo, rootID, paths[i], recursive, t);
      if r.Err? { return; }
    }
    assert paths[..|paths|] == paths;
    return Ok(());
  }

  /** The first i paths could be removed, and have been. */
  ghost predicate Underway(fs: FS, root: Id, paths: seq<string>, recursive: bool, i: nat, cut: set<Link>) {
    i <= |paths| && cut == AllRemoved(fs, root, paths[..i]) && Removable(fs, root, paths[..i], recursive)
  }

  lemma Underway0(fs: FS, root: Id, paths: seq<string>, recursive: bool)
    ensures Underway(fs, root, paths, recursive, 0, {})
  {
    assert paths[..0] == [];
  }

  lemma UnderwayNext(fs: FS, root: Id, paths: seq<string>, recursive: bool, i: nat, cut: set<Link>)
    requires i < |paths| && Underway(fs, root, paths, recursive, i, cut)
    ensures var s := RemovedBy(fs, root, paths[i]);
            if Target(fs, root, paths[i], recursive) && Fits(cut, s)
            then Underway(fs, root, paths, recursive, i + 1, cut + s) else !Removable(fs, root, paths, recursive)
  {
    OneMoreRemovable(fs, root, paths, recursive, i);
    if Removable(fs, root, paths, recursive) { FewerRemovable(fs, root, paths, recursive, i + 1); }
  }

  // ---------------------------------------------------------------- against reads of its own writes

  // Plain paths are those without symlinks on the way.

  /** The arguments of an rm of plain paths. */
  ghost predicate PlainPaths(t: TidyTree, paths: seq<string>) {
    TidyPaths(paths) && forall p | p in paths :: Remove.PlainTarget(t.fs, t.root, p, true)
  }

  lemma PlainPlanted(t: TidyTree, path: string) returns (n: Id)
    requires AllTidy(Split(path)) && Remove.PlainTarget(t.fs, t.root, path, true)
    ensures Planted(t, path, n) && ResolvePath(t.fs, t.root, path, true) == Ok(Found(n, Comps(path), []))
    ensures HasLeaf(t.fs, t.root, path) && RemovedLinks(t.fs, t.root, path) == TreeLinks(t.fs, t.root, Comps(path))
  {
    n := At(t.fs, t.root, Comps(path)).value;
    Remove.PlainResolves(t.fs, t.root, path, true);
    PlantedParent(t, path, n);
    if !t.fs[n].IsDir() { LeafTree(t.fs, t.root, Comps(path), n); }
  }

  /** When it goes through, committed reads make no difference: the result is that of
      removing path after path, each on what the ones before it left. */
  lemma RmAllAtOnce(t: TidyTree, paths: seq<string>)
    requires PlainPaths(t, paths) && AllSeparate(t.fs, t.root, paths)
    ensures RmAll(t.fs, t.root, paths) == Cut(t.fs, AllRemoved(t.fs, t.root, paths))
  {
    AtOnceStarts(t, paths);
    for i := 0 to |paths|
      invariant AtOnce(t, paths, i)
    {
      AtOnceNext(t, paths, i);
    }
    assert paths[..|paths|] == paths && paths[|paths|..] == [];
  }

  /** The first i paths together, and then the others in turn. */
  ghost predicate AtOnce(t: TidyTree, paths: seq<string>, i: nat) {
    i <= |paths|
    && var c := AllRemoved(t.fs, t.root, paths[..i]);
       c <= Links(t.fs) && DirClosed(t.fs, c) && RmAll(t.fs, t.root, paths) == RmAll(Cut(t.fs, c), t.root, paths[i..])
  }

  lemma AtOnceStarts(t: TidyTree, paths: seq<string>)
    ensures AtOnce(t, paths, 0)
  {
    assert AllRemoved(t.fs, t.root, paths[..0]) == {} && paths[0..] == paths;
    CutNothing(t.fs);
  }

  lemma AtOnceNext(t: TidyTree, paths: seq<string>, i: nat)
    requires i < |paths| && AtOnce(t, paths, i) && PlainPaths(t, paths) && AllSeparate(t.fs, t.root, paths)
    ensures AtOnce(t, paths, i + 1)
  {
    assert paths[i] in paths;
    PathFits(t.fs, t.root, paths, i);
    RemovedNext(t, AllRemoved(t.fs, t.root, paths[..i]), paths[i]);
    RmAllStep(Cut(t.fs, AllRemoved(t.fs, t.root, paths[..i])), t.root, paths, i);
  }

  lemma RmAllStep(fs: FS, root: Id, paths: seq<string>, i: nat)
    requires i < |paths| && HasLeaf(fs, root, paths[i])
    ensures RmAll(fs, root, paths[i..]) == RmAll(Cut(fs, RemovedLinks(fs, root, paths[i])), root, paths[i + 1..])
  {
    assert paths[i..][0] == paths[i] && paths[i..][1..] == paths[i + 1..];
  }

  lemma PathFits(fs: FS, root: Id, paths: seq<string>, i: nat)
    requires i < |paths| && AllSeparate(fs, root, paths)
    ensures AllRemoved(fs, root, paths[..i + 1]) == AllRemoved(fs, root, paths[..i]) + RemovedBy(fs, root, paths[i])
    ensures NoClash(AllRemoved(fs, root, paths[..i]), RemovedBy(fs, root, paths[i]))
  {
    FewerSeparate(fs, root, paths, i + 1);
    OnePathMore(fs, root, paths, i);
  }

  /** A path whose entries are apart from those already cut removes the same entries after
      the cut. */
  lemma RemovedNext(t: TidyTree, c: set<Link>, path: string)
    requires AllTidy(Split(path)) && Remove.PlainTarget(t.fs, t.root, path, true)
    requires c <= Links(t.fs) && DirClosed(t.fs, c) && NoClash(c, RemovedBy(t.fs, t.root, path))
    ensures var s, gs := RemovedBy(t.fs, t.root, path), Cut(t.fs, c);
            c + s <= Links(t.fs) && DirClosed(t.fs, c + s)
            && HasLeaf(gs, t.root, path) && Cut(gs, RemovedLinks(gs, t.root, path)) == Cut(t.fs, c + s)
  {
    var n := PlainPlanted(t, path);
    TreeLinksClosed(t.fs, t.root, Comps(path), n);
    var u := CutTree(t, c);
    PlaceKept(t, Comps(path), n, c);
    var m := PlainPlanted(u, path);
    SubLinksKept(t, Comps(path), n, c);
    SameTreeLinks(t.fs, u.fs, t.root, Comps(path));
    CutCut(t.fs, t.roots, c, TreeLinks(t.fs, t.root, Comps(path)));
  }

  lemma CutTree(t: TidyTree, c: set<Link>) returns (u: TidyTree)
    requires c <= Links(t.fs)
    ensures u.fs == Cut(t.fs, c) && u.roots == t.roots && u.root == t.root && Within(u.fs, t.fs)
  {
    CutTreeOk(t.fs, t.roots, t.root, c);
    CutWithin(t.fs, c);
    TidyWithin(Cut(t.fs, c), t.fs);
    u := Store(Cut(t.fs, c), t.roots, t.root);
  }

  lemma TreeLinksClosed(fs: FS, root: Id, q: seq<string>, n: Id)
    requires q != [] && At(fs, root, q) == Some(n) && n in fs
    ensures TreeLinks(fs, root, q) <= Links(fs) && DirClosed(fs, TreeLinks(fs, root, q))
  {
    var s := TreeLinks(fs, root, q);
    forall k, l | k in s && l in Links(fs) && k.ino == l.dir ensures l in s {
      GoneBelow(fs, root, q, LastLink(fs, root, q), k, l);
    }
  }

  /** The way to an entry that is not cut is intact. */
  lemma {:induction false} UncutAvoids(fs: FS, root: Id, q: seq<string>, c: set<Link>)
    requires At(fs, root, q).Some? && DirClosed(fs, c) && (q != [] ==> LastLink(fs, root, q) !in c)
    ensures Avoids(fs, root, q, c)
    decreases |q|
  {
    if q != [] {
      var up, l := q[..|q| - 1], LastLink(fs, root, q);
      if up != [] && LastLink(fs, root, up) in c { assert false; }
      UncutAvoids(fs, root, up, c);
    }
  }

  lemma PlaceKept(t: TidyTree, q: seq<string>, n: Id, c: set<Link>)
    requires q != [] && At(t.fs, t.root, q) == Some(n) && n in t.fs
    requires c <= Links(t.fs) && DirClosed(t.fs, c) && Clear(c, LastLink(t.fs, t.root, q))
    ensures var gs := Cut(t.fs, c);
            At(gs, t.root, q) == Some(n) && At(gs, t.root, q[..|q| - 1]) == Some(LastLink(t.fs, t.root, q).dir)
            && n in gs && gs[n].Kind() == t.fs[n].Kind()
  {
    UncutAvoids(t.fs, t.root, q, c);
    CutAt(t.fs, t.roots, t.root, c, q);
    CutAt(t.fs, t.roots, t.root, c, q[..|q| - 1]);
    NotCut(t.fs, c, n);
  }

  lemma NotCut(fs: FS, c: set<Link>, x: Id)
    requires x in fs && forall k | k in c :: k.ino != x
    ensures x in Cut(fs, c) && Cut(fs, c)[x].Kind() == fs[x].Kind()
  {
    assert To(c, x) == {};
  }

  /** The same place with the same entries below. */
  lemma SameTreeLinks(fs: FS, gs: FS, root: Id, q: seq<string>)
    requires q != [] && At(fs, root, q).Some? && At(gs, root, q) == At(fs, root, q)
    requires At(gs, root, q[..|q| - 1]) == At(fs, root, q[..|q| - 1]) && SubLinks(gs, root, q) == SubLinks(fs, root, q)
    ensures TreeLinks(gs, root, q) == TreeLinks(fs, root, q) <= Links(gs)
  {
  }

  /** The tree at a plain path is as it was when none of its entries is cut. */
  lemma SubLinksKept(t: TidyTree, q: seq<string>, n: Id, c: set<Link>)
    requires q != [] && At(t.fs, t.root, q) == Some(n) && n in t.fs
    requires c <= Links(t.fs) && DirClosed(t.fs, c) && NoClash(c, TreeLinks(t.fs, t.root, q))
    ensures SubLinks(Cut(t.fs, c), t.root, q) == SubLinks(t.fs, t.root, q)
  {
    forall l | l in SubLinks(Cut(t.fs, c), t.root, q) ensures l in SubLinks(t.fs, t.root, q) {
      BelowBefore(t.fs, t.root, q, l, c);
    }
    forall l | l in SubLinks(t.fs, t.root, q) ensures l in SubLinks(Cut(t.fs, c), t.root, q) {
      BelowKept(t, q, n, l, c);
    }
  }

  lemma BelowBefore(fs: FS, root: Id, q: seq<string>, l: Link, c: set<Link>)
    requires c <= Links(fs) && l in SubLinks(Cut(fs, c), root, q)
    ensures l in SubLinks(fs, root, q)
  {
    CutWithin(fs, c);
    var r :| q <= r && At(Cut(fs, c), root, r) == Some(l.dir);
    AtWithin(Cut(fs, c), fs, root, r);
    CutLinks(fs, c, l);
  }

  lemma BelowKept(t: TidyTree, q: seq<string>, n: Id, l: Link, c: set<Link>)
    requires q != [] && At(t.fs, t.root, q) == Some(n) && n in t.fs && l in SubLinks(t.fs, t.root, q)
    requires c <= Links(t.fs) && DirClosed(t.fs, c) && NoClash(c, TreeLinks(t.fs, t.root, q))
    ensures l in SubLinks(Cut(t.fs, c), t.root, q)
  {
    var r :| q <= r && At(t.fs, t.root, r) == Some(l.dir);
    if r != q { LastUnder(t.fs, t.root, q, r); }
    assert LastLink(t.fs, t.root, r) in TreeLinks(t.fs, t.root, q) && l in TreeLinks(t.fs, t.root, q);
    UncutAvoids(t.fs, t.root, r, c);
    CutAt(t.fs, t.roots, t.root, c, r);
    assert HasLink(t.fs, l);
    NoneTo(c, t.fs, l);
    CutLinks(t.fs, c, l);
    assert Under(Cut(t.fs, c), t.root, q, l.dir);
  }

  lemma NoneTo(c: set<Link>, fs: FS, l: Link)
    requires DirClosed(fs, c) && l in Links(fs) && l !in c
    ensures To(c, l.dir) == {}
  {
    if k :| k in To(c, l.dir) { assert k in c && k.ino == l.dir; }
  }
}

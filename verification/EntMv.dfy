/** internal/vfs/mv.go and MoveEntry on the repository of internal/core/node/ent.go: reads see
    the committed rows, but the directories of one mv are shared handles, whose revisions
    follow their own writes. */
module EntMove {
  import opened Paths
  import opened Inodes
  import opened Graph
  import opened Moves
  import opened Walk
  import opened NodeOps
  import opened Batch
  import opened EntRepo
  import opened Move
  import MoveFacts
  import Removal

  // ---------------------------------------------------------------- handles

  /** A save through the handle is not refused. */
  ghost predicate Savable(repo: EntRepository, h: Node)
    reads repo, h
  {
    h.id !in repo.tx || repo.tx[h.id].rev == h.staleRev
  }

  /** The transaction is the tree's store, and each cached handle holds the row the tree
      holds; directories can be saved. */
  ghost predicate Sync(repo: EntRepository, cache: map<Id, Node>, t: Tree)
    reads repo, cache.Values
  {
    Rows(repo.tx) == t.fs
    && forall id | id in cache ::
         cache[id].id == id && id in t.held && t.held[id] == cache[id].inode
         && (cache[id].inode.IsDir() ==> Savable(repo, cache[id]))
  }

  /** Nothing has been written yet. */
  ghost predicate Still(repo: EntRepository, t: Tree)
    reads repo
  {
    repo.tx == repo.client && t == Tree(Rows(repo.client), Rows(repo.client))
  }

  // ---------------------------------------------------------------- MoveEntry

  /** WriteDir and Save. */
  method SaveListing(repo: EntRepository, h: Node, es: seq<Entry>) returns (r: Result<()>)
    requires repo.Valid() && Savable(repo, h)
    modifies repo`tx, repo`issued, h
    ensures repo.Valid() && r == Ok(()) && Savable(repo, h)
    ensures h.inode == old(h.inode).(content := Dir(es)) && repo.tx == old(repo.tx)[h.id := Row(h.rev, h.inode)]
    ensures Rows(repo.tx) == Rows(old(repo.tx))[h.id := h.inode]
  {
    repo.Change(h, h.inode.(content := Dir(es)));
    r := repo.Save(h);
  }

  /** Both directories, saved. */
  method WriteListings(repo: EntRepository, src: Node, sn: string, dst: Node, dn: string, ghost w: FS)
      returns (r: Result<()>)
    requires repo.Valid() && Savable(repo, src) && Savable(repo, dst) && (src.id == dst.id ==> src == dst)
    requires Movable(View(Rows(repo.tx), src.id, src.inode, dst.id, dst.inode), src.id, sn, dst.id, dn)
    requires w == MoveListings(View(Rows(repo.tx), src.id, src.inode, dst.id, dst.inode), src.id, sn, dst.id, dn)
    modifies repo`tx, repo`issued, src, dst
    ensures repo.Valid() && r == Ok(()) && Savable(repo, src) && Savable(repo, dst)
    ensures Rows(repo.tx) == w && src.id in w && src.inode == w[src.id] && dst.id in w && dst.inode == w[dst.id]
    ensures OnlyEnds(old(repo.tx), repo.tx, src.id, dst.id)
  {
    ListingsSaved(Rows(repo.tx), src.id, src.inode, sn, dst.id, dst.inode, dn);
    var es := src.inode.content.entries;
    var moved := Find(es, sn).value.(name := dn);
    if src.id == dst.id {
      r := SaveListing(repo, src, RenamedListing(es, sn, moved));
    } else {
      r := SaveListing(repo, src, Keep(es, {sn}));
      r := SaveListing(repo, dst, [moved]);
    }
  }

  /** No row but those two has changed. */
  ghost predicate OnlyEnds(before: map<Id, Row>, after: map<Id, Row>, sp: Id, dp: Id) {
    forall id | id != sp && id != dp :: (id in before <==> id in after) && (id in after ==> after[id] == before[id])
  }

  /** The overwritten inode, as committed, loses its link. */
  method ReleaseLink(repo: EntRepository, x: Id) returns (r: Result<()>)
    requires repo.Valid() && x in repo.client && x in repo.tx
    requires repo.client[x].inode.nlink > 1 ==> repo.tx[x] == repo.client[x]
    requires repo.tx[x].inode.nlink == repo.client[x].inode.nlink
    modifies repo`tx, repo`issued
    ensures repo.Valid() && r == Ok(()) && Rows(repo.tx) == Release(Rows(old(repo.tx)), x)
    ensures forall id | id in repo.tx && id != x :: id in old(repo.tx) && repo.tx[id] == old(repo.tx[id])
    ensures forall id | id in old(repo.tx) && id != x :: id in repo.tx
    ensures x in repo.tx ==> repo.client[x].inode.nlink > 1
  {
    var overwrite := repo.Get(x);
    var o := overwrite.value;
    if o.inode.nlink <= 1 {
      r := repo.Delete(x);
    } else {
      repo.Change(o, o.inode.(nlink := o.inode.nlink - 1));
      r := repo.Save(o);
    }
  }

  /** The entry a move overwrites, if any, names an inode that the transaction has not
      written; a directory among them has one link. */
  ghost predicate OverFresh(repo: EntRepository, src: Node, dst: Node, dn: string)
    requires dst.inode.IsDir()
    reads repo, src, dst
  {
    var over := Find(dst.inode.content.entries, dn);
    over.Some? ==>
      var x := over.value.ino;
      x in repo.client && x in repo.tx && repo.tx[x] == repo.client[x]
      && (src.inode.IsDir() && repo.client[x].inode.nlink > 1 ==> x != src.id && x != dst.id)
      && (x == src.id ==> repo.client[x].inode == src.inode) && (x == dst.id ==> repo.client[x].inode == dst.inode)
  }

  /** MoveEntry through handles that can be saved: exactly its refusals and its effect on a
      repository that sees its own writes. */
  method MoveEntry(repo: EntRepository, src: Node, sn: string, dst: Node, dn: string) returns (r: Result<()>)
    requires repo.Valid() && (src.inode.IsDir() ==> Savable(repo, src)) && Savable(repo, dst)
    requires src.id == dst.id ==> src == dst
    requires dst.inode.IsDir() && IsName(dn) && OverFresh(repo, src, dst, dn)
    modifies repo`tx, repo`issued, src, dst
    ensures repo.Valid()
    ensures var e := MoveError(src.id, old(src.inode), sn, dst.id, old(dst.inode), dn);
            r == if e.Some? then Err(e.value) else Ok(())
    ensures r.Err? ==> repo.tx == old(repo.tx) && src.inode == old(src.inode) && dst.inode == old(dst.inode)
    ensures r.Ok? ==> Relocated(Rows(old(repo.tx)), Rows(repo.tx), src.id, old(src.inode), sn,
                                dst.id, old(dst.inode), dn, src.inode, dst.inode)
    ensures r.Ok? ==> Savable(repo, src) && Savable(repo, dst)
    ensures r.Ok? && AlreadyThere(src.id, old(src.inode), sn, dst.id, old(dst.inode), dn) ==> repo.tx == old(repo.tx)
    ensures r.Ok? ==> OthersKept(old(repo.tx), repo.tx, repo.client, src.id, dst.id,
                                 Find(old(dst.inode).content.entries, dn))
    ensures Mismatched(old(src.inode), sn, old(dst.inode), dn) ==> r == Err(TypeMismatch)
  {
    var srcDC := ReadDir(src.inode);
    if srcDC.Err? { return Err(srcDC.error); }
    var e := Find(srcDC.value, sn);
    if e.None? { return Err(NotFound); }
    if src.id == dst.id && sn == dn { return Ok(()); }
    var over := Find(dst.inode.content.entries, dn);
    if over.Some? && over.value.ino == e.value.ino { return Ok(()); }
    if over.Some? && over.value.kind != e.value.kind { return Err(TypeMismatch); }
    ghost var v := View(Rows(repo.tx), src.id, src.inode, dst.id, dst.inode);
    r := WriteListings(repo, src, sn, dst, dn, MoveListings(v, src.id, sn, dst.id, dn));
    if over.Some? { r := ReleaseLink(repo, over.value.ino); }
  }

  /** Rows of the transaction other than those of the move are as they were; the overwritten
      one stays only if it had another link. */
  ghost predicate OthersKept(before: map<Id, Row>, after: map<Id, Row>, client: map<Id, Row>, sp: Id, dp: Id,
                             over: Option<Entry>) {
    (forall id | id in after && id != sp && id != dp && !(over.Some? && over.value.ino == id) ::
       id in before && after[id] == before[id])
    && (over.Some? ==>
          var x := over.value.ino;
          x in after && x != sp && x != dp ==>
            x in client && (after[x] == client[x] || client[x].inode.nlink > 1))
  }

  // ---------------------------------------------------------------- one move of an mv

  method CaptureOverwriteRef(repo: EntRepository, dst: Node, dn: string) returns (r: Option<Ref>)
    requires dst.inode.IsDir()
    ensures var e := Find(dst.inode.content.entries, dn);
            (if r.Some? then [r.value] else []) ==
            if e.Some? && e.value.ino in repo.client then Removal.RefsOf(repo.client[e.value.ino].inode) else []
  {
    var existing := Find(dst.inode.content.entries, dn);
    if existing.None? { return None; }
    var child := repo.Get(existing.value.ino);
    if child.Err? || !child.value.inode.content.Object? { return None; }
    var oc := child.value.inode.content.obj;
    if oc.bucket == "" || oc.key == "" { return None; }
    return Some(oc);
  }

  /** Either nothing has been written, or the destination does not list the name. */
  ghost predicate Free(repo: EntRepository, roots: map<DriveId, Id>, t: Tree, dp: Id, dn: string)
    requires dp in t.held && t.held[dp].IsDir()
    reads repo
  {
    (Still(repo, t) && StoreOk(Rows(repo.client), roots)) || Find(t.held[dp].content.entries, dn).None?
  }

  /** The handles are of the cache, and the tree has what a move needs. */
  ghost predicate Held(cache: map<Id, Node>, t: Tree, src: Node, dst: Node)
  {
    src.id in cache && cache[src.id] == src && dst.id in cache && cache[dst.id] == dst && Ready(t, src.id, dst.id)
  }

  /** What a move overwrites is as committed, and a directory among it has one link. */
  lemma FreeIsFresh(repo: EntRepository, roots: map<DriveId, Id>, cache: map<Id, Node>, t: Tree, src: Node, dst: Node,
                    dn: string)
    requires Sync(repo, cache, t) && Held(cache, t, src, dst) && Free(repo, roots, t, dst.id, dn)
    ensures OverFresh(repo, src, dst, dn)
    ensures var over := Find(dst.inode.content.entries, dn);
            Captured(t, dst.id, dn) ==
            if over.Some? && over.value.ino in repo.client
            then Removal.RefsOf(repo.client[over.value.ino].inode) else []
    ensures Find(dst.inode.content.entries, dn).Some? ==> CommittedLink(repo, roots, t, dst.id, dn)
  {
    var over := Find(dst.inode.content.entries, dn);
    if over.Some? {
      var l := Link(dst.id, dn, over.value.ino);
      assert HasLink(Rows(repo.client), l);
      LinkRows(repo.client, l);
      EntRepo.SharedIsNoDir(Rows(repo.client), roots, l);
    }
  }

  ghost predicate CommittedLink(repo: EntRepository, roots: map<DriveId, Id>, t: Tree, dp: Id, dn: string)
    requires dp in t.held && t.held[dp].IsDir()
    reads repo
  {
    Still(repo, t) && StoreOk(Rows(repo.client), roots)
  }

  /** The rows of directories other than both ends keep their revisions. */
  lemma OthersSavable(client: map<Id, Row>, before: map<Id, Row>, after: map<Id, Row>, roots: map<DriveId, Id>,
                      held: FS, sp: Id, dp: Id, dn: string)
    requires dp in held && held[dp].IsDir()
    requires var over := Find(held[dp].content.entries, dn);
             OthersKept(before, after, client, sp, dp, over)
             && (over.Some? ==> before == client && held == Rows(client) && StoreOk(held, roots))
    ensures forall id | id in after && id != sp && id != dp && id in held && held[id].IsDir() ::
              id in before && after[id].rev == before[id].rev
  {
    var over := Find(held[dp].content.entries, dn);
    if over.Some? {
      var l := Link(dp, dn, over.value.ino);
      assert HasLink(held, l);
      LinkTarget(held, l);
      EntRepo.SharedIsNoDir(held, roots, l);
    }
  }

  function WithBoth(held: FS, sp: Id, src: Inode, dp: Id, dst: Inode): FS { held[sp := src][dp := dst] }

  /** The entry is where it shall be. */
  ghost predicate Stays(t: Tree, sp: Id, sn: string, dp: Id, dn: string)
    requires Ready(t, sp, dp) && MoveError(sp, t.held[sp], sn, dp, t.held[dp], dn).None?
  {
    AlreadyThere(sp, t.held[sp], sn, dp, t.held[dp], dn)
  }

  /** A step in terms of what MoveEntry promises. */
  lemma StepRelocates(t: Tree, gs: FS, sp: Id, sn: string, dp: Id, dn: string, src: Inode, dst: Inode)
    requires Ready(t, sp, dp) && IsName(dn) && MoveError(sp, t.held[sp], sn, dp, t.held[dp], dn).None?
    requires Relocated(t.fs, gs, sp, t.held[sp], sn, dp, t.held[dp], dn, src, dst)
    ensures Step(t, sp, sn, dp, dn) == Ok(Tree(gs, WithBoth(t.held, sp, src, dp, dst))) && (sp == dp ==> src == dst)
  {
    if AlreadyThere(sp, t.held[sp], sn, dp, t.held[dp], dn) {
      assert t.held == t.held[sp := src][dp := dst];
    }
  }

  /** The handle as it was before the move. */
  ghost predicate AsHeld(held: FS, before: map<Id, Row>, id: Id, h: Node)
    reads h
  {
    h.id == id && id in held && held[id] == h.inode
    && (h.inode.IsDir() && id in before ==> before[id].rev == h.staleRev)
  }

  lemma SyncAfter(repo: EntRepository, before: map<Id, Row>, cache: map<Id, Node>, t: Tree, sp: Id, dp: Id)
    requires sp in cache && cache[sp].id == sp && dp in cache && cache[dp].id == dp
    requires forall id | id in cache && id != sp && id != dp :: AsHeld(t.held, before, id, cache[id])
    requires Savable(repo, cache[sp]) && Savable(repo, cache[dp])
    requires forall id | id in repo.tx && id != sp && id != dp && id in t.held && t.held[id].IsDir() ::
               id in before && repo.tx[id].rev == before[id].rev
    ensures Sync(repo, cache, Tree(Rows(repo.tx), WithBoth(t.held, sp, cache[sp].inode, dp, cache[dp].inode)))
  {
  }

  /** The handles of the cache after a MoveEntry that went through. */
  lemma MovedSync(repo: EntRepository, before: map<Id, Row>, roots: map<DriveId, Id>, cache: map<Id, Node>, t: Tree,
                  sp: Id, sn: string, dp: Id, dn: string)
    requires sp in cache && cache[sp].id == sp && dp in cache && cache[dp].id == dp && Ready(t, sp, dp) && IsName(dn)
    requires forall id | id in cache && id != sp && id != dp :: AsHeld(t.held, before, id, cache[id])
    requires Savable(repo, cache[sp]) && Savable(repo, cache[dp])
    requires MoveError(sp, t.held[sp], sn, dp, t.held[dp], dn).None?
    requires Relocated(t.fs, Rows(repo.tx), sp, t.held[sp], sn, dp, t.held[dp], dn, cache[sp].inode, cache[dp].inode)
    requires OthersKept(before, repo.tx, repo.client, sp, dp, Find(t.held[dp].content.entries, dn))
    requires Find(t.held[dp].content.entries, dn).Some? ==>
               before == repo.client && t.held == Rows(repo.client) && StoreOk(t.held, roots)
    ensures Step(t, sp, sn, dp, dn).Ok? && Sync(repo, cache, Step(t, sp, sn, dp, dn).value)
  {
    StepRelocates(t, Rows(repo.tx), sp, sn, dp, dn, cache[sp].inode, cache[dp].inode);
    OthersSavable(repo.client, before, repo.tx, roots, t.held, sp, dp, dn);
    SyncAfter(repo, before, cache, t, sp, dp);
  }

  /** MoveEntry through the handles of one cache. */
  method MoveCached(repo: EntRepository, src: Node, sn: string, dst: Node, dn: string,
                    ghost roots: map<DriveId, Id>, ghost cache: map<Id, Node>, ghost t: Tree)
      returns (r: Result<()>)
    requires repo.Valid() && Sync(repo, cache, t) && Held(cache, t, src, dst) && IsName(dn)
    requires Free(repo, roots, t, dst.id, dn)
    modifies repo`tx, repo`issued, cache.Values
    ensures repo.Valid()
    ensures match Step(t, src.id, sn, dst.id, dn)
            case Err(e) => r == Err(e)
            case Ok(u) =>
              r == Ok(()) && Sync(repo, cache, u)
              && (Stays(t, src.id, sn, dst.id, dn) ==> repo.tx == old(repo.tx))
  {
    FreeIsFresh(repo, roots, cache, t, src, dst, dn);
    ghost var sp, dp, before := src.id, dst.id, repo.tx;
    assert forall id | id in cache && id != sp && id != dp ::
        AsHeld(t.held, before, id, cache[id]) && cache[id] != src && cache[id] != dst;
    r := MoveEntry(repo, src, sn, dst, dn);
    if r.Ok? {
      MovedSync(repo, before, roots, cache, t, sp, sn, dp, dn);
    }
  }

  /** One move through the handles of one cache. */
  method ApplyMoveEntry(repo: EntRepository, src: Node, sn: string, dst: Node, dn: string,
                        ghost roots: map<DriveId, Id>, ghost cache: map<Id, Node>, ghost t: Tree)
      returns (r: Result<seq<Ref>>)
    requires repo.Valid() && Sync(repo, cache, t) && Held(cache, t, src, dst) && IsName(dn)
    requires Free(repo, roots, t, dst.id, dn)
    modifies repo`tx, repo`issued, cache.Values
    ensures repo.Valid()
    ensures match Step(t, src.id, sn, dst.id, dn)
            case Err(e) => r == Err(e)
            case Ok(u) =>
              r == Ok(Captured(t, dst.id, dn)) && Sync(repo, cache, u)
              && (Stays(t, src.id, sn, dst.id, dn) ==> repo.tx == old(repo.tx))
  {
    FreeIsFresh(repo, roots, cache, t, src, dst, dn);
    var overwriteRef := CaptureOverwriteRef(repo, dst, dn);
    var moved := MoveCached(repo, src, sn, dst, dn, roots, cache, t);
    if moved.Err? { return Err(moved.error); }
    if overwriteRef.Some? { return Ok([overwriteRef.value]); }
    return Ok([]);
  }

  // ---------------------------------------------------------------- the handles of one mv

  /** The handles are as they were read, one for an id. */
  ghost predicate Loaded(repo: EntRepository, cache: map<Id, Node>)
    reads repo, cache.Values
  {
    forall id | id in cache :: cache[id].id == id && AsRead(repo, cache[id])
  }

  ghost predicate AsRead(repo: EntRepository, n: Node)
    reads repo, n
  {
    n.id in repo.client && n.inode == repo.client[n.id].inode && n.rev == n.staleRev == repo.client[n.id].rev
  }

  /** resolver.loadByID: an id is read once. */
  method LoadByID(repo: EntRepository, cache: map<Id, Node>, id: Id) returns (more: map<Id, Node>)
    requires id in repo.client && Loaded(repo, cache)
    ensures Loaded(repo, more) && more.Keys == cache.Keys + {id} && fresh(more.Values - cache.Values)
  {
    if id in cache { return cache; }
    var n := repo.Get(id);
    return cache[id := n.value];
  }

  method LoadSources(repo: EntRepository, srcs: seq<Source>, dp: Id) returns (cache: map<Id, Node>)
    requires dp in repo.client && forall k | k in srcs :: k.dir in repo.client
    ensures Loaded(repo, cache) && fresh(cache.Values) && dp in cache && forall k | k in srcs :: k.dir in cache
  {
    cache := LoadByID(repo, map[], dp);
    for i := 0 to |srcs|
      invariant Loaded(repo, cache) && fresh(cache.Values) && dp in cache
      invariant forall k | k in srcs[..i] :: k.dir in cache
    {
      cache := LoadByID(repo, cache, srcs[i].dir);
    }
    assert srcs[..|srcs|] == srcs;
  }

  ghost function Committed(repo: EntRepository): Tree
    reads repo
  {
    Tree(Rows(repo.client), Rows(repo.client))
  }

  lemma SyncStarts(repo: EntRepository, cache: map<Id, Node>)
    requires repo.tx == repo.client && Loaded(repo, cache)
    ensures Sync(repo, cache, Committed(repo)) && Still(repo, Committed(repo))
  {
  }

  // ---------------------------------------------------------------- several sources

  /** Nothing has been written, or the destination lists none of the names to come. */
  ghost predicate Ahead(repo: EntRepository, roots: map<DriveId, Id>, t: Tree, dp: Id, srcs: seq<Source>)
    reads repo
  {
    dp in t.held && t.held[dp].IsDir()
    && ((Still(repo, t) && StoreOk(Rows(repo.client), roots))
        || forall k | k in srcs :: Find(t.held[dp].content.entries, k.name).None?)
  }

  /** A move leaves the destination with the moved entry alone. */
  lemma MoveLeavesOne(t: Tree, s: Source, dp: Id, m: string)
    requires Ready(t, s.dir, dp) && IsName(s.name) && Step(t, s.dir, s.name, dp, s.name).Ok?
    requires !Stays(t, s.dir, s.name, dp, s.name) && m != s.name
    ensures var u := Step(t, s.dir, s.name, dp, s.name).value; Find(u.held[dp].content.entries, m).None?
  {
  }

  lemma StaysPut(t: Tree, s: Source, dp: Id)
    requires Ready(t, s.dir, dp) && IsName(s.name) && Step(t, s.dir, s.name, dp, s.name).Ok?
    requires Stays(t, s.dir, s.name, dp, s.name)
    ensures Step(t, s.dir, s.name, dp, s.name).value == t
  {
  }

  ghost predicate Distinct(srcs: seq<Source>) {
    forall i, j | 0 <= i < j < |srcs| :: srcs[i].name != srcs[j].name
  }

  /** One turn of the loop over the sources. */
  method MoveSource(repo: EntRepository, cache: map<Id, Node>, srcs: seq<Source>, dp: Id,
                    ghost roots: map<DriveId, Id>, ghost t: Tree)
      returns (r: Result<seq<Ref>>)
    requires srcs != [] && Distinct(srcs) && repo.Valid() && Sync(repo, cache, t) && Ahead(repo, roots, t, dp, srcs)
    requires dp in cache && srcs[0].dir in cache && IsName(srcs[0].name)
    modifies repo`tx, repo`issued, cache.Values
    ensures repo.Valid()
    ensures match Step(t, srcs[0].dir, srcs[0].name, dp, srcs[0].name)
            case Err(e) => r == Err(e)
            case Ok(u) =>
              r == Ok(Captured(t, dp, srcs[0].name)) && Sync(repo, cache, u) && Ahead(repo, roots, u, dp, srcs[1..])
  {
    var s := srcs[0];
    r := ApplyMoveEntry(repo, cache[s.dir], s.name, cache[dp], s.name, roots, cache, t);
    if r.Ok? {
      if Stays(t, s.dir, s.name, dp, s.name) {
        StaysPut(t, s, dp);
      } else {
        forall k | k in srcs[1..]
          ensures Find(Step(t, s.dir, s.name, dp, s.name).value.held[dp].content.entries, k.name).None? {
          MoveLeavesOne(t, s, dp, k.name);
        }
      }
    }
  }

  /** The result is the specification's, and so are the rows when there is no error. */
  ghost predicate Ends(repo: EntRepository, spec: Result<(Tree, seq<Ref>)>, r: Result<seq<Ref>>)
    reads repo
  {
    match spec
    case Err(e) => r == Err(e)
    case Ok(x) => r == Ok(x.1) && Rows(repo.tx) == x.0.fs
  }

  /** The turn for the first of the sources that are left. */
  method NextSource(repo: EntRepository, cache: map<Id, Node>, srcs: seq<Source>, dp: Id, ghost roots: map<DriveId, Id>,
                    ghost owner: map<Id, DriveId>, ghost t: Tree, ghost refs: seq<Ref>,
                    ghost goal: Result<(Tree, seq<Ref>)>, ghost stop: Tree)
      returns (r: Result<seq<Ref>>, ghost u: Tree)
    requires srcs != [] && Going(repo, roots, owner, cache, srcs, dp, t, refs, goal, stop)
    modifies repo`tx, repo`issued, cache.Values
    ensures repo.Valid() && (r.Err? ==> goal == Err(r.error))
    ensures r.Ok? ==> Going(repo, roots, owner, cache, srcs[1..], dp, u, refs + r.value, goal, stop)
  {
    MoveFirst(cache.Keys, owner, srcs, dp, t, refs, goal, stop);
    r := MoveSource(repo, cache, srcs, dp, roots, t);
    u := t;
    if r.Ok? { u := Step(t, srcs[0].dir, srcs[0].name, dp, srcs[0].name).value; }
  }

  /** The loop over the sources, with these left to move. */
  ghost predicate Going(repo: EntRepository, roots: map<DriveId, Id>, owner: map<Id, DriveId>, cache: map<Id, Node>,
                        srcs: seq<Source>, dp: Id, t: Tree, refs: seq<Ref>, goal: Result<(Tree, seq<Ref>)>, stop: Tree)
    reads repo, cache.Values
  {
    repo.Valid() && Sync(repo, cache, t) && Ahead(repo, roots, t, dp, srcs)
    && ToMove(cache.Keys, owner, srcs, dp, t, refs, goal, stop)
  }

  ghost predicate ToMove(cached: set<Id>, owner: map<Id, DriveId>, srcs: seq<Source>, dp: Id, t: Tree, refs: seq<Ref>,
                         goal: Result<(Tree, seq<Ref>)>, stop: Tree) {
    Distinct(srcs) && dp in cached && (forall k | k in srcs :: k.dir in cached)
    && Remaining(t, srcs, dp, owner, refs, goal, stop)
  }

  lemma MoveFirst(cached: set<Id>, owner: map<Id, DriveId>, srcs: seq<Source>, dp: Id, t: Tree, refs: seq<Ref>,
                  goal: Result<(Tree, seq<Ref>)>, stop: Tree)
    requires srcs != [] && ToMove(cached, owner, srcs, dp, t, refs, goal, stop)
    ensures srcs[0].dir in cached && Ready(t, srcs[0].dir, dp) && IsName(srcs[0].name)
    ensures match Step(t, srcs[0].dir, srcs[0].name, dp, srcs[0].name)
            case Err(e) => goal == Err(e)
            case Ok(u) => ToMove(cached, owner, srcs[1..], dp, u, refs + Captured(t, dp, srcs[0].name), goal, stop)
  {
    RemainingNext(t, srcs, dp, owner, refs, goal, stop);
    assert srcs[0] in srcs && forall k | k in srcs[1..] :: k in srcs;
  }

  lemma GoingStarts(repo: EntRepository, roots: map<DriveId, Id>, owner: map<Id, DriveId>, cache: map<Id, Node>,
                    srcs: seq<Source>, dp: Id)
    requires repo.Valid() && repo.tx == repo.client && Loaded(repo, cache) && StoreOk(Rows(repo.client), roots)
    requires SourcesReady(Committed(repo), srcs, dp, owner) && Distinct(srcs)
    requires dp in cache && forall k | k in srcs :: k.dir in cache
    ensures (forall k | k in srcs :: Ready(Committed(repo), k.dir, dp) && IsName(k.name))
            && Going(repo, roots, owner, cache, srcs, dp, Committed(repo), [], Apply(Committed(repo), srcs, dp),
                     Tried(Committed(repo), srcs, dp))
  {
    SyncStarts(repo, cache);
    RemainingStarts(Committed(repo), srcs, dp, owner);
  }

  method MoveSources(repo: EntRepository, cache: map<Id, Node>, srcs: seq<Source>, dp: Id,
                     ghost roots: map<DriveId, Id>, ghost owner: map<Id, DriveId>,
                     ghost t0: Tree, ghost goal: Result<(Tree, seq<Ref>)>, ghost stop: Tree)
      returns (r: Result<seq<Ref>>)
    requires Going(repo, roots, owner, cache, srcs, dp, t0, [], goal, stop)
    modifies repo`tx, repo`issued, cache.Values
    ensures repo.Valid() && Ends(repo, goal, r)
  {
    var refs: seq<Ref> := [];
    ghost var t := t0;
    assert srcs[0..] == srcs;
    for i := 0 to |srcs|
      invariant Going(repo, roots, owner, cache, srcs[i..], dp, t, refs, goal, stop)
    {
      assert srcs[i..][1..] == srcs[i + 1..];
      var more;
      more, t := NextSource(repo, cache, srcs[i..], dp, roots, owner, t, refs, goal, stop);
      if more.Err? { return Err(more.error); }
      refs := refs + more.value;
    }
    assert srcs[|srcs|..] == [];
    RemainingEnds(t, dp, owner, refs, goal, stop);
    return Ok(refs);
  }

  method MvBatch(repo: EntRepository, rootID: Id, srcPaths: seq<string>, dstPath: string,
                 ghost roots: map<DriveId, Id>, ghost owner: map<Id, DriveId>, ghost d: DriveId)
      returns (r: Result<seq<Ref>>)
    requires repo.Valid() && repo.tx == repo.client && Inv(Rows(repo.client), roots, owner)
    requires d in roots && roots[d] == rootID
    modifies repo`tx, repo`issued
    ensures repo.Valid()
    ensures Ends(repo, MoveMany(Rows(repo.client), rootID, srcPaths, dstPath), r)
  {
    var dst := ResolvePath(Rows(repo.client), rootID, dstPath, true);
    if dst.Err? { return Err(dst.error); }
    var dp := dst.value.ino;
    if !(dp in repo.client && repo.client[dp].inode.IsDir()) { return Err(NotDirectory); }
    var srcs := Gather(Rows(repo.client), rootID, srcPaths, {});
    if srcs.Err? { return Err(srcs.error); }
    if exists s :: s in srcs.value && s.node == dp { return Err(IntoItself); }
    BatchReady(Rows(repo.client), roots, owner, d, srcPaths, dstPath);
    var cache := LoadSources(repo, srcs.value, dp);
    GoingStarts(repo, roots, owner, cache, srcs.value, dp);
    ghost var t := Committed(repo);
    r := MoveSources(repo, cache, srcs.value, dp, roots, owner, t, Apply(t, srcs.value, dp), Tried(t, srcs.value, dp));
  }

  // ---------------------------------------------------------------- one source, and Mv

  method LoadEnds(repo: EntRepository, sp: Id, dp: Id, ghost t: Tree) returns (cache: map<Id, Node>)
    requires repo.tx == repo.client && sp in repo.client && dp in repo.client && Still(repo, t)
    ensures fresh(cache.Values) && Sync(repo, cache, t)
    ensures sp in cache && cache[sp].id == sp && dp in cache && cache[dp].id == dp
  {
    cache := LoadByID(repo, map[], sp);
    cache := LoadByID(repo, cache, dp);
    SyncStarts(repo, cache);
  }

  /** The move that mvOne settles on. */
  method MovePlanned(repo: EntRepository, p: Plan, ghost roots: map<DriveId, Id>, ghost t: Tree)
      returns (r: Result<seq<Ref>>)
    requires repo.Valid() && Still(repo, t) && StoreOk(Rows(repo.client), roots)
    requires Ready(t, p.sp, p.dp) && IsName(p.dn)
    modifies repo`tx, repo`issued
    ensures repo.Valid()
    ensures match Step(t, p.sp, p.sn, p.dp, p.dn)
            case Err(e) => r == Err(e)
            case Ok(u) => r == Ok(Captured(t, p.dp, p.dn)) && Rows(repo.tx) == u.fs
  {
    var cache := LoadEnds(repo, p.sp, p.dp, t);
    r := ApplyMoveEntry(repo, cache[p.sp], p.sn, cache[p.dp], p.dn, roots, cache, t);
  }

  method MvOne(repo: EntRepository, rootID: Id, srcPath: string, dstPath: string, ghost roots: map<DriveId, Id>)
      returns (r: Result<seq<Ref>>)
    requires repo.Valid() && repo.tx == repo.client && StoreOk(Rows(repo.client), roots)
    modifies repo`tx, repo`issued
    ensures repo.Valid()
    ensures Ends(repo, MoveOne(Rows(repo.client), rootID, srcPath, dstPath), r)
  {
    var plan := MovePlan(Rows(repo.client), rootID, srcPath, dstPath);
    if plan.Err? { return Err(plan.error); }
    r := MovePlanned(repo, plan.value, roots, Committed(repo));
  }

  /** The callback of Mv. */
  method MvRows(repo: EntRepository, roots: map<DriveId, Id>, drive: DriveId, srcPaths: seq<string>, dstPath: string,
                ghost owner: map<Id, DriveId>)
      returns (r: Result<seq<Ref>>)
    requires repo.Valid() && repo.tx == repo.client && Inv(Rows(repo.client), roots, owner)
    modifies repo`tx, repo`issued
    ensures repo.Valid()
    ensures Ends(repo, MoveSpec(Rows(repo.client), roots, drive, srcPaths, drive, dstPath), r)
  {
    if drive !in roots { return Err(NotFound); }
    if |srcPaths| == 1 {
      r := MvOne(repo, roots[drive], srcPaths[0], dstPath, roots);
    } else {
      r := MvBatch(repo, roots[drive], srcPaths, dstPath, roots, owner, drive);
    }
  }

  /** One transaction: it ends as MoveSpec says and is never refused, with the moves
      committed or nothing changed. */
  method Mv(repo: EntRepository, roots: map<DriveId, Id>, srcDrive: DriveId, srcPaths: seq<string>, dstDrive: DriveId,
            dstPath: string, ghost owner: map<Id, DriveId>)
      returns (r: Result<seq<Ref>>)
    requires repo.Valid() && repo.tx == repo.client && Inv(Rows(repo.client), roots, owner)
    modifies repo
    ensures repo.Valid() && repo.tx == repo.client && r != Err(RevisionConflict)
    ensures match MoveSpec(Rows(old(repo.client)), roots, srcDrive, srcPaths, dstDrive, dstPath)
            case Err(e) => r == Err(e) && repo.client == old(repo.client)
            case Ok(x) => r == Ok(x.1) && Rows(repo.client) == x.0.fs
    ensures srcDrive == dstDrive && srcDrive in roots
            && MoveFacts.Clashing(Rows(old(repo.client)), roots[srcDrive], srcPaths, dstPath) ==>
              r == Err(TypeMismatch) && repo.client == old(repo.client)
  {
    ClashStops(Rows(repo.client), roots, owner, srcDrive, srcPaths, dstPath);
    MoveSpecErrors(Rows(repo.client), roots, srcDrive, srcPaths, dstDrive, dstPath);
    if srcDrive != dstDrive { return Err(CrossDrive); }
    r := MvRows(repo, roots, srcDrive, srcPaths, dstPath, owner);
    if r.Ok? { repo.Commit(); } else { repo.Rollback(); }
  }

  // ---------------------------------------------------------------- the errors of a move

  lemma {:induction false} WalkErrors(fs: FS, root: Id, done: seq<string>, cur: Id, todo: seq<string>, follow: bool,
                                      visited: set<Id>)
    requires root in fs && cur in fs
    ensures var r := WalkFrom(fs, root, done, cur, todo, follow, visited);
            r.Err? ==> r.error != RevisionConflict
    decreases MAX_SYMLINK_DEPTH - |visited|, |todo|
  {
    if todo != [] && fs[cur].IsDir() {
      var e := Find(fs[cur].content.entries, todo[0]);
      if e.Some? && e.value.ino in fs {
        var c := e.value.ino;
        if follow && fs[c].content.Symlink? {
          if |visited| < MAX_SYMLINK_DEPTH && c !in visited {
            var p := Spliced(done, fs[c].content.target, todo[1..]);
            WalkErrors(fs, root, [], root, Comps(p), follow, visited + {c});
          }
        } else if !fs[c].content.Mount? {
          WalkErrors(fs, root, done + [todo[0]], c, todo[1..], follow, visited);
        }
      }
    }
  }

  lemma ResolveErrors(fs: FS, root: Id, p: string)
    ensures ResolvePath(fs, root, p, true).Err? ==> ResolvePath(fs, root, p, true).error != RevisionConflict
    ensures ResolveParent(fs, root, p).Err? ==> ResolveParent(fs, root, p).error != RevisionConflict
  {
    if root in fs {
      WalkErrors(fs, root, [], root, Comps(p), true, {});
      if Comps(p) != [] { WalkErrors(fs, root, [], root, Comps(ParentPath(p)), true, {}); }
    }
  }

  lemma {:induction false} GatherErrors(fs: FS, root: Id, paths: seq<string>, seen: set<string>)
    ensures Gather(fs, root, paths, seen).Err? ==> Gather(fs, root, paths, seen).error != RevisionConflict
    decreases |paths|
  {
    if paths != [] {
      ResolveErrors(fs, root, paths[0]);
      var at := ResolveParent(fs, root, paths[0]);
      if at.Ok? { GatherErrors(fs, root, paths[1..], seen + {at.value.1}); }
    }
  }

  lemma {:induction false} ApplyErrors(t: Tree, srcs: seq<Source>, dp: Id)
    requires forall s | s in srcs :: Ready(t, s.dir, dp) && IsName(s.name)
    requires dp in t.held && t.held[dp].IsDir()
    ensures Apply(t, srcs, dp).Err? ==> Apply(t, srcs, dp).error != RevisionConflict
    decreases |srcs|
  {
    if srcs != [] {
      var u := Step(t, srcs[0].dir, srcs[0].name, dp, srcs[0].name);
      StepErrors(t, srcs[0].dir, srcs[0].name, dp, srcs[0].name);
      if u.Ok? {
        forall k | k in srcs[1..] ensures Ready(u.value, k.dir, dp) { assert k in srcs && k.dir in u.value.held.Keys; }
        ApplyErrors(u.value, srcs[1..], dp);
      }
    }
  }

  lemma MoveManyErrors(fs: FS, root: Id, srcPaths: seq<string>, dstPath: string)
    ensures var r := MoveMany(fs, root, srcPaths, dstPath); r.Err? ==> r.error != RevisionConflict
  {
    ResolveErrors(fs, root, dstPath);
    GatherErrors(fs, root, srcPaths, {});
    var dst, srcs := ResolvePath(fs, root, dstPath, true), Gather(fs, root, srcPaths, {});
    if dst.Ok? && dst.value.ino in fs && fs[dst.value.ino].IsDir() && srcs.Ok? {
      ApplyErrors(Tree(fs, fs), srcs.value, dst.value.ino);
    }
  }

  lemma MoveOneErrors(fs: FS, root: Id, srcPath: string, dstPath: string)
    ensures var r := MoveOne(fs, root, srcPath, dstPath); r.Err? ==> r.error != RevisionConflict
  {
    ResolveErrors(fs, root, srcPath);
    ResolveErrors(fs, root, dstPath);
    var plan := MovePlan(fs, root, srcPath, dstPath);
    if plan.Ok? { StepErrors(Tree(fs, fs), plan.value.sp, plan.value.sn, plan.value.dp, plan.value.dn); }
  }

  lemma StepErrors(t: Tree, sp: Id, sn: string, dp: Id, dn: string)
    requires Ready(t, sp, dp) && IsName(dn)
    ensures Step(t, sp, sn, dp, dn).Err? ==> Step(t, sp, sn, dp, dn).error != RevisionConflict
  {
  }

  lemma MoveSpecErrors(fs: FS, roots: map<DriveId, Id>, srcDrive: DriveId, srcPaths: seq<string>, dstDrive: DriveId,
                       dstPath: string)
    ensures var r := MoveSpec(fs, roots, srcDrive, srcPaths, dstDrive, dstPath); r.Err? ==> r.error != RevisionConflict
  {
    if srcDrive in roots {
      MoveManyErrors(fs, roots[srcDrive], srcPaths, dstPath);
      if |srcPaths| == 1 { MoveOneErrors(fs, roots[srcDrive], srcPaths[0], dstPath); }
    }
  }
}

/** internal/core/node/ent.go: the repository under a running transaction. Reads go to
    the committed rows, writes to the transaction, and an update is refused unless the
    row still has the revision the caller read. */
module EntRepo {
  import opened Inodes
  import opened Graph

  type Rev = nat

  datatype Row = Row(rev: Rev, inode: Inode)

  function Rows(rows: map<Id, Row>): FS { map id | id in rows :: rows[id].inode }

  /** node.Node with its two revisions. */
  class Node {
    const id: Id
    var inode: Inode
    var rev: Rev
    var staleRev: Rev

    constructor (id: Id, row: Row)
      ensures this.id == id && inode == row.inode && rev == staleRev == row.rev
    {
      this.id, inode, rev, staleRev := id, row.inode, row.rev, row.rev;
    }
  }

  /** The committed rows and the roots of the drives. */
  datatype Ground = Ground(fs: FS, roots: map<DriveId, Id>)

  type Solid = g: Ground | StoreOk(g.fs, g.roots)
    ghost witness Ground(map[], map[])

  class EntRepository {
    /** The committed rows. */
    var client: map<Id, Row>
    /** The rows as the open transaction has them. */
    var tx: map<Id, Row>
    /** Revisions are never issued twice. */
    var issued: Rev
    /** The entries the transaction has unlinked, if that is all it has done. */
    ghost var unlinked: Option<set<Link>>

    ghost predicate Valid()
      reads this
    {
      (forall id | id in client :: client[id].rev < issued) && forall id | id in tx :: tx[id].rev < issued
    }

    /** A transaction has just begun. */
    constructor (client: map<Id, Row>, issued: Rev)
      requires forall id | id in client :: client[id].rev < issued
      ensures Valid() && this.client == client == tx && HasCut() && Unlinks() == {}
    {
      this.client, tx, this.issued, unlinked := client, client, issued, Some({});
      new;
      Begun(client);
    }

    method Get(id: Id) returns (r: Result<Node>)
      ensures id !in client ==> r == Err(NotFound)
      ensures id in client ==> r.Ok? && fresh(r.value) && r.value.id == id && r.value.inode == client[id].inode
                               && r.value.rev == r.value.staleRev == client[id].rev
    {
      if id !in client { return Err(NotFound); }
      var n := new Node(id, client[id]);
      return Ok(n);
    }

    /** node.write: new content, new revision. */
    method Change(n: Node, inode: Inode)
      requires Valid()
      modifies this`issued, n
      ensures Valid() && issued == old(issued) + 1
      ensures n.inode == inode && n.rev == old(issued) && n.staleRev == old(n.staleRev)
    {
      n.inode, n.rev := inode, issued;
      issued := issued + 1;
    }

    /** Inserts a row the transaction does not have, else updates it if its revision is
        the one that was read. */
    method Save(n: Node) returns (r: Result<()>)
      requires Valid() && n.rev < issued
      modifies this`tx, n
      ensures Valid() && n.inode == old(n.inode) && n.rev == old(n.rev)
      ensures r == if n.id !in old(tx) || old(tx)[n.id].rev == old(n.staleRev) then Ok(()) else Err(RevisionConflict)
      ensures tx == if r.Ok? then old(tx)[n.id := Row(n.rev, n.inode)] else old(tx)
      ensures r.Ok? ==> n.staleRev == n.rev
    {
      if n.id !in tx {
        tx := tx[n.id := Row(n.rev, n.inode)];
        n.staleRev := n.rev;
        return Ok(());
      }
      if tx[n.id].rev != n.staleRev { return Err(RevisionConflict); }
      tx := tx[n.id := Row(n.rev, n.inode)];
      n.staleRev := n.rev;
      return Ok(());
    }

    /** Has the transaction left the row as committed? */
    ghost predicate Untouched(id: Id)
      reads this
    {
      id in client && id in tx && tx[id] == client[id]
    }

    /** A change and a save through a handle loaded for it: refused iff the transaction has
        the row with another revision than the committed one. */
    method Update(n: Node, inode: Inode) returns (r: Result<()>)
      requires Valid() && n.id in client && n.rev == n.staleRev == client[n.id].rev
      modifies this`tx, this`issued, n
      ensures Valid() && issued >= old(issued) && n.rev >= old(issued)
      ensures SaveRow(client, old(tx), n.id, Row(n.rev, inode)) == if r.Ok? then Ok(tx) else Err(r.error)
      ensures r.Err? ==> tx == old(tx)
    {
      Change(n, inode);
      r := Save(n);
    }

    method Delete(id: Id) returns (r: Result<()>)
      requires Valid()
      modifies this`tx
      ensures Valid() && tx == old(tx) - {id}
      ensures r == if id in old(tx) then Ok(()) else Err(NotFound)
    {
      if id !in tx { return Err(NotFound); }
      tx := tx - {id};
      return Ok(());
    }

    /** A read, a change and a save through a handle of its own succeed iff the
        transaction has not written the row before; a row it deleted comes back. */
    method Rewrite(id: Id, inode: Inode) returns (r: Result<()>)
      requires Valid() && id in client
      requires id in tx && tx[id].rev == client[id].rev ==> tx[id] == client[id]
      modifies this`tx, this`issued
      ensures Valid() && issued >= old(issued)
      ensures r.Ok? <==> id !in old(tx) || old(Untouched(id))
      ensures r.Err? ==> r == Err(RevisionConflict) && tx == old(tx)
      ensures r.Ok? ==> id in tx && tx[id].rev >= old(issued) && tx == old(tx)[id := Row(tx[id].rev, inode)]
    {
      var n := Get(id);
      r := Update(n.value, inode);
    }

    method Commit()
      requires Valid()
      modifies this`client, this`unlinked
      ensures Valid() && client == tx && HasCut() && Unlinks() == {}
    {
      client, unlinked := tx, Some({});
      Begun(client);
    }

    method Rollback()
      requires Valid()
      modifies this`tx, this`unlinked
      ensures Valid() && tx == client && HasCut() && Unlinks() == {}
    {
      tx, unlinked := client, Some({});
      Begun(client);
    }

    // -------------------------------------------------------------- unlinking

    /** The transaction has done nothing but unlink these entries, one by one. */
    ghost predicate HasCut()
      reads this
    {
      match unlinked
      case Some(c) => CutSoFar(client, tx, c)
      case None => false
    }

    ghost function Unlinks(): set<Link>
      reads this
    {
      if unlinked.Some? then unlinked.value else {}
    }

    /** NodeOperation.Unlink over this repository. parent is as committed, and a directory is
        unlinked after its entries. It goes through iff there is such an entry, no entry
        removed before it was in the same directory, and none named the same inode. */
    method Unlink(parent: Node, name: string, ghost g: Solid) returns (r: Result<()>)
      requires Valid() && HasCut() && g.fs == Rows(client)
      requires parent.id in client && parent.inode == client[parent.id].inode
      requires parent.rev == parent.staleRev == client[parent.id].rev
      requires var x := Child(g.fs, parent.id, name);
               x.Some? ==> Unlinkable(g.fs, Unlinks(), Link(parent.id, name, x.value))
      modifies this`tx, this`issued, this`unlinked, parent
      ensures Valid()
      ensures var x := Child(g.fs, parent.id, name);
              (r.Ok? <==> x.Some? && Clear(old(Unlinks()), Link(parent.id, name, x.value)))
              && (r.Ok? ==> HasCut() && Unlinks() == old(Unlinks()) + {Link(parent.id, name, x.value)})
    {
      if !parent.inode.IsDir() { return Err(NotDirectory); }
      var e := Find(parent.inode.content.entries, name);
      if e.None? { return Err(NotFound); }
      r := UnlinkEntry(parent, name, g, Link(parent.id, name, e.value.ino));
    }

    /** The unlinking of an entry that is there. */
    method UnlinkEntry(parent: Node, name: string, ghost g: Solid, ghost l: Link) returns (r: Result<()>)
      requires Valid() && HasCut() && g.fs == Rows(client) && Unlinkable(g.fs, Unlinks(), l)
      requires parent.id == l.dir && name == l.name && l.dir in client && parent.inode == client[l.dir].inode
      requires parent.rev == parent.staleRev == client[l.dir].rev
      modifies this`tx, this`issued, this`unlinked, parent
      ensures Valid() && (r.Ok? <==> Clear(old(Unlinks()), l))
      ensures r.Ok? ==> HasCut() && Unlinks() == old(Unlinks()) + {l}
    {
      LinkRows(client, l);
      ghost var was, c := tx, Unlinks();
      ghost var v, w;
      r, v, w := UnlinkRows(parent, name, l);
      UnlinkIff(client, was, g, c, l, v, w, tx, Unlinks(), r.Ok?);
    }

    /** Its writes: the directory without the entry, and the inode with a link less, or no
        inode. */
    method UnlinkRows(parent: Node, name: string, ghost l: Link) returns (r: Result<()>, ghost v: Rev, ghost w: Rev)
      requires Valid() && parent.id == l.dir && name == l.name && l.dir in client && l.ino in client
      requires parent.inode == client[l.dir].inode && parent.rev == parent.staleRev == client[l.dir].rev
      requires parent.inode.IsDir()
      requires var e := Find(parent.inode.content.entries, name); e.Some? && e.value.ino == l.ino
      modifies this`tx, this`issued, this`unlinked, parent
      ensures Valid() && v != client[l.dir].rev && w != client[l.ino].rev && unlinked == Some(old(Unlinks()) + {l})
      ensures r.Ok? <==> UnlinkRow(client, old(tx), l, v, w).Ok?
      ensures r.Ok? ==> UnlinkRow(client, old(tx), l, v, w).value == tx
    {
      var n := parent.inode;
      var x := Find(n.content.entries, name).value.ino;
      unlinked := Some(Unlinks() + {l});
      w := issued;
      r := Update(parent, n.(content := Dir(Keep(n.content.entries, {name}))));
      v := parent.rev;
      if r.Err? { return; }
      var child := Get(x);
      var row := child.value.inode;
      if row.nlink > 1 {
        r := Update(child.value, row.(nlink := row.nlink - 1));
        w := child.value.rev;
      } else {
        r := Delete(x);
      }
    }
  }

  // ---------------------------------------------------------------- what a transaction has removed

  ghost predicate StoreOk(fs: FS, roots: map<DriveId, Id>) {
    WellFormed(fs) && RootsOk(fs, roots) && CountsOk(fs, roots)
  }

  /** No entry of c is in l's directory, and none names l's inode. */
  ghost predicate Clear(c: set<Link>, l: Link) {
    forall k | k in c :: k.dir != l.dir && k.ino != l.ino
  }

  /** No two entries share a directory, and no two name one inode. */
  ghost predicate Separate(c: set<Link>) {
    forall k, l | k in c && l in c && k != l :: k.dir != l.dir && k.ino != l.ino
  }

  /** A directory whose entry is in c has all its entries in c. */
  ghost predicate DirClosed(fs: FS, c: set<Link>) {
    forall k, l | k in c && l in Links(fs) && k.ino == l.dir :: l in c
  }

  ghost predicate Touched(c: set<Link>, id: Id) {
    exists l :: l in c && (l.dir == id || l.ino == id)
  }

  /** The rows of the transaction are those without the entries c, and the revision of a
      row tells whether the transaction has written it. */
  ghost predicate TxIs(client: map<Id, Row>, tx: map<Id, Row>, c: set<Link>) {
    Rows(tx) == Cut(Rows(client), c)
    && forall id | id in tx :: id in client && (tx[id].rev == client[id].rev <==> !Touched(c, id))
  }

  /** Save through a handle with the committed revision. */
  function SaveRow(client: map<Id, Row>, tx: map<Id, Row>, id: Id, row: Row): Result<map<Id, Row>>
    requires id in client
  {
    if id !in tx || tx[id].rev == client[id].rev then Ok(tx[id := row]) else Err(RevisionConflict)
  }

  /** The writes of one Unlink. */
  function UnlinkRow(client: map<Id, Row>, tx: map<Id, Row>, l: Link, v: Rev, w: Rev): Result<map<Id, Row>>
    requires l.dir in client && client[l.dir].inode.IsDir() && l.ino in client
  {
    var d, x := client[l.dir].inode, client[l.ino].inode;
    var one := SaveRow(client, tx, l.dir, Row(v, d.(content := Dir(Keep(d.content.entries, {l.name})))));
    if one.Err? then one
    else if x.nlink > 1 then SaveRow(client, one.value, l.ino, Row(w, x.(nlink := x.nlink - 1)))
    else if l.ino in one.value then Ok(one.value - {l.ino})
    else Err(NotFound)
  }

  lemma Begun(client: map<Id, Row>)
    ensures CutSoFar(client, client, {})
  {
    CutNothing(Rows(client));
  }

  ghost predicate CutSoFar(client: map<Id, Row>, tx: map<Id, Row>, c: set<Link>) {
    c <= Links(Rows(client)) && Separate(c) && DirClosed(Rows(client), c) && TxIs(client, tx, c)
  }

  /** An entry that is not its directory's own, and that is no directory's or whose
      directory has no entry left. */
  ghost predicate Unlinkable(fs: FS, c: set<Link>, l: Link) {
    l in Links(fs) && l.dir != l.ino && forall k | k in Links(fs) && k.dir == l.ino :: k in c
  }

  lemma LinkRows(client: map<Id, Row>, l: Link)
    requires l in Links(Rows(client)) && WellFormed(Rows(client))
    ensures l.dir in client && client[l.dir].inode.IsDir() && l.ino in client
    ensures Find(client[l.dir].inode.content.entries, l.name).Some?
    ensures Find(client[l.dir].inode.content.entries, l.name).value.ino == l.ino
  {
    assert HasLink(Rows(client), l);
    LinkTarget(Rows(client), l);
  }

  /** An inode none of whose entries is removed is there; one with a removed entry is there
      iff it had another. */
  lemma RowAfter(fs: FS, c: set<Link>, x: Id)
    requires x in fs && Separate(c)
    ensures (forall k | k in c :: k.ino != x) ==> To(c, x) == {} && x in Cut(fs, c)
    ensures (exists k :: k in c && k.ino == x) ==> |To(c, x)| == 1 && (x in Cut(fs, c) <==> fs[x].nlink > 1)
  {
    if k :| k in c && k.ino == x {
      assert To(c, x) == {k};
    } else {
      assert To(c, x) == {};
    }
  }

  lemma SharedIsNoDir(fs: FS, roots: map<DriveId, Id>, l: Link)
    requires RootsOk(fs, roots) && CountsOk(fs, roots) && l in Links(fs) && l.ino in fs
    ensures fs[l.ino].nlink > 1 ==> !fs[l.ino].IsDir()
  {
    assert !IsRoot(roots, l.ino);
    assert CountOk(fs[l.ino], |To(Links(fs), l.ino)|);
  }

  lemma TxRow(client: map<Id, Row>, tx: map<Id, Row>, c: set<Link>, id: Id)
    requires TxIs(client, tx, c) && id in client
    ensures id in tx <==> id in Cut(Rows(client), c)
    ensures id in tx ==> tx[id].inode == Cut(Rows(client), c)[id] && (tx[id].rev == client[id].rev <==> !Touched(c, id))
  {
    assert id in Rows(tx) <==> id in tx;
  }

  /** The first write, to the directory: a directory without removed entries is as
      committed, and one that is gone has all its entries removed. */
  lemma DirWritten(client: map<Id, Row>, tx: map<Id, Row>, c: set<Link>, l: Link)
    requires CutSoFar(client, tx, c) && l in Links(Rows(client)) && l.dir in client && l !in c
    ensures l.dir in tx && (forall k | k in c :: k.ino != l.dir)
    ensures tx[l.dir].rev == client[l.dir].rev <==> forall k | k in c :: k.dir != l.dir
  {
    forall k | k in c ensures k.ino != l.dir { if k.ino == l.dir { assert false; } }
    RowAfter(Rows(client), c, l.dir);
    TxRow(client, tx, c, l.dir);
  }

  /** The second write, to the inode. */
  lemma InodeWritten(client: map<Id, Row>, tx: map<Id, Row>, c: set<Link>, l: Link)
    requires c <= Links(Rows(client)) && Separate(c) && TxIs(client, tx, c) && l.ino in client
    requires client[l.ino].inode.nlink > 1 ==> !client[l.ino].inode.IsDir()
    ensures var x := client[l.ino].inode;
            (if x.nlink > 1 then l.ino !in tx || tx[l.ino].rev == client[l.ino].rev else l.ino in tx)
            <==> forall k | k in c :: k.ino != l.ino
  {
    RowAfter(Rows(client), c, l.ino);
    TxRow(client, tx, c, l.ino);
    if client[l.ino].inode.nlink > 1 {
      forall k | k in c ensures k.dir != l.ino { assert HasLink(Rows(client), k); }
    }
  }

  /** When the two writes go through, each by itself. */
  lemma WritesGo(client: map<Id, Row>, tx: map<Id, Row>, l: Link, v: Rev, w: Rev)
    requires l.dir in client && client[l.dir].inode.IsDir() && l.ino in client && l.dir != l.ino
    ensures UnlinkRow(client, tx, l, v, w).Ok? <==>
              (l.dir !in tx || tx[l.dir].rev == client[l.dir].rev)
              && if client[l.ino].inode.nlink > 1 then l.ino !in tx || tx[l.ino].rev == client[l.ino].rev
                 else l.ino in tx
  {
  }

  /** Both writes of an unlink go through exactly for an entry that is clear of c. */
  lemma UnlinkIff(client: map<Id, Row>, tx: map<Id, Row>, g: Solid, c: set<Link>, l: Link, v: Rev,
                  w: Rev, after: map<Id, Row>, more: set<Link>, ok: bool)
    requires CutSoFar(client, tx, c) && g.fs == Rows(client) && Unlinkable(g.fs, c, l)
    requires l.dir in client && client[l.dir].inode.IsDir() && l.ino in client
    requires v != client[l.dir].rev && w != client[l.ino].rev
    requires var r := UnlinkRow(client, tx, l, v, w); (ok <==> r.Ok?) && (ok ==> r.value == after)
    requires more == c + {l}
    ensures (ok <==> Clear(c, l)) && (ok ==> CutSoFar(client, after, more))
  {
    SharedIsNoDir(Rows(client), g.roots, l);
    UnlinkGoes(client, tx, c, l, v, w);
    if Clear(c, l) {
      DirWritten(client, tx, c, l);
      ClearKeeps(Rows(client), c, l);
      UnlinkedRows(client, tx, c, l, v, w);
    }
  }

  lemma UnlinkGoes(client: map<Id, Row>, tx: map<Id, Row>, c: set<Link>, l: Link, v: Rev, w: Rev)
    requires CutSoFar(client, tx, c) && l in Links(Rows(client)) && l.dir != l.ino
    requires l.dir in client && client[l.dir].inode.IsDir() && l.ino in client
    requires client[l.ino].inode.nlink > 1 ==> !client[l.ino].inode.IsDir()
    ensures UnlinkRow(client, tx, l, v, w).Ok? <==> Clear(c, l)
  {
    WritesGo(client, tx, l, v, w);
    InodeWritten(client, tx, c, l);
    if l !in c { DirWritten(client, tx, c, l); }
  }

  lemma ClearKeeps(fs: FS, c: set<Link>, l: Link)
    requires Separate(c) && DirClosed(fs, c) && Clear(c, l) && forall k | k in Links(fs) && k.dir == l.ino :: k in c
    ensures Separate(c + {l}) && DirClosed(fs, c + {l})
  {
  }

  /** The rows after an unlink that goes through. */
  lemma UnlinkedRows(client: map<Id, Row>, tx: map<Id, Row>, c: set<Link>, l: Link, v: Rev, w: Rev)
    requires TxIs(client, tx, c) && Clear(c, l) && l.dir != l.ino
    requires l.dir in client && client[l.dir].inode.IsDir() && l.ino in client && l.dir in tx
    requires client[l.ino].inode.nlink > 1 ==> !client[l.ino].inode.IsDir()
    requires forall k | k in c :: k.ino != l.dir
    requires v != client[l.dir].rev && w != client[l.ino].rev && UnlinkRow(client, tx, l, v, w).Ok?
    ensures TxIs(client, UnlinkRow(client, tx, l, v, w).value, c + {l})
  {
    var gs, tx' := Cut(Rows(client), c + {l}), UnlinkRow(client, tx, l, v, w).value;
    forall id ensures id in tx' <==> id in gs
              ensures id in tx' ==>
                        tx'[id].inode == gs[id] && id in client
                        && (tx'[id].rev == client[id].rev <==> !Touched(c + {l}, id))
    {
      if id in client {
        TouchedMore(c, l, id);
        TxRow(client, tx, c, id);
        CutOneMore(Rows(client), c, l, id);
      }
    }
    assert Rows(tx') == gs;
  }

  lemma TouchedMore(c: set<Link>, l: Link, id: Id)
    ensures Touched(c + {l}, id) <==> Touched(c, id) || id == l.dir || id == l.ino
  {
    assert l in c + {l};
    if k :| k in c && (k.dir == id || k.ino == id) { assert k in c + {l}; }
  }

  /** What one entry more changes: its directory, and its inode. */
  lemma CutOneMore(fs: FS, c: set<Link>, l: Link, id: Id)
    requires id in fs && l.dir != l.ino && Clear(c, l) && forall k | k in c :: k.ino != l.dir
    ensures id != l.ino ==> (id in Cut(fs, c + {l}) <==> id in Cut(fs, c))
    ensures id != l.ino && id != l.dir && id in Cut(fs, c) ==> Cut(fs, c + {l})[id] == Cut(fs, c)[id]
    ensures id == l.dir ==>
              id in Cut(fs, c) && (fs[id].IsDir() ==>
                Cut(fs, c + {l})[id] == fs[id].(content := Dir(Keep(fs[id].content.entries, {l.name}))))
    ensures id == l.ino ==> (id in Cut(fs, c + {l}) <==> fs[id].nlink > 1)
    ensures id == l.ino && fs[id].nlink > 1 && !fs[id].IsDir() ==>
              Cut(fs, c + {l})[id] == fs[id].(nlink := fs[id].nlink - 1)
  {
    if id != l.ino {
      assert To(c + {l}, id) == To(c, id);
    } else {
      assert To(c + {l}, id) == {l};
    }
    if id != l.dir {
      assert CutNames(c + {l}, id) == CutNames(c, id);
    } else {
      assert To(c, id) == {};
      assert CutNames(c + {l}, id) == {l.name};
    }
  }

  /** Two such writes of one row in one transaction: the second is refused. */
  method RewriteTwice(repo: EntRepository, id: Id, first: Inode, second: Inode) returns (a: Result<()>, b: Result<()>)
    requires repo.Valid() && repo.Untouched(id)
    modifies repo`tx, repo`issued
    ensures a.Ok? && b == Err(RevisionConflict)
    ensures id in repo.tx && repo.tx[id].inode == first
  {
    a := repo.Rewrite(id, first);
    b := repo.Rewrite(id, second);
  }
}

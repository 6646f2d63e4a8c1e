/** internal/core/node: the inode handle and the node operations over the repository.
    The repository is one whose reads see the writes of the running transaction; Link,
    Unlink and MoveEntry join that transaction, or are one of their own. */
module NodeOps {
  import opened Paths
  import opened Inodes
  import opened Graph
  import opened Moves
  import opened Transactions

  /** node.Node as a caller holds it: a private copy of a row. */
  class Handle {
    const id: Id
    var inode: Inode

    constructor (id: Id, inode: Inode)
      ensures this.id == id && this.inode == inode
    {
      this.id := id;
      this.inode := inode;
    }
  }

  /** ReadDir: only directories list entries; an inline file does not parse as a listing. */
  function ReadDir(n: Inode): Result<seq<Entry>> {
    if n.IsDir() then Ok(n.content.entries)
    else if n.content.File? then Err(NotDirectory)
    else Ok([])
  }

  /** What the two directories of a move look like to MoveEntry: as its handles have them. */
  function View(fs: FS, sp: Id, src: Inode, dp: Id, dst: Inode): FS {
    fs[sp := src][dp := dst]
  }

  /** MoveEntry returns without writing: same entry, or both names already name one inode. */
  predicate AlreadyThere(sp: Id, src: Inode, sn: string, dp: Id, dst: Inode, dn: string)
    requires src.IsDir() && dst.IsDir() && Find(src.content.entries, sn).Some?
  {
    (sp == dp && sn == dn)
    || var over := Find(dst.content.entries, dn);
       over.Some? && over.value.ino == Find(src.content.entries, sn).value.ino
  }

  /** Why MoveEntry refuses, if it does. */
  function MoveError(sp: Id, src: Inode, sn: string, dp: Id, dst: Inode, dn: string): Option<Error>
    requires dst.IsDir()
  {
    var dc := ReadDir(src);
    if dc.Err? then Some(dc.error)
    else if Find(dc.value, sn).None? then Some(NotFound)
    else if AlreadyThere(sp, src, sn, dp, dst, dn) then None
    else
      var over := Find(dst.content.entries, dn);
      if over.Some? && over.value.kind != Find(dc.value, sn).value.kind then Some(TypeMismatch) else None
  }

  /** Both listings have the names, for different inodes of different kinds. */
  predicate Mismatched(src: Inode, sn: string, dst: Inode, dn: string) {
    src.IsDir() && dst.IsDir()
    && var e, over := Find(src.content.entries, sn), Find(dst.content.entries, dn);
       e.Some? && over.Some? && e.value.ino != over.value.ino && e.value.kind != over.value.kind
  }

  /** Unlink in terms of Cut: one entry, one link. */
  lemma CutOne(fs: FS, p: Id, name: string, x: Id)
    requires WellFormed(fs) && HasLink(fs, Link(p, name, x)) && x in fs
    ensures var l := {Link(p, name, x)};
            var gs := fs[p := fs[p].(content := Dir(Keep(fs[p].content.entries, {name})))];
            Cut(fs, l) == if fs[x].nlink > 1 then gs[x := gs[x].(nlink := gs[x].nlink - 1)] else gs - {x}
  {
    var gs := fs[p := fs[p].(content := Dir(Keep(fs[p].content.entries, {name})))];
    forall y | y in fs
      ensures Gone(fs, {Link(p, name, x)}, y) <==> y == x && fs[x].nlink <= 1
      ensures !Gone(fs, {Link(p, name, x)}, y) ==>
                CutInode(fs[y], y, {Link(p, name, x)}) == if y == x then gs[y].(nlink := gs[y].nlink - 1) else gs[y]
    {
      CutOneRow(fs, Link(p, name, x), y);
    }
  }

  lemma CutOneRow(fs: FS, l: Link, y: Id)
    requires HasLink(fs, l) && y in fs
    ensures Gone(fs, {l}, y) <==> y == l.ino && fs[y].nlink <= 1
    ensures !Gone(fs, {l}, y) ==>
              CutInode(fs[y], y, {l}).nlink == fs[y].nlink - (if y == l.ino then 1 else 0)
              && CutInode(fs[y], y, {l}).content ==
                 if y == l.dir then Dir(Keep(fs[y].content.entries, {l.name})) else fs[y].content
  {
    assert To({l}, y) == if y == l.ino then {l} else {};
    assert CutNames({l}, y) == if y == l.dir then {l.name} else {};
    if y != l.dir && fs[y].IsDir() { KeepNone(fs[y].content.entries, {}); }
  }

  /** The i-th entry of directory p is gone, the inode it named has a link less, or is gone
      with its last one; no other row is different. */
  ghost predicate EntryRemoved(fs: FS, gs: FS, p: Id, i: nat) {
    p in fs && fs[p].IsDir() && i < |fs[p].content.entries|
    && var es := fs[p].content.entries;
       var x := es[i].ino;
       x in fs && gs.Keys == fs.Keys - (if fs[x].nlink <= 1 then {x} else {})
       && forall y | y in gs ::
            gs[y].nlink == fs[y].nlink - (if y == x then 1 else 0)
            && gs[y].content == if y == p then Dir(Without(es, i)) else fs[y].content
  }

  lemma CutRemoves(fs: FS, p: Id, name: string, x: Id)
    requires WellFormed(fs) && HasLink(fs, Link(p, name, x)) && x in fs
    ensures EntryRemoved(fs, Cut(fs, {Link(p, name, x)}), p, Index(fs[p].content.entries, name))
  {
    var es, i := fs[p].content.entries, Index(fs[p].content.entries, name);
    KeepIsWithout(es, i);
    CutOne(fs, p, name, x);
    RowsWithout(fs, Cut(fs, {Link(p, name, x)}), p, i, fs[p].(content := Dir(Without(es, i))));
  }

  lemma RowsWithout(fs: FS, gs: FS, p: Id, i: nat, parent: Inode)
    requires p in fs && fs[p].IsDir() && i < |fs[p].content.entries| && fs[p].content.entries[i].ino in fs
    requires var es := fs[p].content.entries; parent == fs[p].(content := Dir(Without(es, i)))
    requires var hs, x := fs[p := parent], fs[p].content.entries[i].ino;
             gs == if fs[x].nlink > 1 then hs[x := hs[x].(nlink := hs[x].nlink - 1)] else hs - {x}
    ensures EntryRemoved(fs, gs, p, i)
  {
  }

  /** The source listing as a move rewrites it. */
  function Rewritten(es: seq<Entry>, sn: string, moved: Entry, same: bool): seq<Entry> {
    if same then Renamed(es, sn, moved) else Keep(es, {sn})
  }

  /** The turn of the loop for the entry at i. */
  lemma RewriteOne(es: seq<Entry>, i: nat, sn: string, moved: Entry, same: bool, out: seq<Entry>)
    requires i < |es|
    ensures out + Rewritten(es[i..], sn, moved, same) ==
            (if es[i].name == sn then out else if same && es[i].name == moved.name then out + [moved]
             else out + [es[i]])
            + Rewritten(es[i + 1..], sn, moved, same)
    ensures Find(es[i..], moved.name).Some? <==> es[i].name == moved.name || Find(es[i + 1..], moved.name).Some?
  {
    assert es[i..][0] == es[i] && es[i..][1..] == es[i + 1..];
    var rest := Rewritten(es[i + 1..], sn, moved, same);
    assert out + ([moved] + rest) == out + [moved] + rest;
    assert out + ([es[i]] + rest) == out + [es[i]] + rest;
  }

  /** The rows with both listings of a move saved. */
  lemma ListingsSaved(fs: FS, sp: Id, src: Inode, sn: string, dp: Id, dst: Inode, dn: string)
    requires Movable(View(fs, sp, src, dp, dst), sp, sn, dp, dn) && (sp == dp ==> src == dst)
    ensures src.IsDir() && Find(src.content.entries, sn).Some?
    ensures var es, e := src.content.entries, Find(src.content.entries, sn).value.(name := dn);
            MoveListings(View(fs, sp, src, dp, dst), sp, sn, dp, dn) ==
            if sp == dp then fs[sp := src.(content := Dir(RenamedListing(es, sn, e)))]
            else fs[sp := src.(content := Dir(Keep(es, {sn})))][dp := dst.(content := Dir([e]))]
  {
  }

  /** One entry is cut; what is returned is the inode it named, if that was its last link. */
  ghost predicate Unlinked(fs: FS, gs: FS, d: Id, name: string, deleted: Option<Inode>) {
    Child(fs, d, name).Some?
    && var x := Child(fs, d, name).value;
       x in fs && gs == Cut(fs, {Inodes.Link(d, name, x)}) && (deleted.Some? <==> fs[x].nlink <= 1)
       && (deleted.Some? ==> deleted.value.Garbage() == fs[x].Garbage())
  }

  lemma UnlinkedRow(fs: FS, d: Id, name: string)
    requires WellFormed(fs) && Child(fs, d, name).Some?
    ensures var x := Child(fs, d, name).value;
            x in fs ==> EntryRemoved(fs, Cut(fs, {Inodes.Link(d, name, x)}), d, Index(fs[d].content.entries, name))
  {
    var x := Child(fs, d, name).value;
    if x in fs { CutRemoves(fs, d, name, x); }
  }

  /** Rows and handles after a move that is not refused. */
  ghost predicate Relocated(fs: FS, gs: FS, sp: Id, src: Inode, sn: string, dp: Id, dst: Inode, dn: string,
                            src': Inode, dst': Inode)
    requires src.IsDir() && dst.IsDir() && Find(src.content.entries, sn).Some?
  {
    if AlreadyThere(sp, src, sn, dp, dst, dn) then gs == fs && src' == src && dst' == dst
    else
      var v := View(fs, sp, src, dp, dst);
      Movable(v, sp, sn, dp, dn) && gs == MoveResult(v, sp, sn, dp, dn)
      && src' == MoveListings(v, sp, sn, dp, dn)[sp] && dst' == MoveListings(v, sp, sn, dp, dn)[dp]
  }

  class NodeOperation {
    const db: Database

    constructor (db: Database)
      ensures this.db == db
    {
      this.db := db;
    }

    method GetByID(id: Id) returns (r: Result<Handle>)
      ensures id in db.fs ==> r.Ok? && fresh(r.value) && r.value.id == id && r.value.inode == db.fs[id]
      ensures id !in db.fs ==> r == Err(NotFound)
    {
      if id !in db.fs { return Err(NotFound); }
      var h := new Handle(id, db.fs[id]);
      return Ok(h);
    }

    /** Insert or update. */
    method Save(n: Handle)
      requires db.Valid()
      modifies db
      ensures db.Nested() && db.tombstones == old(db.tombstones)
      ensures db.fs == old(db.fs)[n.id := n.inode]
    {
      db.Put(n.id, n.inode);
    }

    method Delete(id: Id) returns (r: Result<()>)
      requires db.Valid()
      modifies db
      ensures db.Nested() && db.tombstones == old(db.tombstones)
      ensures r.Ok? <==> id in old(db.fs)
      ensures db.fs == old(db.fs) - {id}
    {
      r := db.Remove(id);
    }

    /** The parent gains an entry and the child a link, both or neither. The child may be new. */
    method Link(parent: Handle, name: string, child: Handle, f: Faults) returns (r: Result<()>)
      requires db.Valid() && parent.id != child.id && parent.id in db.fs && parent.inode == db.fs[parent.id]
      modifies db, parent, child
      ensures db.Nested() && db.tombstones == old(db.tombstones)
      ensures r.Ok? <==> old(parent.inode).IsDir() && name != ""
                         && Find(old(parent.inode).content.entries, name).None? && old(db.Lasts(f))
      ensures r.Ok? ==> db.fs == AddLink(old(db.fs), parent.id, name, child.id, old(child.inode))
                        && parent.inode == db.fs[parent.id] && child.inode == db.fs[child.id]
      ensures r.Ok? ==> EntryAdded(old(db.fs), db.fs, parent.id, name, child.id, old(child.inode).content,
                                   old(child.inode).nlink + 1)
      ensures r.Err? ==> db.fs == old(db.fs)
    {
      ghost var fs, n := db.fs, child.inode;
      var joined := db.Begin(f);
      if joined.Err? { return Err(joined.error); }
      if parent.inode.IsDir() { AddLinkAdds(fs, parent.id, name, child.id, n); }
      r := LinkRows(parent, name, child);
      r := db.End(joined.value, r, f);
    }

    /** The callback of Link. */
    method LinkRows(parent: Handle, name: string, child: Handle) returns (r: Result<()>)
      requires db.open && parent.id != child.id && parent.id in db.fs && parent.inode == db.fs[parent.id]
      modifies db, parent, child
      ensures db.Nested() && db.tombstones == old(db.tombstones)
      ensures r.Ok? <==> old(parent.inode).IsDir() && name != ""
                         && Find(old(parent.inode).content.entries, name).None?
      ensures r.Ok? ==> db.fs == AddLink(old(db.fs), parent.id, name, child.id, old(child.inode))
                        && parent.inode == db.fs[parent.id] && child.inode == db.fs[child.id]
      ensures r.Err? ==> db.fs == old(db.fs)
    {
      if !parent.inode.IsDir() { return Err(NotDirectory); }
      if name == "" { return Err(InvalidName); }
      if Find(parent.inode.content.entries, name).Some? { return Err(AlreadyExists); }
      var e := Entry(child.id, name, child.inode.Kind());
      parent.inode := parent.inode.(content := Dir(parent.inode.content.entries + [e]));
      Save(parent);
      child.inode := child.inode.(nlink := child.inode.nlink + 1);
      Save(child);
      return Ok(());
    }

    method RemoveEntry(parent: Handle, name: string)
      requires parent.inode.IsDir() && UniqueNames(parent.inode.content.entries)
      requires Find(parent.inode.content.entries, name).Some?
      modifies parent
      ensures parent.inode == old(parent.inode).(content := Dir(Keep(old(parent.inode).content.entries, {name})))
    {
      var es := parent.inode.content.entries;
      for i := 0 to |es|
        invariant parent.inode == old(parent.inode)
        invariant forall j | 0 <= j < i :: es[j].name != name
      {
        if es[i].name == name {
          KeepIsWithout(es, i);
          parent.inode := parent.inode.(content := Dir(es[..i] + es[i + 1..]));
          return;
        }
      }
    }

    /** Removes the entry; the child loses a link, and is deleted and returned when it
        was the last. */
    method Unlink(parent: Handle, name: string, f: Faults) returns (r: Result<Option<Handle>>)
      requires db.Valid() && WellFormed(db.fs) && parent.id in db.fs && parent.inode == db.fs[parent.id]
      modifies db, parent
      ensures db.Nested() && db.tombstones == old(db.tombstones)
      ensures r.Ok? <==> Child(old(db.fs), parent.id, name).Some? && old(db.Lasts(f))
      ensures r.Ok? ==>
                Unlinked(old(db.fs), db.fs, parent.id, name, if r.value.Some? then Some(r.value.value.inode) else None)
      ensures r.Ok? ==>
                EntryRemoved(old(db.fs), db.fs, parent.id, Index(old(db.fs)[parent.id].content.entries, name))
      ensures r.Err? ==> db.fs == old(db.fs)
    {
      ghost var fs := db.fs;
      var joined := db.Begin(f);
      if joined.Err? { return Err(joined.error); }
      if Child(fs, parent.id, name).Some? { UnlinkedRow(fs, parent.id, name); }
      var out := UnlinkRows(parent, name);
      var ended := db.End(joined.value, if out.Ok? then Ok(()) else Err(out.error), f);
      if ended.Err? { return Err(ended.error); }
      return out;
    }

    /** The callback of Unlink. */
    method UnlinkRows(parent: Handle, name: string) returns (r: Result<Option<Handle>>)
      requires db.open && WellFormed(db.fs) && parent.id in db.fs && parent.inode == db.fs[parent.id]
      modifies db, parent
      ensures db.Nested() && db.tombstones == old(db.tombstones)
      ensures r.Ok? <==> Child(old(db.fs), parent.id, name).Some?
      ensures r.Ok? ==>
                Unlinked(old(db.fs), db.fs, parent.id, name, if r.value.Some? then Some(r.value.value.inode) else None)
      ensures r.Err? ==> db.fs == old(db.fs)
    {
      var dc := ReadDir(parent.inode);
      if dc.Err? { return Err(dc.error); }
      var e := Find(dc.value, name);
      if e.None? { return Err(NotFound); }
      var x := e.value.ino;
      CutOne(db.fs, parent.id, name, x);
      RemoveEntry(parent, name);
      Save(parent);
      var child := GetByID(x);
      var c := child.value;
      if c.inode.nlink > 1 {
        c.inode := c.inode.(nlink := c.inode.nlink - 1);
        Save(c);
        return Ok(None);
      }
      var _ := Delete(x);
      return Ok(Some(c));
    }

    /** Moves an entry, keeping its inode. The handles may be older than the rows. */
    method MoveEntry(srcParent: Handle, srcName: string, dstParent: Handle, dstName: string, f: Faults)
        returns (r: Result<()>)
      requires db.Valid() && (srcParent.id == dstParent.id ==> srcParent == dstParent)
      requires dstParent.inode.IsDir() && IsName(dstName)
      requires var v := View(db.fs, srcParent.id, srcParent.inode, dstParent.id, dstParent.inode);
               forall e | e in dstParent.inode.content.entries :: e.ino in v
      modifies db, srcParent, dstParent
      ensures db.Nested() && db.tombstones == old(db.tombstones)
      ensures var e := MoveError(srcParent.id, old(srcParent.inode), srcName, dstParent.id, old(dstParent.inode),
                                 dstName);
              (r.Ok? <==> e.None? && old(db.Lasts(f)))
              && (old(db.open) ==> r == if e.Some? then Err(e.value) else Ok(()))
      ensures r.Err? ==> db.fs == old(db.fs)
      ensures r.Err? && old(db.open) ==>
                srcParent.inode == old(srcParent.inode) && dstParent.inode == old(dstParent.inode)
      ensures r.Ok? ==> Relocated(old(db.fs), db.fs, srcParent.id, old(srcParent.inode), srcName,
                                  dstParent.id, old(dstParent.inode), dstName, srcParent.inode, dstParent.inode)
      ensures Mismatched(old(srcParent.inode), srcName, old(dstParent.inode), dstName) ==> r.Err?
    {
      var joined := db.Begin(f);
      if joined.Err? { return Err(joined.error); }
      r := MoveRows(srcParent, srcName, dstParent, dstName);
      r := db.End(joined.value, r, f);
    }

    /** The callback of MoveEntry. */
    method MoveRows(srcParent: Handle, srcName: string, dstParent: Handle, dstName: string) returns (r: Result<()>)
      requires db.open && (srcParent.id == dstParent.id ==> srcParent == dstParent)
      requires dstParent.inode.IsDir() && IsName(dstName)
      requires var v := View(db.fs, srcParent.id, srcParent.inode, dstParent.id, dstParent.inode);
               forall e | e in dstParent.inode.content.entries :: e.ino in v
      modifies db, srcParent, dstParent
      ensures db.Nested() && db.tombstones == old(db.tombstones)
      ensures var e := MoveError(srcParent.id, old(srcParent.inode), srcName, dstParent.id, old(dstParent.inode),
                                 dstName);
              r == if e.Some? then Err(e.value) else Ok(())
      ensures r.Err? ==>
                db.fs == old(db.fs) && srcParent.inode == old(srcParent.inode)
                && dstParent.inode == old(dstParent.inode)
      ensures r.Ok? ==> Relocated(old(db.fs), db.fs, srcParent.id, old(srcParent.inode), srcName,
                                  dstParent.id, old(dstParent.inode), dstName, srcParent.inode, dstParent.inode)
    {
      var srcDC := ReadDir(srcParent.inode);
      if srcDC.Err? { return Err(srcDC.error); }
      var src := Find(srcDC.value, srcName);
      if src.None? { return Err(NotFound); }
      if srcParent.id == dstParent.id && srcName == dstName { return Ok(()); }
      var over := Find(dstParent.inode.content.entries, dstName);
      if over.Some? && over.value.ino == src.value.ino { return Ok(()); }
      if over.Some? && over.value.kind != src.value.kind { return Err(TypeMismatch); }

      WriteListings(srcParent, srcName, dstParent, dstName);
      if over.Some? { ReleaseLink(over.value.ino); }
      return Ok(());
    }

    /** Both directory listings, rewritten and saved. */
    method WriteListings(srcParent: Handle, srcName: string, dstParent: Handle, dstName: string)
      requires srcParent.id == dstParent.id ==> srcParent == dstParent
      requires Movable(View(db.fs, srcParent.id, srcParent.inode, dstParent.id, dstParent.inode),
                       srcParent.id, srcName, dstParent.id, dstName)
      requires db.open
      modifies db, srcParent, dstParent
      ensures db.Nested() && db.tombstones == old(db.tombstones)
      ensures var v := View(old(db.fs), srcParent.id, old(srcParent.inode), dstParent.id, old(dstParent.inode));
              db.fs == MoveListings(v, srcParent.id, srcName, dstParent.id, dstName)
              && srcParent.inode == db.fs[srcParent.id] && dstParent.inode == db.fs[dstParent.id]
    {
      ListingsSaved(db.fs, srcParent.id, srcParent.inode, srcName, dstParent.id, dstParent.inode, dstName);
      var es := srcParent.inode.content.entries;
      var same := srcParent.id == dstParent.id;
      var moved := Find(es, srcName).value.(name := dstName);
      var newSrc, replaced := NewSourceEntries(es, srcName, moved, same);
      if same {
        if !replaced { newSrc := newSrc + [moved]; }
        assert newSrc == RenamedListing(es, srcName, moved);
        srcParent.inode := srcParent.inode.(content := Dir(newSrc));
        Save(srcParent);
      } else {
        var newDst := NewDestinationEntries(dstParent.inode.content.entries, dstName);
        newDst := newDst + [moved];
        assert newDst == [moved];
        srcParent.inode := srcParent.inode.(content := Dir(newSrc));
        Save(srcParent);
        dstParent.inode := dstParent.inode.(content := Dir(newDst));
        Save(dstParent);
      }
    }

    /** The overwritten inode loses its link. */
    method ReleaseLink(x: Id)
      requires db.open && x in db.fs
      modifies db
      ensures db.Nested() && db.tombstones == old(db.tombstones)
      ensures db.fs == Release(old(db.fs), x)
    {
      var o := GetByID(x);
      var overwritten := o.value;
      if overwritten.inode.nlink <= 1 {
        var _ := Delete(x);
      } else {
        overwritten.inode := overwritten.inode.(nlink := overwritten.inode.nlink - 1);
        Save(overwritten);
      }
    }

    /** The loop over the source listing. */
    method NewSourceEntries(es: seq<Entry>, sn: string, moved: Entry, same: bool)
        returns (out: seq<Entry>, replaced: bool)
      requires same ==> sn != moved.name
      ensures same ==> out == Renamed(es, sn, moved) && (replaced <==> Find(es, moved.name).Some?)
      ensures !same ==> out == Keep(es, {sn}) && !replaced
    {
      out, replaced := [], false;
      assert es[0..] == es;
      for i := 0 to |es|
        invariant out + Rewritten(es[i..], sn, moved, same) == Rewritten(es, sn, moved, same)
        invariant !same ==> !replaced
        invariant same ==> (Find(es, moved.name).Some? <==> replaced || Find(es[i..], moved.name).Some?)
      {
        var e := es[i];
        RewriteOne(es, i, sn, moved, same, out);
        if e.name == sn { continue; }
        if same && e.name == moved.name {
          out := out + [moved];
          replaced := true;
          continue;
        }
        out := out + [e];
      }
    }

    /** The loop over the destination listing: it visits every entry and keeps none. */
    method NewDestinationEntries(es: seq<Entry>, dn: string) returns (out: seq<Entry>)
      ensures out == []
    {
      out := [];
      for i := 0 to |es|
        invariant out == []
      {
        if es[i].name == dn { continue; }
      }
    }
  }
}

/** node.MoveEntry on the graph of links: what it keeps and what it loses. */
module Moves {
  import opened Paths
  import opened Inodes
  import opened Graph

  // ---------------------------------------------------------------- the listings it writes

  /** newSrcEntries when source and destination are one directory. */
  function Renamed(es: seq<Entry>, sn: string, e: Entry): seq<Entry> {
    if es == [] then []
    else if es[0].name == sn then Renamed(es[1..], sn, e)
    else if es[0].name == e.name then [e] + Renamed(es[1..], sn, e)
    else [es[0]] + Renamed(es[1..], sn, e)
  }

  function RenamedListing(es: seq<Entry>, sn: string, e: Entry): seq<Entry> {
    Renamed(es, sn, e) + if Find(es, e.name).Some? then [] else [e]
  }

  lemma {:induction false} RenamedFind(es: seq<Entry>, sn: string, e: Entry, m: string)
    requires sn != e.name
    ensures Find(Renamed(es, sn, e), m) ==
            if m == sn then None
            else if m == e.name then (if Find(es, m).Some? then Some(e) else None)
            else Find(es, m)
  {
    if es != [] { RenamedFind(es[1..], sn, e, m); }
  }

  /** An entry of the renamed listing is an old one, or the moved one in the place of
      the one it overwrites. */
  lemma {:induction false} RenamedFrom(es: seq<Entry>, sn: string, e: Entry, k: Entry)
    requires k in Renamed(es, sn, e)
    ensures (k in es && k.name != sn && k.name != e.name) || (k == e && Find(es, e.name).Some?)
  {
    var head, rest := if es[0].name == e.name then e else es[0], Renamed(es[1..], sn, e);
    if es[0].name == sn {
      RenamedFrom(es[1..], sn, e, k);
    } else if k != head {
      assert k in [head] + rest ==> k in rest;
      RenamedFrom(es[1..], sn, e, k);
    }
  }

  lemma {:induction false} RenamedUnique(es: seq<Entry>, sn: string, e: Entry)
    requires UniqueNames(es) && sn != e.name
    ensures UniqueNames(Renamed(es, sn, e))
  {
    if es != [] {
      RenamedUnique(es[1..], sn, e);
      if es[0].name != sn {
        var r, head := Renamed(es[1..], sn, e), if es[0].name == e.name then e else es[0];
        forall j | 0 <= j < |r| ensures r[j].name != head.name {
          RenamedFrom(es[1..], sn, e, r[j]);
        }
      }
    }
  }

  lemma RenamedMembers(es: seq<Entry>, sn: string, e: Entry)
    requires UniqueNames(es) && sn != e.name
    ensures UniqueNames(Renamed(es, sn, e))
    ensures forall k | k in Renamed(es, sn, e) ::
              (k in es && k.name != sn && k.name != e.name) || (k == e && Find(es, e.name).Some?)
  {
    RenamedUnique(es, sn, e);
    forall k | k in Renamed(es, sn, e)
      ensures (k in es && k.name != sn && k.name != e.name) || (k == e && Find(es, e.name).Some?)
    {
      RenamedFrom(es, sn, e, k);
    }
  }

  ghost predicate Movable(fs: FS, sp: Id, sn: string, dp: Id, dn: string) {
    sp in fs && fs[sp].IsDir() && dp in fs && fs[dp].IsDir()
    && Find(fs[sp].content.entries, sn).Some? && !(sp == dp && sn == dn) && IsName(dn)
  }

  function Moved(fs: FS, sp: Id, sn: string): Entry
    requires sp in fs && fs[sp].IsDir() && Find(fs[sp].content.entries, sn).Some?
  {
    Find(fs[sp].content.entries, sn).value
  }

  /** The two directories as MoveEntry saves them. Across directories the new
      destination listing starts empty and receives the moved entry alone. */
  function MoveListings(fs: FS, sp: Id, sn: string, dp: Id, dn: string): FS
    requires Movable(fs, sp, sn, dp, dn)
  {
    var e := Moved(fs, sp, sn).(name := dn);
    if sp == dp then
      fs[sp := fs[sp].(content := Dir(RenamedListing(fs[sp].content.entries, sn, e)))]
    else
      fs[sp := fs[sp].(content := Dir(Keep(fs[sp].content.entries, {sn})))]
        [dp := fs[dp].(content := Dir([e]))]
  }

  /** The overwritten inode loses a link, or goes. */
  function Release(fs: FS, x: Id): FS
    requires x in fs
  {
    if fs[x].nlink <= 1 then fs - {x} else fs[x := fs[x].(nlink := fs[x].nlink - 1)]
  }

  /** The store after a MoveEntry that does move. */
  function MoveResult(fs: FS, sp: Id, sn: string, dp: Id, dn: string): FS
    requires Movable(fs, sp, sn, dp, dn)
  {
    var gs := MoveListings(fs, sp, sn, dp, dn);
    var over := Find(fs[dp].content.entries, dn);
    if over.Some? && over.value.ino in gs then Release(gs, over.value.ino) else gs
  }

  // ---------------------------------------------------------------- row by row

  /** A listing without its i-th entry. */
  function Without(es: seq<Entry>, i: nat): seq<Entry>
    requires i < |es|
  {
    es[..i] + es[i + 1..]
  }

  /** A listing with e in the place of any entry of that name. */
  function Put(es: seq<Entry>, e: Entry): (r: seq<Entry>)
    ensures |r| == |es|
  {
    seq(|es|, k requires 0 <= k < |es| => if es[k].name == e.name then e else es[k])
  }

  lemma {:induction false} RenamedIsPut(es: seq<Entry>, sn: string, e: Entry)
    requires forall k | 0 <= k < |es| :: es[k].name != sn
    ensures Renamed(es, sn, e) == Put(es, e)
  {
    if es != [] {
      RenamedIsPut(es[1..], sn, e);
      assert Put(es, e) == [Put(es, e)[0]] + Put(es[1..], e);
    }
  }

  lemma {:induction false} RenamedConcat(a: seq<Entry>, b: seq<Entry>, sn: string, e: Entry)
    ensures Renamed(a + b, sn, e) == Renamed(a, sn, e) + Renamed(b, sn, e)
  {
    if a == [] {
      assert a + b == b;
    } else {
      assert (a + b)[0] == a[0] && (a + b)[1..] == a[1..] + b;
      RenamedConcat(a[1..], b, sn, e);
    }
  }

  /** The only entry of its name. */
  ghost predicate Alone(es: seq<Entry>, i: nat) {
    i < |es| && forall j | 0 <= j < |es| && j != i :: es[j].name != es[i].name
  }

  lemma RenamedIsWithout(es: seq<Entry>, i: nat, e: Entry)
    requires Alone(es, i)
    ensures Renamed(es, es[i].name, e) == Without(Put(es, e), i)
  {
    var sn := es[i].name;
    assert es == es[..i] + es[i..] && es[i..][1..] == es[i + 1..];
    RenamedConcat(es[..i], es[i..], sn, e);
    RenamedIsPut(es[..i], sn, e);
    RenamedIsPut(es[i + 1..], sn, e);
    assert Put(es, e)[..i] == Put(es[..i], e) && Put(es, e)[i + 1..] == Put(es[i + 1..], e);
  }

  lemma {:induction false} KeepConcat(a: seq<Entry>, b: seq<Entry>, drop: set<string>)
    ensures Keep(a + b, drop) == Keep(a, drop) + Keep(b, drop)
  {
    if a == [] {
      assert a + b == b;
    } else {
      assert (a + b)[0] == a[0] && (a + b)[1..] == a[1..] + b;
      KeepConcat(a[1..], b, drop);
    }
  }

  lemma KeepIsWithout(es: seq<Entry>, i: nat)
    requires Alone(es, i)
    ensures Keep(es, {es[i].name}) == Without(es, i)
  {
    var drop := {es[i].name};
    assert es == es[..i] + es[i..] && es[i..][1..] == es[i + 1..];
    KeepConcat(es[..i], es[i..], drop);
    KeepNone(es[..i], drop);
    KeepNone(es[i + 1..], drop);
  }

  /** The content of row y after the i-th entry of sp has moved to the name of e in dp. Another
      directory that receives it lists it alone. */
  function ContentAfter(fs: FS, y: Id, sp: Id, i: nat, dp: Id, e: Entry): Content
    requires y in fs && sp in fs && fs[sp].IsDir() && i < |fs[sp].content.entries|
  {
    var es := fs[sp].content.entries;
    if y != sp && y != dp then fs[y].content
    else if y != sp then Dir([e])
    else if y != dp then Dir(Without(es, i))
    else Dir(Without(Put(es, e), i) + if Find(es, e.name).None? then [e] else [])
  }

  /** A move, row by row: o, the inode overwritten, has a link less, or is gone with its last
      one; listings other than those of both ends, and everything else, are as before. */
  ghost predicate EntryMoved(fs: FS, gs: FS, sp: Id, i: nat, dp: Id, e: Entry, o: Option<Id>) {
    sp in fs && fs[sp].IsDir() && i < |fs[sp].content.entries|
    && (forall y | y in fs :: y in gs <==> !(o == Some(y) && fs[y].nlink <= 1))
    && forall y | y in gs ::
         y in fs && gs[y].nlink == fs[y].nlink - (if o == Some(y) then 1 else 0)
         && gs[y].content == ContentAfter(fs, y, sp, i, dp, e)
  }

  lemma ListingsRows(fs: FS, sp: Id, sn: string, dp: Id, dn: string, i: nat, e: Entry)
    requires WellFormed(fs) && Movable(fs, sp, sn, dp, dn)
    requires i == Index(fs[sp].content.entries, sn) && e == fs[sp].content.entries[i].(name := dn)
    ensures MoveListings(fs, sp, sn, dp, dn).Keys == fs.Keys
    ensures forall y | y in fs ::
              MoveListings(fs, sp, sn, dp, dn)[y] == Inode(fs[y].nlink, ContentAfter(fs, y, sp, i, dp, e))
  {
    var es := fs[sp].content.entries;
    if sp == dp { RenamedIsWithout(es, i, e); } else { KeepIsWithout(es, i); }
  }

  lemma MoveRows(fs: FS, sp: Id, sn: string, dp: Id, dn: string)
    requires WellFormed(fs) && Movable(fs, sp, sn, dp, dn)
    ensures var i := Index(fs[sp].content.entries, sn);
            EntryMoved(fs, MoveResult(fs, sp, sn, dp, dn), sp, i, dp, fs[sp].content.entries[i].(name := dn),
                       Child(fs, dp, dn))
  {
    var i := Index(fs[sp].content.entries, sn);
    ListingsRows(fs, sp, sn, dp, dn, i, fs[sp].content.entries[i].(name := dn));
  }

  /** Entries of the destination directory that the move drops. */
  ghost function Dropped(fs: FS, sp: Id, dp: Id, dn: string): set<Link> {
    set l | l in Links(fs) && l.dir == dp && (sp == dp ==> l.name == dn)
  }

  lemma MoveLinks(fs: FS, sp: Id, sn: string, dp: Id, dn: string)
    requires Movable(fs, sp, sn, dp, dn)
    ensures var x := Moved(fs, sp, sn).ino;
            Links(MoveListings(fs, sp, sn, dp, dn)) ==
              Links(fs) - ({Link(sp, sn, x)} + Dropped(fs, sp, dp, dn)) + {Link(dp, dn, x)}
  {
    forall l {
      MoveLink(fs, sp, sn, dp, dn, l);
    }
  }

  lemma MoveLink(fs: FS, sp: Id, sn: string, dp: Id, dn: string, l: Link)
    requires Movable(fs, sp, sn, dp, dn)
    ensures var x := Moved(fs, sp, sn).ino;
            HasLink(MoveListings(fs, sp, sn, dp, dn), l) <==>
              (HasLink(fs, l) && l != Link(sp, sn, x) && !(l.dir == dp && (sp == dp ==> l.name == dn)))
              || l == Link(dp, dn, x)
  {
    var e := Moved(fs, sp, sn).(name := dn);
    if sp == dp {
      RenamedFind(fs[sp].content.entries, sn, e, l.name);
      if Find(fs[sp].content.entries, dn).None? {
        FindAppend(Renamed(fs[sp].content.entries, sn, e), e, l.name);
      } else {
        assert RenamedListing(fs[sp].content.entries, sn, e) == Renamed(fs[sp].content.entries, sn, e);
      }
    } else if l.dir == dp {
      assert [e][1..] == [];
    } else if l.dir == sp {
      FindKeep(fs[sp].content.entries, {sn}, l.name);
    }
  }

  lemma MoveCount(fs: FS, sp: Id, sn: string, dp: Id, dn: string, y: Id)
    requires Movable(fs, sp, sn, dp, dn)
    ensures |To(Links(MoveListings(fs, sp, sn, dp, dn)), y)| == |To(Links(fs), y)| - |To(Dropped(fs, sp, dp, dn), y)|
  {
    var x := Moved(fs, sp, sn).ino;
    var src, dst, dd := Link(sp, sn, x), Link(dp, dn, x), Dropped(fs, sp, dp, dn);
    MoveLinks(fs, sp, sn, dp, dn);
    assert HasLink(fs, src);
    MoveCountSets(Links(fs), dd, src, dst, y);
  }

  lemma MoveCountSets(links: set<Link>, dd: set<Link>, src: Link, dst: Link, y: Id)
    requires dd <= links && src in links && src !in dd && dst.ino == src.ino
    requires dst in links ==> dst in dd
    ensures |To(links - ({src} + dd) + {dst}, y)| == |To(links, y)| - |To(dd, y)|
  {
    ToMinus(links, {src} + dd, y);
    ToPlus({src}, dd, y);
    ToPlus(links - ({src} + dd), {dst}, y);
    ToOne(src, y);
    ToOne(dst, y);
  }

  // ---------------------------------------------------------------- invariants of the listings

  /** The same rows but for what directories list. */
  ghost predicate SameRows(fs: FS, gs: FS) {
    gs.Keys == fs.Keys
    && forall x | x in fs ::
         gs[x].nlink == fs[x].nlink && gs[x].Kind() == fs[x].Kind()
         && gs[x].IsDir() == fs[x].IsDir() && gs[x].Regular() == fs[x].Regular()
  }

  lemma MoveSameRows(fs: FS, sp: Id, sn: string, dp: Id, dn: string)
    requires Movable(fs, sp, sn, dp, dn)
    ensures SameRows(fs, MoveListings(fs, sp, sn, dp, dn))
  {
  }

  lemma ListingSameRows(fs: FS, gs: FS, es: seq<Entry>)
    requires SameRows(fs, gs) && ListingOk(fs, es)
    ensures ListingOk(gs, es)
  {
  }

  lemma RootsSameRows(fs: FS, gs: FS, roots: map<DriveId, Id>)
    requires SameRows(fs, gs) && RootsOk(fs, roots) && forall l | l in Links(gs) :: !IsRoot(roots, l.ino)
    ensures RootsOk(gs, roots)
  {
  }

  lemma CountsSameRows(fs: FS, gs: FS, roots: map<DriveId, Id>)
    requires SameRows(fs, gs) && CountsOk(fs, roots)
    requires forall x | x in fs :: |To(Links(gs), x)| <= |To(Links(fs), x)|
    ensures CountsOk(gs, roots)
  {
  }

  lemma RenamedListingOk(fs: FS, es: seq<Entry>, sn: string, e: Entry)
    requires ListingOk(fs, es) && ListingOk(fs, [e]) && sn != e.name
    ensures ListingOk(fs, RenamedListing(es, sn, e))
  {
    RenamedMembers(es, sn, e);
    assert e in [e];
    var r := Renamed(es, sn, e);
    if Find(es, e.name).None? {
      forall i | 0 <= i < |r| ensures r[i].name != e.name { assert r[i] in r; }
    } else {
      assert RenamedListing(es, sn, e) == r;
    }
  }

  lemma KeptListingOk(fs: FS, es: seq<Entry>, drop: set<string>)
    requires ListingOk(fs, es)
    ensures ListingOk(fs, Keep(es, drop))
  {
    KeepUnique(es, drop);
  }

  lemma MovedEntryOk(fs: FS, sp: Id, sn: string, dn: string)
    requires WellFormed(fs) && sp in fs && fs[sp].IsDir() && Find(fs[sp].content.entries, sn).Some? && IsName(dn)
    ensures ListingOk(fs, [Moved(fs, sp, sn).(name := dn)])
  {
    assert Moved(fs, sp, sn) in fs[sp].content.entries;
  }

  /** What a directory lists after the move is a good listing of the old store. */
  lemma MovedListingOk(fs: FS, sp: Id, sn: string, dp: Id, dn: string, d: Id)
    requires Movable(fs, sp, sn, dp, dn) && d in fs && fs[d].IsDir() && ListingOk(fs, fs[d].content.entries)
    requires ListingOk(fs, [Moved(fs, sp, sn).(name := dn)])
    ensures ListingOk(fs, MoveListings(fs, sp, sn, dp, dn)[d].content.entries)
  {
    if d == sp == dp {
      RenamedListingOk(fs, fs[sp].content.entries, sn, Moved(fs, sp, sn).(name := dn));
    } else if d == sp {
      KeptListingOk(fs, fs[sp].content.entries, {sn});
    }
  }

  lemma MoveWellFormed(fs: FS, sp: Id, sn: string, dp: Id, dn: string)
    requires WellFormed(fs) && Movable(fs, sp, sn, dp, dn)
    ensures WellFormed(MoveListings(fs, sp, sn, dp, dn))
  {
    var gs := MoveListings(fs, sp, sn, dp, dn);
    MoveSameRows(fs, sp, sn, dp, dn);
    MovedEntryOk(fs, sp, sn, dn);
    forall d | d in gs && gs[d].IsDir() ensures ListingOk(gs, gs[d].content.entries) {
      MovedListingOk(fs, sp, sn, dp, dn, d);
      ListingSameRows(fs, gs, gs[d].content.entries);
    }
  }

  /** Source and destination directories belong to one drive. */
  lemma MoveListingsKeepInv(fs: FS, roots: map<DriveId, Id>, owner: map<Id, DriveId>,
                            sp: Id, sn: string, dp: Id, dn: string)
    requires Inv(fs, roots, owner) && Movable(fs, sp, sn, dp, dn) && owner[sp] == owner[dp]
    ensures Inv(MoveListings(fs, sp, sn, dp, dn), roots, owner)
  {
    MoveWellFormed(fs, sp, sn, dp, dn);
    MoveRoots(fs, roots, sp, sn, dp, dn);
    MoveOwners(fs, roots, owner, sp, sn, dp, dn);
    MoveCounts(fs, roots, sp, sn, dp, dn);
  }

  lemma MoveCounts(fs: FS, roots: map<DriveId, Id>, sp: Id, sn: string, dp: Id, dn: string)
    requires CountsOk(fs, roots) && Movable(fs, sp, sn, dp, dn)
    ensures CountsOk(MoveListings(fs, sp, sn, dp, dn), roots)
  {
    var gs := MoveListings(fs, sp, sn, dp, dn);
    forall x | x in fs ensures |To(Links(gs), x)| <= |To(Links(fs), x)| {
      MoveCount(fs, sp, sn, dp, dn, x);
    }
    MoveSameRows(fs, sp, sn, dp, dn);
    CountsSameRows(fs, gs, roots);
  }

  lemma MoveRoots(fs: FS, roots: map<DriveId, Id>, sp: Id, sn: string, dp: Id, dn: string)
    requires RootsOk(fs, roots) && Movable(fs, sp, sn, dp, dn)
    ensures RootsOk(MoveListings(fs, sp, sn, dp, dn), roots)
  {
    assert HasLink(fs, Link(sp, sn, Moved(fs, sp, sn).ino));
    forall l | l in Links(MoveListings(fs, sp, sn, dp, dn)) ensures !IsRoot(roots, l.ino) {
      MoveLink(fs, sp, sn, dp, dn, l);
    }
    MoveSameRows(fs, sp, sn, dp, dn);
    RootsSameRows(fs, MoveListings(fs, sp, sn, dp, dn), roots);
  }

  lemma MoveOwners(fs: FS, roots: map<DriveId, Id>, owner: map<Id, DriveId>,
                   sp: Id, sn: string, dp: Id, dn: string)
    requires OwnersOk(fs, roots, owner) && Movable(fs, sp, sn, dp, dn) && owner[sp] == owner[dp]
    ensures OwnersOk(MoveListings(fs, sp, sn, dp, dn), roots, owner)
  {
    assert HasLink(fs, Link(sp, sn, Moved(fs, sp, sn).ino));
    forall l | l in Links(MoveListings(fs, sp, sn, dp, dn))
      ensures l.dir in owner && l.ino in owner && owner[l.ino] == owner[l.dir]
    {
      MoveLink(fs, sp, sn, dp, dn, l);
    }
  }

  // ---------------------------------------------------------------- removing rows nobody names

  ghost predicate Unnamed(fs: FS, roots: map<DriveId, Id>, gone: set<Id>) {
    forall x | x in gone :: !IsRoot(roots, x) && forall l | l in Links(fs) :: l.ino != x
  }

  lemma DropRowsLinks(fs: FS, gone: set<Id>, l: Link)
    ensures l in Links(fs - gone) <==> l in Links(fs) && l.dir !in gone
  {
  }

  lemma DropRowsKeepInv(fs: FS, roots: map<DriveId, Id>, owner: map<Id, DriveId>, gone: set<Id>)
    requires Inv(fs, roots, owner) && Unnamed(fs, roots, gone)
    ensures Inv(fs - gone, roots, owner)
  {
    var gs := fs - gone;
    assert Links(gs) <= Links(fs);
    forall d | d in gs && gs[d].IsDir() ensures ListingOk(gs, gs[d].content.entries) {
      assert ListingOk(fs, fs[d].content.entries);
      forall e | e in gs[d].content.entries ensures e.ino in gs {
        FindUnique(fs[d].content.entries, e);
        assert Link(d, e.name, e.ino) in Links(fs);
      }
    }
    assert RootsOk(gs, roots) by {
      forall d | d in roots ensures roots[d] in gs { assert IsRoot(roots, roots[d]); }
    }
    forall x | x in gs && !IsRoot(roots, x) ensures CountOk(gs[x], |To(Links(gs), x)|) {
      ToMono(Links(gs), Links(fs), x);
    }
  }

  // ---------------------------------------------------------------- releasing what was overwritten

  lemma OverwrittenDropped(fs: FS, sp: Id, dp: Id, dn: string)
    requires dp in fs && fs[dp].IsDir() && Find(fs[dp].content.entries, dn).Some?
    ensures var o := Find(fs[dp].content.entries, dn).value.ino;
            Link(dp, dn, o) in Dropped(fs, sp, dp, dn) && |To(Dropped(fs, sp, dp, dn), o)| >= 1
  {
    var o := Find(fs[dp].content.entries, dn).value.ino;
    var l := Link(dp, dn, o);
    assert HasLink(fs, l);
    ToMono({l}, Dropped(fs, sp, dp, dn), o);
    ToOne(l, o);
  }

  lemma ReleaseLinks(fs: FS, x: Id)
    requires x in fs
    ensures fs[x].nlink > 1 ==> Links(Release(fs, x)) == Links(fs)
    ensures Links(Release(fs, x)) <= Links(fs)
  {
    forall l ensures l in Links(Release(fs, x)) ==> l in Links(fs)
             ensures fs[x].nlink > 1 && l in Links(fs) ==> l in Links(Release(fs, x)) {
      if fs[x].nlink <= 1 { DropRowsLinks(fs, {x}, l); }
    }
  }

  lemma ReleaseKeepsInv(fs: FS, roots: map<DriveId, Id>, owner: map<Id, DriveId>, x: Id)
    requires Inv(fs, roots, owner) && x in fs && !IsRoot(roots, x) && |To(Links(fs), x)| < fs[x].nlink
    ensures Inv(Release(fs, x), roots, owner)
  {
    if fs[x].nlink <= 1 {
      UncountedIsUnnamed(fs, roots, x);
      DropRowsKeepInv(fs, roots, owner, {x});
    } else {
      ReleaseDecrementKeepsInv(fs, roots, owner, x);
    }
  }

  lemma UncountedIsUnnamed(fs: FS, roots: map<DriveId, Id>, x: Id)
    requires |To(Links(fs), x)| == 0 && !IsRoot(roots, x)
    ensures Unnamed(fs, roots, {x})
  {
    forall l | l in Links(fs) ensures l.ino != x {
      assert l !in To(Links(fs), x);
    }
  }

  lemma ReleaseDecrementKeepsInv(fs: FS, roots: map<DriveId, Id>, owner: map<Id, DriveId>, x: Id)
    requires Inv(fs, roots, owner) && x in fs && !IsRoot(roots, x)
    requires |To(Links(fs), x)| < fs[x].nlink && fs[x].nlink > 1
    ensures Inv(Release(fs, x), roots, owner)
  {
    var gs := Release(fs, x);
    ReleaseSameShape(fs, x);
    forall y | y in fs && !IsRoot(roots, y)
      ensures |To(Links(fs), y)| <= gs[y].nlink <= fs[y].nlink && gs[y].nlink >= 1
    {
      assert CountOk(fs[y], |To(Links(fs), y)|);
    }
    SameShapeKeepsInv(fs, gs, roots, owner);
  }

  lemma ReleaseSameShape(fs: FS, x: Id)
    requires x in fs && fs[x].nlink > 1
    ensures SameShape(fs, Release(fs, x))
    ensures forall y | y in fs :: Release(fs, x)[y].nlink == if y == x then fs[y].nlink - 1 else fs[y].nlink
  {
  }

  lemma MoveKeepsInv(fs: FS, roots: map<DriveId, Id>, owner: map<Id, DriveId>,
                     sp: Id, sn: string, dp: Id, dn: string)
    requires Inv(fs, roots, owner) && Movable(fs, sp, sn, dp, dn) && owner[sp] == owner[dp]
    ensures Inv(MoveResult(fs, sp, sn, dp, dn), roots, owner)
  {
    MoveListingsKeepInv(fs, roots, owner, sp, sn, dp, dn);
    if Find(fs[dp].content.entries, dn).Some? {
      MoveOverwritten(fs, roots, owner, sp, sn, dp, dn);
      ReleaseKeepsInv(MoveListings(fs, sp, sn, dp, dn), roots, owner, Find(fs[dp].content.entries, dn).value.ino);
    }
  }

  lemma MoveOverwritten(fs: FS, roots: map<DriveId, Id>, owner: map<Id, DriveId>,
                        sp: Id, sn: string, dp: Id, dn: string)
    requires Inv(fs, roots, owner) && Movable(fs, sp, sn, dp, dn)
    requires Find(fs[dp].content.entries, dn).Some?
    ensures var o, gs := Find(fs[dp].content.entries, dn).value.ino, MoveListings(fs, sp, sn, dp, dn);
            o in gs && !IsRoot(roots, o) && |To(Links(gs), o)| < gs[o].nlink
  {
    var o := Find(fs[dp].content.entries, dn).value.ino;
    var l := Link(dp, dn, o);
    assert l in Links(fs);
    LinkTarget(fs, l);
    OverwrittenDropped(fs, sp, dp, dn);
    MoveUndercounts(fs, roots, sp, sn, dp, dn, o);
  }

  lemma MoveNlink(fs: FS, sp: Id, sn: string, dp: Id, dn: string, y: Id)
    requires Movable(fs, sp, sn, dp, dn) && y in fs
    ensures y in MoveListings(fs, sp, sn, dp, dn) && MoveListings(fs, sp, sn, dp, dn)[y].nlink == fs[y].nlink
  {
  }

  /** An inode one of whose entries is dropped has more links than entries. */
  lemma MoveUndercounts(fs: FS, roots: map<DriveId, Id>, sp: Id, sn: string, dp: Id, dn: string, y: Id)
    requires CountsOk(fs, roots) && Movable(fs, sp, sn, dp, dn) && y in fs && !IsRoot(roots, y)
    requires |To(Dropped(fs, sp, dp, dn), y)| >= 1
    ensures var gs := MoveListings(fs, sp, sn, dp, dn); y in gs && |To(Links(gs), y)| < gs[y].nlink
  {
    assert CountOk(fs[y], |To(Links(fs), y)|);
    MoveNlink(fs, sp, sn, dp, dn, y);
    MoveCount(fs, sp, sn, dp, dn, y);
  }

  // ---------------------------------------------------------------- when nothing is lost

  /** The move drops no entry: a destination in another directory lists at most the
      overwritten name, and an overwritten directory has nothing left in it. */
  ghost predicate Lossless(fs: FS, sp: Id, sn: string, dp: Id, dn: string)
    requires Movable(fs, sp, sn, dp, dn)
  {
    (sp != dp ==> forall e | e in fs[dp].content.entries :: e.name == dn)
    && var over := Find(fs[dp].content.entries, dn);
       over.Some? && over.value.ino in fs && fs[over.value.ino].IsDir() ==>
         over.value.ino != dp
         && forall k | k in fs[over.value.ino].content.entries :: over.value.ino == sp && k.name == sn
  }

  ghost predicate CountIs(fs: FS, x: Id) { x in fs && |To(Links(fs), x)| == fs[x].nlink }

  /** Some inode that stays has more links on record than entries. */
  ghost predicate LinkLost(fs: FS, roots: map<DriveId, Id>) {
    exists x | x in fs && !IsRoot(roots, x) :: |To(Links(fs), x)| < fs[x].nlink
  }

  lemma DropRowsCount(fs: FS, o: Id, y: Id)
    ensures |To(Links(fs - {o}), y)| <= |To(Links(fs), y)|
    ensures (forall l | l in Links(fs) :: l.dir != o) ==> |To(Links(fs - {o}), y)| == |To(Links(fs), y)|
  {
    forall l ensures l in Links(fs - {o}) <==> l in Links(fs) && l.dir != o { DropRowsLinks(fs, {o}, l); }
    ToMono(Links(fs - {o}), Links(fs), y);
    if forall l | l in Links(fs) :: l.dir != o { assert Links(fs - {o}) == Links(fs); }
  }

  /** How many entries name y after the move. */
  lemma MoveResultCount(fs: FS, sp: Id, sn: string, dp: Id, dn: string, y: Id)
    requires Movable(fs, sp, sn, dp, dn)
    ensures |To(Links(MoveResult(fs, sp, sn, dp, dn)), y)| <= |To(Links(fs), y)| - |To(Dropped(fs, sp, dp, dn), y)|
  {
    MoveCount(fs, sp, sn, dp, dn, y);
    var gs := MoveListings(fs, sp, sn, dp, dn);
    var over := Find(fs[dp].content.entries, dn);
    if over.Some? && over.value.ino in gs {
      ReleaseLinks(gs, over.value.ino);
      ToMono(Links(Release(gs, over.value.ino)), Links(gs), y);
    }
  }

  lemma MoveResultRow(fs: FS, sp: Id, sn: string, dp: Id, dn: string, y: Id)
    requires WellFormed(fs) && Movable(fs, sp, sn, dp, dn) && y in fs
    ensures var hs, over := MoveResult(fs, sp, sn, dp, dn), Find(fs[dp].content.entries, dn);
            if over.Some? && over.value.ino == y then
              if fs[y].nlink <= 1 then y !in hs else y in hs && hs[y].nlink == fs[y].nlink - 1
            else y in hs && hs[y].nlink == fs[y].nlink && hs[y].IsDir() == fs[y].IsDir()
  {
    var gs, over := MoveListings(fs, sp, sn, dp, dn), Find(fs[dp].content.entries, dn);
    MoveNlink(fs, sp, sn, dp, dn, y);
    assert gs[y].IsDir() == fs[y].IsDir();
    if over.Some? && over.value.ino in gs { ReleaseRow(gs, over.value.ino, y); }
  }

  lemma ReleaseRow(fs: FS, o: Id, y: Id)
    requires o in fs && y in fs
    ensures y != o ==> y in Release(fs, o) && Release(fs, o)[y] == fs[y]
    ensures y == o ==> if fs[y].nlink <= 1 then y !in Release(fs, o)
                       else y in Release(fs, o) && Release(fs, o)[y].nlink == fs[y].nlink - 1
  {
  }

  lemma EntryCount(fs: FS, roots: map<DriveId, Id>, owner: map<Id, DriveId>, l: Link)
    requires Inv(fs, roots, owner) && Exact(fs, roots) && l in Links(fs)
    ensures !IsRoot(roots, l.ino) && CountIs(fs, l.ino)
  {
    LinkTarget(fs, l);
  }

  lemma DroppedTwice(dd: set<Link>, k: Link, l: Link)
    requires k in dd && l in dd && k != l
    ensures |To(dd, l.ino)| >= if k.ino == l.ino then 2 else 1
  {
    ToMono({k} + {l}, dd, l.ino);
    ToPlus({k}, {l}, l.ino);
    ToOne(k, l.ino);
    ToOne(l, l.ino);
  }

  /** An entry dropped from the destination leaves its inode with a link too many. */
  lemma DroppedIsLost(fs: FS, roots: map<DriveId, Id>, sp: Id, sn: string, dp: Id, dn: string, l: Link)
    requires WellFormed(fs) && Movable(fs, sp, sn, dp, dn)
    requires l in Dropped(fs, sp, dp, dn) && l.name != dn && !IsRoot(roots, l.ino) && CountIs(fs, l.ino)
    ensures LinkLost(MoveResult(fs, sp, sn, dp, dn), roots)
  {
    var y, dd := l.ino, Dropped(fs, sp, dp, dn);
    MoveResultCount(fs, sp, sn, dp, dn, y);
    MoveResultRow(fs, sp, sn, dp, dn, y);
    ToMono(dd, Links(fs), y);
    ToProper(dd, {}, l);
    var over := Find(fs[dp].content.entries, dn);
    if over.Some? && over.value.ino == y {
      OverwrittenDropped(fs, sp, dp, dn);
      DroppedTwice(dd, Link(dp, dn, y), l);
    }
  }

  /** So does an entry of a directory that the move deletes. */
  lemma DeletedIsLost(fs: FS, roots: map<DriveId, Id>, sp: Id, sn: string, dp: Id, dn: string, l: Link)
    requires WellFormed(fs) && Movable(fs, sp, sn, dp, dn)
    requires var over := Find(fs[dp].content.entries, dn);
             over.Some? && over.value.ino == l.dir && l.dir in fs && fs[l.dir].nlink <= 1 && l.ino != l.dir
    requires l in Links(MoveListings(fs, sp, sn, dp, dn)) && !IsRoot(roots, l.ino) && CountIs(fs, l.ino)
    ensures LinkLost(MoveResult(fs, sp, sn, dp, dn), roots)
  {
    MoveResultRow(fs, sp, sn, dp, dn, l.ino);
    MoveCount(fs, sp, sn, dp, dn, l.ino);
    MoveDeletes(fs, sp, sn, dp, dn);
    DropRowsLoses(MoveListings(fs, sp, sn, dp, dn), l);
  }

  lemma MoveDeletes(fs: FS, sp: Id, sn: string, dp: Id, dn: string)
    requires Movable(fs, sp, sn, dp, dn)
    requires var over := Find(fs[dp].content.entries, dn);
             over.Some? && over.value.ino in fs && fs[over.value.ino].nlink <= 1
    ensures MoveResult(fs, sp, sn, dp, dn) ==
            MoveListings(fs, sp, sn, dp, dn) - {Find(fs[dp].content.entries, dn).value.ino}
  {
  }

  lemma DropRowsLoses(fs: FS, l: Link)
    requires l in Links(fs)
    ensures |To(Links(fs - {l.dir}), l.ino)| < |To(Links(fs), l.ino)|
  {
    forall k ensures k in Links(fs - {l.dir}) <==> k in Links(fs) && k.dir != l.dir { DropRowsLinks(fs, {l.dir}, k); }
    ToProper(Links(fs), Links(fs - {l.dir}), l);
  }

  lemma NotLosslessLoses(fs: FS, roots: map<DriveId, Id>, owner: map<Id, DriveId>,
                         sp: Id, sn: string, dp: Id, dn: string)
    requires Inv(fs, roots, owner) && Exact(fs, roots) && Movable(fs, sp, sn, dp, dn)
    requires !Lossless(fs, sp, sn, dp, dn)
    ensures LinkLost(MoveResult(fs, sp, sn, dp, dn), roots)
  {
    if e :| sp != dp && e in fs[dp].content.entries && e.name != dn {
      FindUnique(fs[dp].content.entries, e);
      var l := Link(dp, e.name, e.ino);
      assert HasLink(fs, l);
      EntryCount(fs, roots, owner, l);
      DroppedIsLost(fs, roots, sp, sn, dp, dn, l);
    } else {
      NotLosslessDeletes(fs, roots, owner, sp, sn, dp, dn);
    }
  }

  lemma NotLosslessDeletes(fs: FS, roots: map<DriveId, Id>, owner: map<Id, DriveId>,
                           sp: Id, sn: string, dp: Id, dn: string)
    requires Inv(fs, roots, owner) && Exact(fs, roots) && Movable(fs, sp, sn, dp, dn)
    requires !Lossless(fs, sp, sn, dp, dn)
    requires sp != dp ==> forall e | e in fs[dp].content.entries :: e.name == dn
    ensures LinkLost(MoveResult(fs, sp, sn, dp, dn), roots)
  {
    var src := Link(sp, sn, Moved(fs, sp, sn).ino);
    assert HasLink(fs, src);
    EntryCount(fs, roots, owner, src);
    var l := LostFromDeleted(fs, sp, sn, dp, dn);
    if l.ino != src.ino { EntryCount(fs, roots, owner, l); }
    MoveOverwritten(fs, roots, owner, sp, sn, dp, dn);
    OverwrittenDirectory(fs, roots, owner, sp, sn, dp, dn, l);
    DeletedIsLost(fs, roots, sp, sn, dp, dn, l);
  }

  lemma OverwrittenDirectory(fs: FS, roots: map<DriveId, Id>, owner: map<Id, DriveId>,
                             sp: Id, sn: string, dp: Id, dn: string, l: Link)
    requires Inv(fs, roots, owner) && Movable(fs, sp, sn, dp, dn)
    requires var over := Find(fs[dp].content.entries, dn);
             over.Some? && over.value.ino in fs && fs[over.value.ino].IsDir() && !IsRoot(roots, over.value.ino)
             && over.value.ino == l.dir
    requires l in Links(MoveListings(fs, sp, sn, dp, dn))
    ensures fs[l.dir].nlink <= 1 && l.ino != l.dir
  {
    var o, gs := l.dir, MoveListings(fs, sp, sn, dp, dn);
    assert CountOk(fs[o], |To(Links(fs), o)|);
    MoveCount(fs, sp, sn, dp, dn, o);
    OverwrittenDropped(fs, sp, dp, dn);
    ToMono(Dropped(fs, sp, dp, dn), Links(fs), o);
    if l.ino == o { ToProper(Links(gs), {}, l); }
  }

  lemma LostFromDeleted(fs: FS, sp: Id, sn: string, dp: Id, dn: string) returns (l: Link)
    requires WellFormed(fs) && Movable(fs, sp, sn, dp, dn) && !Lossless(fs, sp, sn, dp, dn)
    requires sp != dp ==> forall e | e in fs[dp].content.entries :: e.name == dn
    ensures l.dir == Find(fs[dp].content.entries, dn).value.ino
    ensures l in Links(MoveListings(fs, sp, sn, dp, dn))
    ensures l in Links(fs) || l.ino == Moved(fs, sp, sn).ino
    ensures l.dir in fs && fs[l.dir].IsDir()
  {
    var o := Find(fs[dp].content.entries, dn).value.ino;
    if o == dp {
      l := Link(dp, dn, Moved(fs, sp, sn).ino);
    } else {
      var k :| k in fs[o].content.entries && !(o == sp && k.name == sn);
      FindUnique(fs[o].content.entries, k);
      l := Link(o, k.name, k.ino);
      assert HasLink(fs, l);
    }
    MoveLink(fs, sp, sn, dp, dn, l);
  }

  lemma LosslessDrops(fs: FS, sp: Id, sn: string, dp: Id, dn: string, y: Id)
    requires Movable(fs, sp, sn, dp, dn) && Lossless(fs, sp, sn, dp, dn)
    ensures var over := Find(fs[dp].content.entries, dn);
            |To(Dropped(fs, sp, dp, dn), y)| == if over.Some? && over.value.ino == y then 1 else 0
  {
    var over := Find(fs[dp].content.entries, dn);
    if over.Some? {
      var l := Link(dp, dn, over.value.ino);
      assert HasLink(fs, l);
      assert Dropped(fs, sp, dp, dn) == {l};
      ToOne(l, y);
    } else {
      assert Dropped(fs, sp, dp, dn) == {};
      assert To({}, y) == {};
    }
  }

  lemma LosslessKeepsCount(fs: FS, roots: map<DriveId, Id>, sp: Id, sn: string, dp: Id, dn: string, y: Id)
    requires WellFormed(fs) && CountIs(fs, y) && Movable(fs, sp, sn, dp, dn) && Lossless(fs, sp, sn, dp, dn)
    requires y in MoveResult(fs, sp, sn, dp, dn)
    ensures CountIs(MoveResult(fs, sp, sn, dp, dn), y)
  {
    MoveCount(fs, sp, sn, dp, dn, y);
    LosslessDrops(fs, sp, sn, dp, dn, y);
    MoveResultRow(fs, sp, sn, dp, dn, y);
    LosslessReleases(fs, sp, sn, dp, dn, y);
  }

  /** Releasing the overwritten inode drops no further entry. */
  lemma LosslessReleases(fs: FS, sp: Id, sn: string, dp: Id, dn: string, y: Id)
    requires Movable(fs, sp, sn, dp, dn) && Lossless(fs, sp, sn, dp, dn)
    ensures |To(Links(MoveResult(fs, sp, sn, dp, dn)), y)| == |To(Links(MoveListings(fs, sp, sn, dp, dn)), y)|
  {
    var gs, over := MoveListings(fs, sp, sn, dp, dn), Find(fs[dp].content.entries, dn);
    if over.Some? && over.value.ino in gs {
      var o := over.value.ino;
      ReleaseLinks(gs, o);
      if gs[o].nlink <= 1 {
        LosslessDeletesEmpty(fs, sp, sn, dp, dn, o);
        DropRowsCount(gs, o, y);
      }
    }
  }

  lemma LosslessDeletesEmpty(fs: FS, sp: Id, sn: string, dp: Id, dn: string, o: Id)
    requires Movable(fs, sp, sn, dp, dn) && Lossless(fs, sp, sn, dp, dn)
    requires Find(fs[dp].content.entries, dn).Some? && o == Find(fs[dp].content.entries, dn).value.ino
    ensures forall l | l in Links(MoveListings(fs, sp, sn, dp, dn)) :: l.dir != o
  {
    forall l | l in Links(MoveListings(fs, sp, sn, dp, dn)) ensures l.dir != o {
      MoveLink(fs, sp, sn, dp, dn, l);
    }
  }

  lemma LosslessKeepsExact(fs: FS, roots: map<DriveId, Id>, sp: Id, sn: string, dp: Id, dn: string)
    requires WellFormed(fs) && Exact(fs, roots) && Movable(fs, sp, sn, dp, dn) && Lossless(fs, sp, sn, dp, dn)
    ensures Exact(MoveResult(fs, sp, sn, dp, dn), roots)
  {
    var hs := MoveResult(fs, sp, sn, dp, dn);
    ResultRows(fs, sp, sn, dp, dn);
    forall y | y in hs && !IsRoot(roots, y) ensures CountIs(hs, y) {
      assert CountIs(fs, y);
      LosslessKeepsCount(fs, roots, sp, sn, dp, dn, y);
    }
  }

  lemma ResultRows(fs: FS, sp: Id, sn: string, dp: Id, dn: string)
    requires Movable(fs, sp, sn, dp, dn)
    ensures MoveResult(fs, sp, sn, dp, dn).Keys <= fs.Keys
  {
  }

  lemma LinkLostIsInexact(fs: FS, roots: map<DriveId, Id>)
    requires LinkLost(fs, roots)
    ensures !Exact(fs, roots)
  {
  }

  /** Exact link counts survive a move exactly when it is lossless. */
  lemma MoveKeepsExact(fs: FS, roots: map<DriveId, Id>, owner: map<Id, DriveId>,
                       sp: Id, sn: string, dp: Id, dn: string)
    requires Inv(fs, roots, owner) && Exact(fs, roots) && Movable(fs, sp, sn, dp, dn)
    ensures Exact(MoveResult(fs, sp, sn, dp, dn), roots) <==> Lossless(fs, sp, sn, dp, dn)
  {
    if Lossless(fs, sp, sn, dp, dn) {
      LosslessKeepsExact(fs, roots, sp, sn, dp, dn);
    } else {
      NotLosslessLoses(fs, roots, owner, sp, sn, dp, dn);
      LinkLostIsInexact(MoveResult(fs, sp, sn, dp, dn), roots);
    }
  }

  // ---------------------------------------------------------------- directory cycles

  /** d is x or lies below it. */
  ghost predicate Below(fs: FS, x: Id, d: Id) {
    exists q :: At(fs, x, q) == Some(d)
  }

  lemma BelowStep(fs: FS, x: Id, l: Link)
    requires Below(fs, x, l.dir) && l in Links(fs)
    ensures Below(fs, x, l.ino)
  {
    var q :| At(fs, x, q) == Some(l.dir);
    AtSnoc(fs, x, q, l.name);
    assert At(fs, x, q + [l.name]) == Some(l.ino);
  }

  /** Only the top of a subtree has an entry outside it. */
  lemma EntersAtTop(fs: FS, roots: map<DriveId, Id>, x: Id, l: Link)
    requires RootsOk(fs, roots) && CountsOk(fs, roots)
    requires l in Links(fs) && l.ino in fs && !fs[l.ino].Regular()
    requires Below(fs, x, l.ino) && !Below(fs, x, l.dir)
    ensures l.ino == x
  {
    var q :| At(fs, x, q) == Some(l.ino);
    if q != [] {
      var k := LastLink(fs, x, q);
      assert Below(fs, x, k.dir);
      OneParent(fs, roots, k, l);
    }
  }

  /** Ranks grow along the way down to a directory. */
  lemma {:induction false} RankBetween(fs: FS, rank: map<Id, nat>, x: Id, q: seq<string>, i: nat)
    requires Ranked(fs, rank) && x in fs && i <= |q|
    requires At(fs, x, q).Some? && At(fs, x, q).value in fs && fs[At(fs, x, q).value].IsDir()
    ensures At(fs, x, q[..i]).Some? && At(fs, x, q[..i]).value in fs && fs[At(fs, x, q[..i]).value].IsDir()
    ensures rank[At(fs, x, q[..i]).value] + (|q| - i) <= rank[At(fs, x, q).value]
    decreases |q| - i
  {
    if i == |q| {
      assert q[..i] == q;
    } else {
      RankBetween(fs, rank, x, q, i + 1);
      AtPrefix(fs, x, q, i);
      assert q[..i + 1][..i] == q[..i];
      var l := LastLink(fs, x, q[..i + 1]);
      assert l in Links(fs);
    }
  }

  /** An entry on the way down from the moved directory to its own destination survives. */
  lemma PathLinkSurvives(fs: FS, rank: map<Id, nat>, sp: Id, sn: string, dp: Id, dn: string, l: Link)
    requires WellFormed(fs) && Ranked(fs, rank) && Movable(fs, sp, sn, dp, dn)
    requires var x := Moved(fs, sp, sn).ino;
             l in Links(fs) && x in fs && fs[x].IsDir() && rank[x] <= rank[l.dir] < rank[dp]
    ensures l in Links(MoveResult(fs, sp, sn, dp, dn))
  {
    var x, gs := Moved(fs, sp, sn).ino, MoveListings(fs, sp, sn, dp, dn);
    assert Link(sp, sn, x) in Links(fs);
    MoveLink(fs, sp, sn, dp, dn, l);
    var over := Find(fs[dp].content.entries, dn);
    if over.Some? && over.value.ino in gs {
      var o := over.value.ino;
      assert Link(dp, dn, o) in Links(fs);
      ReleaseLinks(gs, o);
      if fs[o].nlink <= 1 { DropRowsLinks(gs, {o}, l); }
    }
  }

  /** One entry on the way down from x to d, both ends ranked between theirs. */
  lemma StepDown(fs: FS, rank: map<Id, nat>, x: Id, q: seq<string>, i: nat, d: Id) returns (l: Link)
    requires Ranked(fs, rank) && x in fs && 0 < i <= |q| && At(fs, x, q) == Some(d) && d in fs && fs[d].IsDir()
    ensures At(fs, x, q[..i - 1]) == Some(l.dir) && At(fs, x, q[..i]) == Some(l.ino) && l in Links(fs)
    ensures fs[x].IsDir() && l.ino in fs && fs[l.ino].IsDir()
    ensures rank[x] <= rank[l.dir] < rank[d] && rank[l.ino] <= rank[d]
  {
    RankBetween(fs, rank, x, q, 0);
    RankBetween(fs, rank, x, q, i - 1);
    RankBetween(fs, rank, x, q, i);
    assert q[..i][..i - 1] == q[..i - 1] && q[..0] == [];
    l := LastLink(fs, x, q[..i]);
    RankBetween(fs, rank, x, q[..i - 1], 0);
  }

  /** One step of the way down, seen before and after the move. */
  lemma PathStep(fs: FS, rank: map<Id, nat>, sp: Id, sn: string, dp: Id, dn: string, q: seq<string>, i: nat)
      returns (l: Link)
    requires WellFormed(fs) && Ranked(fs, rank) && Movable(fs, sp, sn, dp, dn)
    requires 0 < i <= |q| && At(fs, Moved(fs, sp, sn).ino, q) == Some(dp) && Moved(fs, sp, sn).ino in fs
    ensures var x, hs := Moved(fs, sp, sn).ino, MoveResult(fs, sp, sn, dp, dn);
            At(fs, x, q[..i - 1]) == Some(l.dir) && At(fs, x, q[..i]) == Some(l.ino)
            && l in Links(hs) && l.ino in hs && hs[l.ino].IsDir()
  {
    l := StepDown(fs, rank, Moved(fs, sp, sn).ino, q, i, dp);
    PathLinkSurvives(fs, rank, sp, sn, dp, dn, l);
    NotOverwritten(fs, rank, sp, sn, dp, dn, l.ino);
  }

  lemma {:induction false} RankAlongMoved(fs: FS, rank: map<Id, nat>, sp: Id, sn: string, dp: Id, dn: string,
                                          rank': map<Id, nat>, q: seq<string>, i: nat)
    requires WellFormed(fs) && Ranked(fs, rank) && Movable(fs, sp, sn, dp, dn)
    requires Ranked(MoveResult(fs, sp, sn, dp, dn), rank')
    requires i <= |q| && At(fs, Moved(fs, sp, sn).ino, q) == Some(dp)
    requires Moved(fs, sp, sn).ino in fs && Moved(fs, sp, sn).ino in rank'
    ensures var d := At(fs, Moved(fs, sp, sn).ino, q[..i]);
            d.Some? && d.value in rank' && rank'[Moved(fs, sp, sn).ino] <= rank'[d.value]
    decreases i
  {
    if i > 0 {
      RankAlongMoved(fs, rank, sp, sn, dp, dn, rank', q, i - 1);
      var l := PathStep(fs, rank, sp, sn, dp, dn, q, i);
    } else {
      assert q[..0] == [];
    }
  }

  lemma NotOverwritten(fs: FS, rank: map<Id, nat>, sp: Id, sn: string, dp: Id, dn: string, d: Id)
    requires WellFormed(fs) && Ranked(fs, rank) && Movable(fs, sp, sn, dp, dn)
    requires d in fs && fs[d].IsDir() && rank[d] <= rank[dp]
    ensures d in MoveResult(fs, sp, sn, dp, dn) && MoveResult(fs, sp, sn, dp, dn)[d].IsDir()
  {
    MoveResultRow(fs, sp, sn, dp, dn, d);
    var over := Find(fs[dp].content.entries, dn);
    if over.Some? { assert Link(dp, dn, over.value.ino) in Links(fs); }
  }

  lemma MoveBelowUnrankable(fs: FS, rank: map<Id, nat>, sp: Id, sn: string, dp: Id, dn: string,
                            q: seq<string>, rank': map<Id, nat>)
    requires WellFormed(fs) && Ranked(fs, rank) && Movable(fs, sp, sn, dp, dn)
    requires At(fs, Moved(fs, sp, sn).ino, q) == Some(dp) && Moved(fs, sp, sn).ino in fs
    ensures !Ranked(MoveResult(fs, sp, sn, dp, dn), rank')
  {
    var x, hs := Moved(fs, sp, sn).ino, MoveResult(fs, sp, sn, dp, dn);
    assert q[..0] == [] && q[..|q|] == q;
    RankBetween(fs, rank, x, q, 0);
    NotOverwritten(fs, rank, sp, sn, dp, dn, x);
    NewLinkSurvives(fs, rank, sp, sn, dp, dn);
    if Ranked(hs, rank') {
      RankAlongMoved(fs, rank, sp, sn, dp, dn, rank', q, |q|);
    }
  }

  lemma MoveBelowMakesCycle(fs: FS, sp: Id, sn: string, dp: Id, dn: string)
    requires WellFormed(fs) && Acyclic(fs) && Movable(fs, sp, sn, dp, dn)
    requires Below(fs, Moved(fs, sp, sn).ino, dp)
    ensures !Acyclic(MoveResult(fs, sp, sn, dp, dn))
  {
    var x := Moved(fs, sp, sn).ino;
    var rank :| Ranked(fs, rank);
    var q :| At(fs, x, q) == Some(dp);
    assert HasLink(fs, Link(sp, sn, x));
    forall rank' ensures !Ranked(MoveResult(fs, sp, sn, dp, dn), rank') {
      MoveBelowUnrankable(fs, rank, sp, sn, dp, dn, q, rank');
    }
  }

  lemma NewLinkSurvives(fs: FS, rank: map<Id, nat>, sp: Id, sn: string, dp: Id, dn: string)
    requires WellFormed(fs) && Ranked(fs, rank) && Movable(fs, sp, sn, dp, dn)
    ensures Link(dp, dn, Moved(fs, sp, sn).ino) in Links(MoveResult(fs, sp, sn, dp, dn))
  {
    var l, gs := Link(dp, dn, Moved(fs, sp, sn).ino), MoveListings(fs, sp, sn, dp, dn);
    MoveLink(fs, sp, sn, dp, dn, l);
    var over := Find(fs[dp].content.entries, dn);
    if over.Some? && over.value.ino in gs {
      var o := over.value.ino;
      assert Link(dp, dn, o) in Links(fs);
      ReleaseLinks(gs, o);
      if fs[o].nlink <= 1 { DropRowsLinks(gs, {o}, l); }
    }
  }

  lemma MoveElsewhereKeepsAcyclic(fs: FS, roots: map<DriveId, Id>, sp: Id, sn: string, dp: Id, dn: string)
    requires WellFormed(fs) && RootsOk(fs, roots) && CountsOk(fs, roots) && Acyclic(fs) && Movable(fs, sp, sn, dp, dn)
    requires !Below(fs, Moved(fs, sp, sn).ino, dp)
    ensures Acyclic(MoveListings(fs, sp, sn, dp, dn))
  {
    var x, gs := Moved(fs, sp, sn).ino, MoveListings(fs, sp, sn, dp, dn);
    var rank :| Ranked(fs, rank);
    var rank' := Raised(fs, rank, x, rank[dp] + 1);
    forall l | l in Links(gs) && l.ino in gs && gs[l.ino].IsDir()
      ensures l.dir in rank' && l.ino in rank' && rank'[l.dir] < rank'[l.ino]
    {
      MovedLinkOrigin(fs, sp, sn, dp, dn, l);
      RaisedLink(fs, roots, rank, sp, sn, dp, dn, l);
    }
    assert Ranked(gs, rank');
  }

  lemma MovedLinkOrigin(fs: FS, sp: Id, sn: string, dp: Id, dn: string, l: Link)
    requires Movable(fs, sp, sn, dp, dn)
    requires var gs := MoveListings(fs, sp, sn, dp, dn); l in Links(gs) && l.ino in gs && gs[l.ino].IsDir()
    ensures var x := Moved(fs, sp, sn).ino; l == Link(dp, dn, x) || (l in Links(fs) && l != Link(sp, sn, x))
    ensures l.ino in fs && fs[l.ino].IsDir()
  {
    MoveLink(fs, sp, sn, dp, dn, l);
  }

  /** The ranking with everything at and below x lifted by k. */
  ghost function Raised(fs: FS, rank: map<Id, nat>, x: Id, k: nat): map<Id, nat> {
    map y | y in rank :: if Below(fs, x, y) then rank[y] + k else rank[y]
  }

  lemma RaisedLink(fs: FS, roots: map<DriveId, Id>, rank: map<Id, nat>, sp: Id, sn: string, dp: Id, dn: string, l: Link)
    requires WellFormed(fs) && RootsOk(fs, roots) && CountsOk(fs, roots) && Ranked(fs, rank)
             && Movable(fs, sp, sn, dp, dn)
    requires !Below(fs, Moved(fs, sp, sn).ino, dp)
    requires var x := Moved(fs, sp, sn).ino; l == Link(dp, dn, x) || (l in Links(fs) && l != Link(sp, sn, x))
    requires l.ino in fs && fs[l.ino].IsDir()
    ensures var rank' := Raised(fs, rank, Moved(fs, sp, sn).ino, rank[dp] + 1);
            l.dir in rank' && l.ino in rank' && rank'[l.dir] < rank'[l.ino]
  {
    var x := Moved(fs, sp, sn).ino;
    assert HasLink(fs, Link(sp, sn, x));
    if l == Link(dp, dn, x) {
      assert At(fs, x, []) == Some(x);
    } else {
      RaisedRanks(fs, roots, x, sp, sn, l);
    }
  }

  lemma RaisedRanks(fs: FS, roots: map<DriveId, Id>, x: Id, sp: Id, sn: string, l: Link)
    requires RootsOk(fs, roots) && CountsOk(fs, roots)
    requires Link(sp, sn, x) in Links(fs) && l in Links(fs) && l != Link(sp, sn, x)
    requires l.ino in fs && fs[l.ino].IsDir()
    ensures Below(fs, x, l.dir) <==> Below(fs, x, l.ino)
  {
    if Below(fs, x, l.dir) {
      BelowStep(fs, x, l);
    } else if Below(fs, x, l.ino) {
      EntersAtTop(fs, roots, x, l);
      OneParent(fs, roots, l, Link(sp, sn, x));
    }
  }

  /** The directory graph stays acyclic exactly when the move does not go into the
      moved inode's own subtree. */
  lemma MoveKeepsAcyclic(fs: FS, roots: map<DriveId, Id>, sp: Id, sn: string, dp: Id, dn: string)
    requires WellFormed(fs) && RootsOk(fs, roots) && CountsOk(fs, roots) && Acyclic(fs) && Movable(fs, sp, sn, dp, dn)
    ensures Acyclic(MoveResult(fs, sp, sn, dp, dn)) <==> !Below(fs, Moved(fs, sp, sn).ino, dp)
  {
    if Below(fs, Moved(fs, sp, sn).ino, dp) {
      MoveBelowMakesCycle(fs, sp, sn, dp, dn);
    } else {
      MoveElsewhereKeepsAcyclic(fs, roots, sp, sn, dp, dn);
      ReleaseKeepsAcyclic(fs, sp, sn, dp, dn);
    }
  }

  lemma ReleaseKeepsAcyclic(fs: FS, sp: Id, sn: string, dp: Id, dn: string)
    requires Movable(fs, sp, sn, dp, dn) && Acyclic(MoveListings(fs, sp, sn, dp, dn))
    ensures Acyclic(MoveResult(fs, sp, sn, dp, dn))
  {
    var gs, hs := MoveListings(fs, sp, sn, dp, dn), MoveResult(fs, sp, sn, dp, dn);
    var rank :| Ranked(gs, rank);
    var over := Find(fs[dp].content.entries, dn);
    if over.Some? && over.value.ino in gs { ReleaseLinks(gs, over.value.ino); }
    assert Ranked(hs, rank);
  }
}

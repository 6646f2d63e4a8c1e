/** The store a batch leaves, in closed form, and what follows from it. */
module BatchFacts {
  import opened Paths
  import opened Inodes
  import opened Graph
  import opened Moves
  import opened Walk
  import opened NodeOps
  import opened Removal
  import opened Batch
  import opened MoveFacts

  // ---------------------------------------------------------------- the closed form

  /** The sources that are really moved: those from the first that is not in place on. */
  ghost function MovedBy(fs: FS, srcs: seq<Source>, dp: Id): (a: seq<Source>)
    ensures |a| == |srcs| - Leading(fs, srcs, dp)
  {
    srcs[Leading(fs, srcs, dp)..]
  }

  /** The names taken out of directory d. */
  ghost function Taken(moved: seq<Source>, d: Id): set<string> {
    set k | k in moved && k.dir == d :: k.name
  }

  ghost function Dirs(moved: seq<Source>): set<Id> { set k | k in moved :: k.dir }

  /** last is the entry of the last source. */
  ghost predicate Ends(fs: FS, moved: seq<Source>, last: Entry) {
    moved != []
    && var l := moved[|moved| - 1];
       l.dir in fs && fs[l.dir].IsDir() && Find(fs[l.dir].content.entries, l.name) == Some(last)
  }

  /** All listings rewritten, no row released. */
  ghost function Swept(fs: FS, moved: seq<Source>, dp: Id, last: Entry): FS {
    map y | y in fs ::
      if !fs[y].IsDir() then fs[y]
      else fs[y].(content := Dir(if y == dp then [last] else Keep(fs[y].content.entries, Taken(moved, y))))
  }

  /** The inode that loses its entry in the destination to the first source, unless a later
      source writes its row back. */
  ghost function Lost(fs: FS, moved: seq<Source>, dp: Id): set<Id>
    requires moved != []
  {
    var o := Child(fs, dp, moved[0].name);
    if o.Some? && o.value !in Dirs(moved[1..]) then {o.value} else {}
  }

  /** The store after the sources have been moved into dp, one by one. */
  ghost function Landed(fs: FS, moved: seq<Source>, dp: Id, last: Entry): FS
    requires moved != []
  {
    var v, o := Swept(fs, moved, dp, last), Child(fs, dp, moved[0].name);
    if Lost(fs, moved, dp) != {} && o.value in fs then Release(v, o.value) else v
  }

  /** The destination does not list itself, and what it lists exists, directories with one
      link. */
  ghost predicate Ground(fs: FS, dp: Id) {
    dp in fs && fs[dp].IsDir()
    && forall n :: Child(fs, dp, n).Some? ==>
         var o := Child(fs, dp, n).value; o != dp && o in fs && (fs[o].IsDir() ==> fs[o].nlink <= 1)
  }

  ghost predicate Elsewhere(fs: FS, moved: seq<Source>, dp: Id) {
    forall k | k in moved :: k.dir != dp && Child(fs, k.dir, k.name).Some?
  }

  /** Where the moves have got to. */
  ghost predicate Reached(t: Tree, fs: FS, moved: seq<Source>, dp: Id, last: Entry) {
    Ends(fs, moved, last) && Elsewhere(fs, moved, dp)
    && t.held == Swept(fs, moved, dp, last) && t.fs == Landed(fs, moved, dp, last)
  }

  lemma BatchGround(fs: FS, roots: map<DriveId, Id>, dp: Id)
    requires WellFormed(fs) && RootsOk(fs, roots) && CountsOk(fs, roots)
    requires dp in fs && fs[dp].IsDir() && forall n :: Child(fs, dp, n) != Some(dp)
    ensures Ground(fs, dp)
  {
    forall n | Child(fs, dp, n).Some?
      ensures var o := Child(fs, dp, n).value; o != dp && o in fs && (fs[o].IsDir() ==> fs[o].nlink <= 1)
    {
      var l := Link(dp, n, Child(fs, dp, n).value);
      assert l in Links(fs);
      LinkTarget(fs, l);
      assert CountOk(fs[l.ino], |To(Links(fs), l.ino)|);
    }
  }

  // ---------------------------------------------------------------- the first move

  lemma SweptOne(fs: FS, k: Source, dp: Id, last: Entry)
    requires k.dir in fs && fs[k.dir].IsDir() && dp in fs && fs[dp].IsDir() && k.dir != dp
    ensures Swept(fs, [k], dp, last) ==
            fs[k.dir := fs[k.dir].(content := Dir(Keep(fs[k.dir].content.entries, {k.name})))]
              [dp := fs[dp].(content := Dir([last]))]
  {
    forall y | y in fs && fs[y].IsDir() && y != dp
      ensures Keep(fs[y].content.entries, Taken([k], y)) ==
              if y == k.dir then Keep(fs[y].content.entries, {k.name}) else fs[y].content.entries
    {
      assert Taken([k], y) == if y == k.dir then {k.name} else {};
      if y != k.dir { KeepNone(fs[y].content.entries, {}); }
    }
  }

  lemma FirstReached(fs: FS, k: Source, dp: Id, u: Tree, rest: seq<Source>) returns (last: Entry)
    requires Ground(fs, dp) && Launched(fs, k, dp, u, rest) && !InPlace(fs, k.dir, k.name, dp, k.name)
    ensures Reached(u, fs, [k], dp, last) && last.name == k.name
  {
    last := Moved(fs, k.dir, k.name);
    StepOnStore(fs, k.dir, k.name, dp, k.name);
    SweptOne(fs, k, dp, last);
    assert last == last.(name := k.name);
    assert Dirs([k][1..]) == {};
  }

  // ---------------------------------------------------------------- the moves after it

  lemma TakenNext(moved: seq<Source>, k: Source, d: Id)
    ensures Taken(moved + [k], d) == Taken(moved, d) + if d == k.dir then {k.name} else {}
    ensures Dirs(moved + [k]) == Dirs(moved) + {k.dir}
  {
    assert forall j | j in moved + [k] :: j in moved || j == k;
    assert forall j | j in moved :: j in moved + [k];
    assert k in moved + [k];
  }

  lemma SweptNext(fs: FS, moved: seq<Source>, k: Source, dp: Id, last: Entry, next: Entry)
    requires dp in fs && fs[dp].IsDir() && k.dir in fs && fs[k.dir].IsDir() && k.dir != dp
    ensures var v := Swept(fs, moved, dp, last);
            Swept(fs, moved + [k], dp, next) ==
            v[k.dir := v[k.dir].(content := Dir(Keep(v[k.dir].content.entries, {k.name})))]
             [dp := v[dp].(content := Dir([next]))]
  {
    forall y | y in fs && fs[y].IsDir() && y != dp
      ensures Keep(fs[y].content.entries, Taken(moved + [k], y)) ==
              var es := Keep(fs[y].content.entries, Taken(moved, y)); if y == k.dir then Keep(es, {k.name}) else es
    {
      KeptNext(fs[y].content.entries, moved, k, y);
    }
  }

  lemma KeptNext(es: seq<Entry>, moved: seq<Source>, k: Source, d: Id)
    ensures Keep(es, Taken(moved + [k], d)) ==
            var kept := Keep(es, Taken(moved, d)); if d == k.dir then Keep(kept, {k.name}) else kept
  {
    TakenNext(moved, k, d);
    if d == k.dir { KeepKeep(es, Taken(moved, d), {k.name}); } else { assert Taken(moved, d) + {} == Taken(moved, d); }
  }

  lemma LostNext(fs: FS, moved: seq<Source>, k: Source, dp: Id)
    requires moved != []
    ensures Lost(fs, moved + [k], dp) == Lost(fs, moved, dp) - {k.dir}
  {
    assert (moved + [k])[0] == moved[0] && (moved + [k])[1..] == moved[1..] + [k];
    TakenNext(moved[1..], k, k.dir);
    assert forall o :: o in Lost(fs, moved + [k], dp) <==> o in Lost(fs, moved, dp) && o != k.dir;
  }

  /** The two rows a move saves, written over the store it starts from. */
  lemma LandedNext(fs: FS, moved: seq<Source>, k: Source, dp: Id, last: Entry, next: Entry)
    requires Ground(fs, dp) && moved != [] && k.dir in fs && fs[k.dir].IsDir() && k.dir != dp
    ensures var w := Swept(fs, moved + [k], dp, next);
            Landed(fs, moved + [k], dp, next) == Landed(fs, moved, dp, last)[k.dir := w[k.dir]][dp := w[dp]]
  {
    var v, w, o := Swept(fs, moved, dp, last), Swept(fs, moved + [k], dp, next), Child(fs, dp, moved[0].name);
    SweptNext(fs, moved, k, dp, last, next);
    LostNext(fs, moved, k, dp);
    assert (moved + [k])[0] == moved[0];
    assert w == v[k.dir := w[k.dir]][dp := w[dp]];
    if Lost(fs, moved, dp) != {} {
      ReleaseUnder(v, o.value, k.dir, w[k.dir], dp, w[dp]);
    }
  }

  lemma ReleaseUnder(v: FS, o: Id, sp: Id, src: Inode, dp: Id, dst: Inode)
    requires o in v && o != dp && sp in v && dp in v && sp != dp
    requires v[o].IsDir() ==> v[o].nlink <= 1
    requires v[sp].IsDir()
    ensures Release(v, o)[sp := src][dp := dst] ==
            if o == sp then v[sp := src][dp := dst] else Release(v[sp := src][dp := dst], o)
  {
  }

  lemma StepReached(t: Tree, u: Tree, fs: FS, moved: seq<Source>, k: Source, dp: Id, last: Entry, y: Id)
      returns (next: Entry)
    requires Ground(fs, dp) && Reached(t, fs, moved, dp, last) && Single(t, dp, last.name, y)
    requires Ready(t, k.dir, dp) && IsName(k.name) && k.name != last.name && (forall j | j in moved :: j.name != k.name)
    requires Step(t, k.dir, k.name, dp, k.name) == Ok(u)
    ensures Reached(u, fs, moved + [k], dp, next) && next.name == k.name
  {
    StepAfterMove(t, k.dir, k.name, dp, last.name, y);
    HeldName(fs, moved, dp, last, k);
    next := Find(fs[k.dir].content.entries, k.name).value;
    StepWrites(t, k.dir, k.name, dp, next);
    SweptNext(fs, moved, k, dp, last, next);
    LandedNext(fs, moved, k, dp, last, next);
    assert (moved + [k])[|moved + [k]| - 1] == k;
    assert forall j | j in moved + [k] :: j in moved || j == k;
  }

  /** A name not taken yet is held as the store lists it. */
  lemma HeldName(fs: FS, moved: seq<Source>, dp: Id, last: Entry, k: Source)
    requires k.dir in fs && fs[k.dir].IsDir() && k.dir != dp && forall j | j in moved :: j.name != k.name
    ensures Find(Swept(fs, moved, dp, last)[k.dir].content.entries, k.name) == Find(fs[k.dir].content.entries, k.name)
  {
    FindKeep(fs[k.dir].content.entries, Taken(moved, k.dir), k.name);
  }

  /** A move that overwrites nothing writes the two directories and nothing else. */
  lemma StepWrites(t: Tree, sp: Id, sn: string, dp: Id, e: Entry)
    requires Ready(t, sp, dp) && IsName(sn) && sp != dp && t.held[sp].IsDir()
             && Find(t.held[sp].content.entries, sn) == Some(e)
    requires Find(t.held[dp].content.entries, sn).None? && Step(t, sp, sn, dp, sn).Ok?
    ensures var src := t.held[sp].(content := Dir(Keep(t.held[sp].content.entries, {sn})));
            var dst := t.held[dp].(content := Dir([e]));
            Step(t, sp, sn, dp, sn).value == Tree(t.fs[sp := src][dp := dst], t.held[sp := src][dp := dst])
  {
    assert e.(name := sn) == e;
  }

  /** Some sources have been moved, the rest are still queued. */
  ghost predicate Marching(t: Tree, fs: FS, moved: seq<Source>, rest: seq<Source>, all: seq<Source>, dp: Id,
                           last: Entry, y: Id) {
    Ground(fs, dp) && Reached(t, fs, moved, dp, last) && Queue(t, rest, dp, last.name, y)
    && all == moved + rest && MoveFacts.Distinct(all)
  }

  lemma {:induction false} QueueReached(t: Tree, fs: FS, moved: seq<Source>, rest: seq<Source>, all: seq<Source>,
                                        dp: Id, last: Entry, y: Id) returns (end: Tree)
    requires Marching(t, fs, moved, rest, all, dp, last, y)
    ensures Apply(t, rest, dp).value.0 == end && exists e :: Reached(end, fs, all, dp, e)
    decreases |rest|
  {
    if rest == [] {
      assert all == moved;
      end := t;
    } else {
      var u, next, y' := QueueStep(t, fs, moved, rest, all, dp, last, y);
      end := QueueReached(u, fs, moved + [rest[0]], rest[1..], all, dp, next, y');
    }
  }

  lemma QueueStep(t: Tree, fs: FS, moved: seq<Source>, rest: seq<Source>, all: seq<Source>, dp: Id, last: Entry, y: Id)
      returns (u: Tree, next: Entry, y': Id)
    requires Marching(t, fs, moved, rest, all, dp, last, y) && rest != []
    ensures Marching(u, fs, moved + [rest[0]], rest[1..], all, dp, next, y')
    ensures Apply(t, rest, dp).value.0 == Apply(u, rest[1..], dp).value.0
  {
    u, y' := QueueNext(t, rest, dp, last.name, y);
    NewName(moved, rest);
    next := StepReached(t, u, fs, moved, rest[0], dp, last, y);
    FrontMoved(moved, rest);
  }

  lemma FrontMoved<T>(moved: seq<T>, rest: seq<T>)
    requires rest != []
    ensures moved + rest == moved + [rest[0]] + rest[1..]
  {
  }

  lemma NewName(moved: seq<Source>, rest: seq<Source>)
    requires MoveFacts.Distinct(moved + rest) && rest != []
    ensures forall j | j in moved :: j.name != rest[0].name
  {
    var all := moved + rest;
    assert all[|moved|] == rest[0];
    forall j | j in moved ensures j.name != rest[0].name {
      var i :| 0 <= i < |moved| && moved[i] == j;
      assert all[i] == j;
    }
  }

  /** What a batch that moves anything leaves. */
  lemma BatchLands(fs: FS, roots: map<DriveId, Id>, root: Id, srcPaths: seq<string>, dstPath: string, srcs: seq<Source>,
                   dp: Id)
      returns (last: Entry)
    requires WellFormed(fs) && RootsOk(fs, roots) && CountsOk(fs, roots) && IsRoot(roots, root)
    requires BatchOf(fs, root, srcPaths, dstPath, srcs, dp) && MoveMany(fs, root, srcPaths, dstPath).Ok?
    requires Leading(fs, srcs, dp) < |srcs|
    ensures Ground(fs, dp)
    ensures Reached(MoveMany(fs, root, srcPaths, dstPath).value.0, fs, MovedBy(fs, srcs, dp), dp, last)
  {
    BatchReady(fs, roots, root, srcPaths, dstPath, srcs, dp);
    BatchGround(fs, roots, dp);
    last := ApplyLands(fs, srcs, dp);
  }

  lemma ApplyLands(fs: FS, srcs: seq<Source>, dp: Id) returns (last: Entry)
    requires AllReady(Tree(fs, fs), srcs, dp) && MoveFacts.Distinct(srcs) && Apply(Tree(fs, fs), srcs, dp).Ok?
    requires Ground(fs, dp) && Leading(fs, srcs, dp) < |srcs|
    ensures Reached(Apply(Tree(fs, fs), srcs, dp).value.0, fs, MovedBy(fs, srcs, dp), dp, last)
  {
    var n := Leading(fs, srcs, dp);
    forall m ensures Child(fs, dp, m) != Some(dp) { assert Child(fs, dp, m).Some? ==> Child(fs, dp, m).value != dp; }
    var u, rest := FirstMove(fs, srcs, dp);
    TailSplit(srcs, n);
    last := LaunchedLands(fs, srcs[n], dp, u, rest, srcs[n..]);
  }

  lemma TailSplit(srcs: seq<Source>, n: nat)
    requires MoveFacts.Distinct(srcs) && n < |srcs|
    ensures srcs[n..] == [srcs[n]] + srcs[n + 1..] && MoveFacts.Distinct(srcs[n..])
  {
    assert srcs[n..] == [srcs[n]] + srcs[n + 1..];
    forall i, j | 0 <= i < j < |srcs| - n ensures srcs[n..][i].name != srcs[n..][j].name {}
  }

  lemma LaunchedLands(fs: FS, k: Source, dp: Id, u: Tree, rest: seq<Source>, all: seq<Source>) returns (last: Entry)
    requires Ground(fs, dp) && Launched(fs, k, dp, u, rest) && !InPlace(fs, k.dir, k.name, dp, k.name)
    requires all == [k] + rest && MoveFacts.Distinct(all)
    ensures Reached(Apply(u, rest, dp).value.0, fs, all, dp, last)
  {
    var first := FirstReached(fs, k, dp, u, rest);
    var end := QueueReached(u, fs, [k], rest, all, dp, first, Child(fs, k.dir, k.name).value);
    last :| Reached(end, fs, all, dp, last);
  }

  // ---------------------------------------------------------------- what goes and what stays

  lemma SweptChild(fs: FS, moved: seq<Source>, dp: Id, last: Entry, d: Id, m: string)
    requires dp in fs && fs[dp].IsDir()
    ensures Child(Swept(fs, moved, dp, last), d, m) ==
            if d == dp then (if m == last.name then Some(last.ino) else None)
            else if m in Taken(moved, d) then None else Child(fs, d, m)
  {
    if d == dp {
      assert [last][1..] == [];
    } else if d in fs && fs[d].IsDir() {
      FindKeep(fs[d].content.entries, Taken(moved, d), m);
    }
  }

  lemma LandedRow(fs: FS, moved: seq<Source>, dp: Id, last: Entry, y: Id)
    requires Ground(fs, dp) && moved != []
    ensures Lost(fs, moved, dp) <= fs.Keys - {dp}
    ensures var gs, v := Landed(fs, moved, dp, last), Swept(fs, moved, dp, last);
            if y in Lost(fs, moved, dp) then
              (y in gs <==> fs[y].nlink > 1) && (y in gs ==> gs[y] == v[y].(nlink := v[y].nlink - 1) && !fs[y].IsDir())
            else (y in gs <==> y in fs) && (y in fs ==> gs[y] == v[y])
  {
  }

  /** The entries of directories that stay are those of Swept. */
  lemma LandedChild(fs: FS, moved: seq<Source>, dp: Id, last: Entry, d: Id, m: string)
    requires Ground(fs, dp) && moved != []
    ensures Child(Landed(fs, moved, dp, last), d, m) ==
            if d in Lost(fs, moved, dp) then None else Child(Swept(fs, moved, dp, last), d, m)
  {
    LandedRow(fs, moved, dp, last, d);
  }

  /** Every source moved, the ones in place before the first move apart, has lost its old
      entry. */
  lemma SourceGone(fs: FS, moved: seq<Source>, dp: Id, last: Entry, k: Source)
    requires Ground(fs, dp) && Elsewhere(fs, moved, dp) && k in moved
    ensures Child(Landed(fs, moved, dp, last), k.dir, k.name).None?
  {
    LandedChild(fs, moved, dp, last, k.dir, k.name);
    SweptChild(fs, moved, dp, last, k.dir, k.name);
    assert k.name in Taken(moved, k.dir);
  }

  /** A row of no directory concerned is as it was. */
  lemma RowStays(fs: FS, moved: seq<Source>, dp: Id, last: Entry, y: Id)
    requires Ground(fs, dp) && moved != [] && y in fs && y != dp && y !in Dirs(moved) && y !in Lost(fs, moved, dp)
    ensures y in Landed(fs, moved, dp, last) && Landed(fs, moved, dp, last)[y] == fs[y]
  {
    LandedRow(fs, moved, dp, last, y);
    assert Taken(moved, y) == {};
    if fs[y].IsDir() { KeepNone(fs[y].content.entries, {}); }
  }

  /** Every source really moved has lost its old entry; all rows but the directories and
      the inode that lost its entry to the first source are untouched; no other inode is lost. */
  ghost predicate MovesOnly(fs: FS, gs: FS, moved: seq<Source>, dp: Id)
    requires moved != []
  {
    (forall k | k in moved :: Child(gs, k.dir, k.name).None?)
    && (forall y | y in fs && y != dp && y !in Dirs(moved) && y !in Lost(fs, moved, dp) :: y in gs && gs[y] == fs[y])
    && (forall y | y in gs :: y in fs)
    && (forall y | y in fs && y !in Lost(fs, moved, dp) :: y in gs)
    && (forall y | y in fs && y in Lost(fs, moved, dp) :: y in gs <==> fs[y].nlink > 1)
  }

  lemma LandedMovesOnly(fs: FS, moved: seq<Source>, dp: Id, last: Entry)
    requires Ground(fs, dp) && Elsewhere(fs, moved, dp) && moved != []
    ensures MovesOnly(fs, Landed(fs, moved, dp, last), moved, dp)
  {
    var gs := Landed(fs, moved, dp, last);
    forall k | k in moved ensures Child(gs, k.dir, k.name).None? { SourceGone(fs, moved, dp, last, k); }
    forall y | y in fs && y != dp && y !in Dirs(moved) && y !in Lost(fs, moved, dp) ensures y in gs && gs[y] == fs[y] {
      RowStays(fs, moved, dp, last, y);
    }
    forall y ensures y in gs ==> y in fs
             ensures y in fs && y !in Lost(fs, moved, dp) ==> y in gs
             ensures y in fs && y in Lost(fs, moved, dp) ==> (y in gs <==> fs[y].nlink > 1) {
      LandedRow(fs, moved, dp, last, y);
    }
  }

  /** So a successful batch removes every source entry, those in place before the first move
      apart, and loses no inode but the one it overwrites. */
  lemma BatchMoves(fs: FS, roots: map<DriveId, Id>, root: Id, srcPaths: seq<string>, dstPath: string, srcs: seq<Source>,
                   dp: Id)
    requires WellFormed(fs) && RootsOk(fs, roots) && CountsOk(fs, roots) && IsRoot(roots, root)
    requires BatchOf(fs, root, srcPaths, dstPath, srcs, dp) && MoveMany(fs, root, srcPaths, dstPath).Ok?
    requires Leading(fs, srcs, dp) < |srcs|
    ensures MovesOnly(fs, MoveMany(fs, root, srcPaths, dstPath).value.0.fs, MovedBy(fs, srcs, dp), dp)
  {
    var last := BatchLands(fs, roots, root, srcPaths, dstPath, srcs, dp);
    LandedMovesOnly(fs, MovedBy(fs, srcs, dp), dp, last);
  }

  // ---------------------------------------------------------------- the order of the sources

  ghost predicate SameSources(a: seq<Source>, b: seq<Source>) { forall k :: k in a <==> k in b }

  /** The last source and what is moved and lost determine the store. */
  lemma SameLanding(fs: FS, a: seq<Source>, b: seq<Source>, dp: Id, x: Entry, y: Entry)
    requires Ground(fs, dp) && Ends(fs, a, x) && Ends(fs, b, y) && a[|a| - 1] == b[|b| - 1]
    requires SameSources(a, b) && Lost(fs, a, dp) == Lost(fs, b, dp)
    ensures Landed(fs, a, dp, x) == Landed(fs, b, dp, y)
  {
    assert forall d :: Taken(a, d) == Taken(b, d);
    assert Swept(fs, a, dp, x) == Swept(fs, b, dp, y);
    if o :| o in Lost(fs, a, dp) {
      assert Child(fs, dp, a[0].name) == Some(o) && Child(fs, dp, b[0].name) == Some(o);
    }
  }

  lemma LastAgrees(fs: FS, a: seq<Source>, b: seq<Source>, dp: Id, x: Entry, y: Entry)
    requires Ground(fs, dp) && Ends(fs, a, x) && Ends(fs, b, y)
    requires Landed(fs, a, dp, x) == Landed(fs, b, dp, y)
    ensures a[|a| - 1].name == b[|b| - 1].name
  {
    LandedRow(fs, a, dp, x, dp);
    LandedRow(fs, b, dp, y, dp);
    LandedChild(fs, a, dp, x, dp, x.name);
    LandedChild(fs, b, dp, y, dp, x.name);
    SweptChild(fs, a, dp, x, dp, x.name);
    SweptChild(fs, b, dp, y, dp, x.name);
  }

  /** A source that one order moves and the other finds in place still has its entry after
      the other. */
  lemma MovedAgrees(fs: FS, a: seq<Source>, b: seq<Source>, dp: Id, x: Entry, y: Entry, k: Source)
    requires Ground(fs, dp) && Elsewhere(fs, a, dp) && k in a && b != []
    requires !InPlace(fs, a[0].dir, a[0].name, dp, a[0].name) && InPlace(fs, k.dir, k.name, dp, k.name)
    requires forall j | j in b :: j.name != k.name
    ensures Landed(fs, a, dp, x) != Landed(fs, b, dp, y)
  {
    SourceGone(fs, a, dp, x, k);
    LandedChild(fs, b, dp, y, k.dir, k.name);
    SweptChild(fs, b, dp, y, k.dir, k.name);
    assert k.name !in Taken(b, k.dir);
    if k.dir in Lost(fs, b, dp) {
      LandedRow(fs, b, dp, y, k.dir);
      LandedRow(fs, a, dp, x, k.dir);
      if k.dir in Lost(fs, a, dp) { KeptDir(a, k); }
    }
  }

  lemma KeptDir(a: seq<Source>, k: Source)
    requires k in a && k != a[0]
    ensures k.dir in Dirs(a[1..])
  {
    var i :| 0 <= i < |a| && a[i] == k;
    assert a[1..][i - 1] == k;
  }

  lemma LostAgrees(fs: FS, a: seq<Source>, b: seq<Source>, dp: Id, x: Entry, y: Entry)
    requires Ground(fs, dp) && Ends(fs, a, x) && Ends(fs, b, y) && a[|a| - 1] == b[|b| - 1] && SameSources(a, b)
    requires Landed(fs, a, dp, x) == Landed(fs, b, dp, y)
    ensures Lost(fs, a, dp) == Lost(fs, b, dp)
  {
    assert forall d :: Taken(a, d) == Taken(b, d);
    assert Swept(fs, a, dp, x) == Swept(fs, b, dp, y);
    forall o ensures o in Lost(fs, a, dp) <==> o in Lost(fs, b, dp) {
      LandedRow(fs, a, dp, x, o);
      LandedRow(fs, b, dp, y, o);
    }
  }

  /** Names are distinct, so a source is determined by its name. */
  lemma SourceNamed(srcs: seq<Source>, j: Source, k: Source)
    requires MoveFacts.Distinct(srcs) && j in srcs && k in srcs && j.name == k.name
    ensures j == k
  {
    var i :| 0 <= i < |srcs| && srcs[i] == j;
    var h :| 0 <= h < |srcs| && srcs[h] == k;
  }

  lemma LeadingOrMoved(fs: FS, srcs: seq<Source>, dp: Id, k: Source)
    requires k in srcs
    ensures k in MovedBy(fs, srcs, dp) || InPlace(fs, k.dir, k.name, dp, k.name)
  {
    var n := Leading(fs, srcs, dp);
    var i :| 0 <= i < |srcs| && srcs[i] == k;
    if i >= n { assert srcs[n..][i - n] == k; }
  }

  /** What one order moves the other moves. */
  lemma MovedIsMoved(fs: FS, srcs: seq<Source>, srcs': seq<Source>, dp: Id, x: Entry, y: Entry, k: Source)
    requires Ground(fs, dp) && MoveFacts.Distinct(srcs') && SameSources(srcs, srcs')
    requires Leading(fs, srcs, dp) < |srcs| && Leading(fs, srcs', dp) < |srcs'|
    requires var a, b := MovedBy(fs, srcs, dp), MovedBy(fs, srcs', dp);
             Elsewhere(fs, a, dp) && Landed(fs, a, dp, x) == Landed(fs, b, dp, y) && k in a
    ensures k in MovedBy(fs, srcs', dp)
  {
    var n, n' := Leading(fs, srcs, dp), Leading(fs, srcs', dp);
    var a, b := MovedBy(fs, srcs, dp), MovedBy(fs, srcs', dp);
    assert k in srcs;
    LeadingOrMoved(fs, srcs', dp, k);
    if k !in b {
      forall j | j in b ensures j.name != k.name {
        if j.name == k.name { SourceNamed(srcs', j, k); }
      }
      assert a[0] == srcs[n];
      MovedAgrees(fs, a, b, dp, x, y, k);
    }
  }

  /** The same sources are moved, the same one last, and the same inode is lost. */
  ghost predicate SameOutcome(fs: FS, a: seq<Source>, b: seq<Source>, dp: Id) {
    a != [] && b != [] && SameSources(a, b) && a[|a| - 1] == b[|b| - 1] && Lost(fs, a, dp) == Lost(fs, b, dp)
  }

  lemma LandingsAgree(fs: FS, srcs: seq<Source>, srcs': seq<Source>, dp: Id, x: Entry, y: Entry)
    requires Ground(fs, dp) && MoveFacts.Distinct(srcs) && MoveFacts.Distinct(srcs') && SameSources(srcs, srcs')
    requires Leading(fs, srcs, dp) < |srcs| && Leading(fs, srcs', dp) < |srcs'|
    requires var a, b := MovedBy(fs, srcs, dp), MovedBy(fs, srcs', dp);
             Ends(fs, a, x) && Ends(fs, b, y) && Elsewhere(fs, a, dp) && Elsewhere(fs, b, dp)
    ensures var a, b := MovedBy(fs, srcs, dp), MovedBy(fs, srcs', dp);
            Landed(fs, a, dp, x) == Landed(fs, b, dp, y) <==> SameOutcome(fs, a, b, dp)
  {
    var a, b := MovedBy(fs, srcs, dp), MovedBy(fs, srcs', dp);
    MovesCompare(fs, srcs, srcs', dp, x, y);
    LandingIff(fs, a, b, dp, x, y);
  }

  /** The last names tell the last sources apart, and equal stores come from the same sources. */
  ghost predicate Compare(fs: FS, a: seq<Source>, b: seq<Source>, dp: Id, x: Entry, y: Entry) {
    a != [] && b != [] && (a[|a| - 1].name == b[|b| - 1].name ==> a[|a| - 1] == b[|b| - 1])
    && (Landed(fs, a, dp, x) == Landed(fs, b, dp, y) ==> SameSources(a, b))
  }

  lemma MovesCompare(fs: FS, srcs: seq<Source>, srcs': seq<Source>, dp: Id, x: Entry, y: Entry)
    requires Ground(fs, dp) && MoveFacts.Distinct(srcs) && MoveFacts.Distinct(srcs') && SameSources(srcs, srcs')
    requires Leading(fs, srcs, dp) < |srcs| && Leading(fs, srcs', dp) < |srcs'|
    requires Elsewhere(fs, MovedBy(fs, srcs, dp), dp) && Elsewhere(fs, MovedBy(fs, srcs', dp), dp)
    ensures Compare(fs, MovedBy(fs, srcs, dp), MovedBy(fs, srcs', dp), dp, x, y)
  {
    MovedEnds(fs, srcs, srcs', dp);
    SameMoved(fs, srcs, srcs', dp, x, y);
  }

  lemma LandingIff(fs: FS, a: seq<Source>, b: seq<Source>, dp: Id, x: Entry, y: Entry)
    requires Ground(fs, dp) && Ends(fs, a, x) && Ends(fs, b, y)
    requires Compare(fs, a, b, dp, x, y)
    ensures Landed(fs, a, dp, x) == Landed(fs, b, dp, y) <==> SameOutcome(fs, a, b, dp)
  {
    if Landed(fs, a, dp, x) == Landed(fs, b, dp, y) {
      LastAgrees(fs, a, b, dp, x, y);
      LostAgrees(fs, a, b, dp, x, y);
    } else if SameOutcome(fs, a, b, dp) {
      SameLanding(fs, a, b, dp, x, y);
    }
  }

  lemma MovedEnds(fs: FS, srcs: seq<Source>, srcs': seq<Source>, dp: Id)
    requires MoveFacts.Distinct(srcs) && SameSources(srcs, srcs')
    requires Leading(fs, srcs, dp) < |srcs| && Leading(fs, srcs', dp) < |srcs'|
    ensures var a, b := MovedBy(fs, srcs, dp), MovedBy(fs, srcs', dp);
            a[|a| - 1].name == b[|b| - 1].name ==> a[|a| - 1] == b[|b| - 1]
  {
    TailEnds(fs, srcs, dp);
    TailEnds(fs, srcs', dp);
    LastNamed(srcs, srcs');
  }

  lemma LastNamed(srcs: seq<Source>, srcs': seq<Source>)
    requires MoveFacts.Distinct(srcs) && SameSources(srcs, srcs') && srcs != [] && srcs' != []
    ensures srcs[|srcs| - 1].name == srcs'[|srcs'| - 1].name ==> srcs[|srcs| - 1] == srcs'[|srcs'| - 1]
  {
    assert srcs'[|srcs'| - 1] in srcs';
    if srcs[|srcs| - 1].name == srcs'[|srcs'| - 1].name { SourceNamed(srcs, srcs[|srcs| - 1], srcs'[|srcs'| - 1]); }
  }

  lemma TailEnds(fs: FS, srcs: seq<Source>, dp: Id)
    requires Leading(fs, srcs, dp) < |srcs|
    ensures var a := MovedBy(fs, srcs, dp); a[|a| - 1] == srcs[|srcs| - 1]
  {
  }

  lemma SameMoved(fs: FS, srcs: seq<Source>, srcs': seq<Source>, dp: Id, x: Entry, y: Entry)
    requires Ground(fs, dp) && MoveFacts.Distinct(srcs) && MoveFacts.Distinct(srcs') && SameSources(srcs, srcs')
    requires Leading(fs, srcs, dp) < |srcs| && Leading(fs, srcs', dp) < |srcs'|
    requires var a, b := MovedBy(fs, srcs, dp), MovedBy(fs, srcs', dp);
             Elsewhere(fs, a, dp) && Elsewhere(fs, b, dp)
    ensures var a, b := MovedBy(fs, srcs, dp), MovedBy(fs, srcs', dp);
            Landed(fs, a, dp, x) == Landed(fs, b, dp, y) ==> SameSources(a, b)
  {
    var a, b := MovedBy(fs, srcs, dp), MovedBy(fs, srcs', dp);
    if Landed(fs, a, dp, x) == Landed(fs, b, dp, y) {
      forall k ensures k in a <==> k in b {
        if k in a { MovedIsMoved(fs, srcs, srcs', dp, x, y, k); }
        if k in b { MovedIsMoved(fs, srcs', srcs, dp, y, x, k); }
      }
    }
  }

  /** Two orders of one set of sources give the same store iff nothing is moved, or they move
      the same sources, the same one last, and lose the same inode. */
  lemma BatchOrder(fs: FS, roots: map<DriveId, Id>, root: Id, ps: seq<string>, qs: seq<string>, dstPath: string,
                   srcs: seq<Source>, srcs': seq<Source>, dp: Id)
    requires WellFormed(fs) && RootsOk(fs, roots) && CountsOk(fs, roots) && IsRoot(roots, root)
    requires BatchOf(fs, root, ps, dstPath, srcs, dp) && MoveMany(fs, root, ps, dstPath).Ok?
    requires BatchOf(fs, root, qs, dstPath, srcs', dp) && MoveMany(fs, root, qs, dstPath).Ok?
    requires SameSources(srcs, srcs')
    ensures AllInPlace(fs, srcs, dp) <==> AllInPlace(fs, srcs', dp)
    ensures MoveMany(fs, root, ps, dstPath).value.0.fs == MoveMany(fs, root, qs, dstPath).value.0.fs <==>
            AllInPlace(fs, srcs, dp) || SameOutcome(fs, MovedBy(fs, srcs, dp), MovedBy(fs, srcs', dp), dp)
  {
    LeadingAll(fs, srcs, dp);
    LeadingAll(fs, srcs', dp);
    BatchReady(fs, roots, root, ps, dstPath, srcs, dp);
    BatchReady(fs, roots, root, qs, dstPath, srcs', dp);
    if AllInPlace(fs, srcs, dp) {
      InPlaceKeeps(fs, srcs, dp);
      InPlaceKeeps(fs, srcs', dp);
    } else {
      var x := BatchLands(fs, roots, root, ps, dstPath, srcs, dp);
      var y := BatchLands(fs, roots, root, qs, dstPath, srcs', dp);
      LandingsAgree(fs, srcs, srcs', dp, x, y);
    }
  }

  lemma InPlaceKeeps(fs: FS, srcs: seq<Source>, dp: Id)
    requires AllReady(Tree(fs, fs), srcs, dp) && Apply(Tree(fs, fs), srcs, dp).Ok? && Leading(fs, srcs, dp) == |srcs|
    ensures Apply(Tree(fs, fs), srcs, dp).value.0 == Tree(fs, fs)
  {
    ApplyLeading(fs, srcs, dp);
    assert srcs[|srcs|..] == [];
  }

  /** Into a directory that lists none of the basenames: iff they end with the same source. */
  lemma BatchOrderIntoFree(fs: FS, roots: map<DriveId, Id>, root: Id, ps: seq<string>, qs: seq<string>, dstPath: string,
                           srcs: seq<Source>, srcs': seq<Source>, dp: Id)
    requires WellFormed(fs) && RootsOk(fs, roots) && CountsOk(fs, roots) && IsRoot(roots, root)
    requires BatchOf(fs, root, ps, dstPath, srcs, dp) && MoveMany(fs, root, ps, dstPath).Ok?
    requires BatchOf(fs, root, qs, dstPath, srcs', dp) && MoveMany(fs, root, qs, dstPath).Ok?
    requires SameSources(srcs, srcs') && srcs != [] && srcs' != []
             && forall k | k in srcs :: Child(fs, dp, k.name).None?
    ensures MoveMany(fs, root, ps, dstPath).value.0.fs == MoveMany(fs, root, qs, dstPath).value.0.fs <==>
            srcs[|srcs| - 1] == srcs'[|srcs'| - 1]
  {
    BatchOrder(fs, roots, root, ps, qs, dstPath, srcs, srcs', dp);
    assert srcs[0] in srcs && srcs'[0] in srcs';
    AllMoved(fs, srcs, dp);
    AllMoved(fs, srcs', dp);
  }

  /** Into a directory that does not list the first basename every source is moved, and no
      inode is lost. */
  lemma AllMoved(fs: FS, srcs: seq<Source>, dp: Id)
    requires srcs != [] && Child(fs, dp, srcs[0].name).None?
    ensures MovedBy(fs, srcs, dp) == srcs && Lost(fs, srcs, dp) == {} && !AllInPlace(fs, srcs, dp)
  {
    assert Leading(fs, srcs, dp) == 0 && srcs[0..] == srcs;
  }

  // ---------------------------------------------------------------- directory cycles

  /** The entries the sources were moved away from. */
  ghost function Left(fs: FS, moved: seq<Source>): set<Link> {
    set k | k in moved && Child(fs, k.dir, k.name).Some? :: Link(k.dir, k.name, Child(fs, k.dir, k.name).value)
  }

  lemma LeftIsTaken(fs: FS, moved: seq<Source>, l: Link)
    requires HasLink(fs, l)
    ensures l in Left(fs, moved) <==> l.name in Taken(moved, l.dir)
  {
    if l.name in Taken(moved, l.dir) {
      var k :| k in moved && k.dir == l.dir && k.name == l.name;
      assert Link(k.dir, k.name, Child(fs, k.dir, k.name).value) == l;
    }
  }

  lemma LandedLink(fs: FS, moved: seq<Source>, dp: Id, last: Entry, l: Link)
    requires Ground(fs, dp) && moved != []
    ensures l in Links(Landed(fs, moved, dp, last)) <==>
            l == Link(dp, last.name, last.ino)
            || (l in Links(fs) && l.dir != dp && l !in Left(fs, moved) && l.dir !in Lost(fs, moved, dp))
  {
    LandedRow(fs, moved, dp, last, dp);
    LandedChild(fs, moved, dp, last, l.dir, l.name);
    SweptChild(fs, moved, dp, last, l.dir, l.name);
    if HasLink(fs, l) { LeftIsTaken(fs, moved, l); }
    assert HasLink(Landed(fs, moved, dp, last), l) <==>
           Child(Landed(fs, moved, dp, last), l.dir, l.name) == Some(l.ino);
    assert HasLink(fs, l) <==> Child(fs, l.dir, l.name) == Some(l.ino);
  }

  /** The inode of the last source leads down to the destination without an entry that was
      moved away. */
  ghost predicate Encloses(fs: FS, x: Id, dp: Id, left: set<Link>) {
    exists q :: At(fs, x, q) == Some(dp) && Avoids(fs, x, q, left)
  }

  lemma {:induction false} AvoidsPrefix(fs: FS, x: Id, q: seq<string>, c: set<Link>, i: nat)
    requires At(fs, x, q).Some? && Avoids(fs, x, q, c) && 0 < i <= |q|
    ensures At(fs, x, q[..i]).Some? && LastLink(fs, x, q[..i]) !in c
    decreases |q|
  {
    if i == |q| {
      assert q[..i] == q;
    } else {
      AvoidsPrefix(fs, x, q[..|q| - 1], c, i);
      assert q[..|q| - 1][..i] == q[..i];
    }
  }

  /** Directories at most as deep as the destination are none of the inodes lost. */
  lemma ShallowStays(fs: FS, rank: map<Id, nat>, moved: seq<Source>, dp: Id, last: Entry, d: Id)
    requires Ground(fs, dp) && moved != [] && Ranked(fs, rank) && d in fs && fs[d].IsDir() && rank[d] <= rank[dp]
    ensures d !in Lost(fs, moved, dp) && d in Landed(fs, moved, dp, last) && Landed(fs, moved, dp, last)[d].IsDir()
  {
    assert forall y | y in Lost(fs, moved, dp) :: Link(dp, moved[0].name, y) in Links(fs);
    LandedRow(fs, moved, dp, last, d);
  }

  /** One step of the way from the last source down to the destination, after the batch. */
  lemma WayStep(fs: FS, rank: map<Id, nat>, moved: seq<Source>, dp: Id, last: Entry, x: Id, q: seq<string>, i: nat)
      returns (l: Link)
    requires Ground(fs, dp) && moved != [] && Ranked(fs, rank) && x in fs
    requires At(fs, x, q) == Some(dp) && Avoids(fs, x, q, Left(fs, moved)) && 0 < i <= |q|
    ensures At(fs, x, q[..i - 1]) == Some(l.dir) && At(fs, x, q[..i]) == Some(l.ino)
    ensures var gs := Landed(fs, moved, dp, last); l in Links(gs) && l.ino in gs && gs[l.ino].IsDir()
  {
    RankBetween(fs, rank, x, q, i - 1);
    RankBetween(fs, rank, x, q, i);
    assert q[..i][..i - 1] == q[..i - 1];
    l := LastLink(fs, x, q[..i]);
    AvoidsPrefix(fs, x, q, Left(fs, moved), i);
    ShallowStays(fs, rank, moved, dp, last, l.dir);
    ShallowStays(fs, rank, moved, dp, last, l.ino);
    LandedLink(fs, moved, dp, last, l);
  }

  lemma {:induction false} RankAlongWay(fs: FS, rank: map<Id, nat>, moved: seq<Source>, dp: Id, last: Entry, x: Id,
                                        q: seq<string>, rank': map<Id, nat>, i: nat)
    requires Ground(fs, dp) && moved != [] && Ranked(fs, rank) && x in fs && x in rank'
    requires At(fs, x, q) == Some(dp) && Avoids(fs, x, q, Left(fs, moved)) && i <= |q|
    requires Ranked(Landed(fs, moved, dp, last), rank')
    ensures var d := At(fs, x, q[..i]); d.Some? && d.value in rank' && rank'[x] <= rank'[d.value]
    decreases i
  {
    if i > 0 {
      RankAlongWay(fs, rank, moved, dp, last, x, q, rank', i - 1);
      var l := WayStep(fs, rank, moved, dp, last, x, q, i);
    } else {
      assert q[..0] == [];
    }
  }

  lemma EnclosingMakesCycle(fs: FS, moved: seq<Source>, dp: Id, last: Entry)
    requires Ground(fs, dp) && moved != [] && Acyclic(fs) && last.ino in fs
             && Encloses(fs, last.ino, dp, Left(fs, moved))
    ensures !Acyclic(Landed(fs, moved, dp, last))
  {
    var gs, x := Landed(fs, moved, dp, last), last.ino;
    var rank :| Ranked(fs, rank);
    var q :| At(fs, x, q) == Some(dp) && Avoids(fs, x, q, Left(fs, moved));
    forall rank' ensures !Ranked(gs, rank') {
      WayBackUp(fs, rank, moved, dp, last, q, rank');
    }
  }

  /** No ranking of the result: the way from the last source to the destination would rise
      and end where it began. */
  lemma WayBackUp(fs: FS, rank: map<Id, nat>, moved: seq<Source>, dp: Id, last: Entry, q: seq<string>,
                  rank': map<Id, nat>)
    requires Ground(fs, dp) && moved != [] && Ranked(fs, rank) && last.ino in fs
    requires At(fs, last.ino, q) == Some(dp) && Avoids(fs, last.ino, q, Left(fs, moved))
    ensures !Ranked(Landed(fs, moved, dp, last), rank')
  {
    var x := last.ino;
    RankBetween(fs, rank, x, q, 0);
    assert q[..0] == [] && q[..|q|] == q;
    ShallowStays(fs, rank, moved, dp, last, x);
    LandedLink(fs, moved, dp, last, Link(dp, last.name, x));
    if Ranked(Landed(fs, moved, dp, last), rank') { RankAlongWay(fs, rank, moved, dp, last, x, q, rank', |q|); }
  }

  /** The ranking with all that is enclosed by x lifted by k. */
  ghost function Lifted(fs: FS, rank: map<Id, nat>, x: Id, left: set<Link>, k: nat): map<Id, nat> {
    map y | y in rank :: if Encloses(fs, x, y, left) then rank[y] + k else rank[y]
  }

  lemma EnclosesStep(fs: FS, x: Id, left: set<Link>, l: Link)
    requires Encloses(fs, x, l.dir, left) && l in Links(fs) && l !in left
    ensures Encloses(fs, x, l.ino, left)
  {
    var q :| At(fs, x, q) == Some(l.dir) && Avoids(fs, x, q, left);
    AtSnoc(fs, x, q, l.name);
    assert (q + [l.name])[..|q|] == q;
    assert LastLink(fs, x, q + [l.name]) == l;
    assert Avoids(fs, x, q + [l.name], left);
  }

  lemma NotEnclosingKeepsAcyclic(fs: FS, moved: seq<Source>, dp: Id, last: Entry)
    requires Ground(fs, dp) && moved != [] && Acyclic(fs) && !Encloses(fs, last.ino, dp, Left(fs, moved))
    ensures Acyclic(Landed(fs, moved, dp, last))
  {
    var gs, x, left := Landed(fs, moved, dp, last), last.ino, Left(fs, moved);
    var rank :| Ranked(fs, rank);
    var rank' := Lifted(fs, rank, x, left, rank[dp] + 1);
    forall l | l in Links(gs) && l.ino in gs && gs[l.ino].IsDir()
      ensures l.dir in rank' && l.ino in rank' && rank'[l.dir] < rank'[l.ino]
    {
      LandedLink(fs, moved, dp, last, l);
      LandedRow(fs, moved, dp, last, l.ino);
      if l == Link(dp, last.name, x) {
        assert At(fs, x, []) == Some(x) && Avoids(fs, x, [], left);
      } else if Encloses(fs, x, l.dir, left) {
        EnclosesStep(fs, x, left, l);
      }
    }
    forall y | y in gs ensures y in rank' { LandedRow(fs, moved, dp, last, y); }
    assert Ranked(gs, rank');
  }

  /** A batch makes a directory cycle iff the last source really moved leads down to the
      destination by entries none of which the batch moves away. */
  lemma BatchKeepsAcyclic(fs: FS, roots: map<DriveId, Id>, root: Id, srcPaths: seq<string>,
                                             dstPath: string, srcs: seq<Source>, dp: Id)
    requires WellFormed(fs) && RootsOk(fs, roots) && CountsOk(fs, roots) && IsRoot(roots, root) && Acyclic(fs)
    requires BatchOf(fs, root, srcPaths, dstPath, srcs, dp) && MoveMany(fs, root, srcPaths, dstPath).Ok?
    ensures Acyclic(MoveMany(fs, root, srcPaths, dstPath).value.0.fs) <==> BatchOutward(fs, srcs, dp)
  {
    BatchReady(fs, roots, root, srcPaths, dstPath, srcs, dp);
    if Leading(fs, srcs, dp) == |srcs| {
      InPlaceKeeps(fs, srcs, dp);
    } else {
      var last := BatchLands(fs, roots, root, srcPaths, dstPath, srcs, dp);
      LandedAcyclic(fs, srcs, dp, last);
    }
  }

  /** The destination is not inside the last source, or the way to it is moved away. */
  ghost predicate BatchOutward(fs: FS, srcs: seq<Source>, dp: Id) {
    Leading(fs, srcs, dp) == |srcs|
    || var l := srcs[|srcs| - 1];
       Child(fs, l.dir, l.name).Some?
       && !Encloses(fs, Child(fs, l.dir, l.name).value, dp, Left(fs, MovedBy(fs, srcs, dp)))
  }

  lemma LandedAcyclic(fs: FS, srcs: seq<Source>, dp: Id, last: Entry)
    requires WellFormed(fs) && Ground(fs, dp) && Acyclic(fs) && Leading(fs, srcs, dp) < |srcs|
    requires Ends(fs, MovedBy(fs, srcs, dp), last)
    ensures Acyclic(Landed(fs, MovedBy(fs, srcs, dp), dp, last)) <==> BatchOutward(fs, srcs, dp)
  {
    var moved, l := MovedBy(fs, srcs, dp), srcs[|srcs| - 1];
    TailEnds(fs, srcs, dp);
    LinkTarget(fs, Link(l.dir, l.name, last.ino));
    if Encloses(fs, last.ino, dp, Left(fs, moved)) {
      EnclosingMakesCycle(fs, moved, dp, last);
    } else {
      NotEnclosingKeepsAcyclic(fs, moved, dp, last);
    }
  }

  // ---------------------------------------------------------------- tombstones and survivors

  lemma LandedGarbage(fs: FS, moved: seq<Source>, dp: Id, last: Entry, y: Id)
    requires Ground(fs, dp) && moved != [] && y in Landed(fs, moved, dp, last)
    ensures y in fs && Landed(fs, moved, dp, last)[y].Garbage() == fs[y].Garbage()
  {
    LandedRow(fs, moved, dp, last, y);
  }

  lemma BatchGarbage(fs: FS, roots: map<DriveId, Id>, root: Id, srcPaths: seq<string>,
                                        dstPath: string, srcs: seq<Source>, dp: Id)
    requires WellFormed(fs) && RootsOk(fs, roots) && CountsOk(fs, roots) && IsRoot(roots, root)
    requires BatchOf(fs, root, srcPaths, dstPath, srcs, dp) && MoveMany(fs, root, srcPaths, dstPath).Ok?
    ensures SameGarbage(fs, MoveMany(fs, root, srcPaths, dstPath).value.0.fs)
  {
    BatchReady(fs, roots, root, srcPaths, dstPath, srcs, dp);
    if Leading(fs, srcs, dp) == |srcs| {
      InPlaceKeeps(fs, srcs, dp);
    } else {
      var last := BatchLands(fs, roots, root, srcPaths, dstPath, srcs, dp);
      forall y | y in Landed(fs, MovedBy(fs, srcs, dp), dp, last)
        ensures y in fs && Landed(fs, MovedBy(fs, srcs, dp), dp, last)[y].Garbage() == fs[y].Garbage()
      {
        LandedGarbage(fs, MovedBy(fs, srcs, dp), dp, last, y);
      }
    }
  }

  /** No surviving inode is tombstoned by a batch iff no source in place before the first
      move is an object. */
  lemma BatchSparesSurvivors(fs: FS, roots: map<DriveId, Id>, root: Id, srcPaths: seq<string>,
                                                dstPath: string, srcs: seq<Source>, dp: Id)
    requires WellFormed(fs) && RootsOk(fs, roots) && CountsOk(fs, roots) && IsRoot(roots, root)
    requires SingleLinkObjects(fs) && DistinctRefs(fs)
    requires BatchOf(fs, root, srcPaths, dstPath, srcs, dp) && MoveMany(fs, root, srcPaths, dstPath).Ok?
    ensures var r := MoveMany(fs, root, srcPaths, dstPath).value;
            SparesSurvivors(r.0.fs, SetOf(r.1)) <==> LeadingRefs(fs, srcs, dp) == {}
  {
    var t := MoveMany(fs, root, srcPaths, dstPath).value;
    BatchTombstones(fs, roots, root, srcPaths, dstPath, srcs, dp);
    BatchGarbage(fs, roots, root, srcPaths, dstPath, srcs, dp);
    if LeadingRefs(fs, srcs, dp) == {} {
      DeletedSpares(fs, t.0.fs);
    } else {
      LeadingTombstoned(fs, roots, root, srcPaths, dstPath, srcs, dp);
    }
  }

  lemma LeadingTombstoned(fs: FS, roots: map<DriveId, Id>, root: Id, srcPaths: seq<string>,
                                             dstPath: string, srcs: seq<Source>, dp: Id)
    requires WellFormed(fs) && RootsOk(fs, roots) && CountsOk(fs, roots) && IsRoot(roots, root)
    requires SingleLinkObjects(fs) && DistinctRefs(fs) && LeadingRefs(fs, srcs, dp) != {}
    requires BatchOf(fs, root, srcPaths, dstPath, srcs, dp) && MoveMany(fs, root, srcPaths, dstPath).Ok?
    requires SameGarbage(fs, MoveMany(fs, root, srcPaths, dstPath).value.0.fs)
    ensures var r := MoveMany(fs, root, srcPaths, dstPath).value; !SparesSurvivors(r.0.fs, SetOf(r.1))
  {
    var n, t := Leading(fs, srcs, dp), MoveMany(fs, root, srcPaths, dstPath).value;
    BatchReady(fs, roots, root, srcPaths, dstPath, srcs, dp);
    BatchRefs(fs, srcs, dp);
    BatchDeletedRefs(fs, srcs, dp);
    var ref :| ref in LeadingRefs(fs, srcs, dp);
    var i := LeadingRefIsObject(fs, srcs, dp, ref);
    if n < |srcs| { EntryRefsDiffer(fs, roots, dp, srcs[i].name, srcs[n].name, ref); }
    SurvivorTombstoned(fs, t.0.fs, Child(fs, dp, srcs[i].name).value, ref, SetOf(t.1));
  }

  /** A recorded reference of an object that was there and was not deleted. */
  lemma SurvivorTombstoned(fs: FS, gs: FS, x: Id, ref: Ref, refs: set<Ref>)
    requires x in fs && fs[x].Garbage() == Some(ref) && ref in refs && ref !in DeletedRefs(fs, gs)
    requires SameGarbage(fs, gs)
    ensures !SparesSurvivors(gs, refs)
  {
    assert x in gs;
  }
}

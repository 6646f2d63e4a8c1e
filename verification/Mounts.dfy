/** Resolution across drives: resolveWithMounts, Resolve, Lstat and ResolveForPermission. */
module Mounts {
  import opened Paths
  import opened Inodes
  import opened Walk

  const MAX_MOUNT_HOPS := 32

  // ---------------------------------------------------------------- the resolver across drives

  /** resolveWithMounts from its hop-th iteration on. */
  function Cross(fs: FS, roots: map<DriveId, Id>, drive: DriveId, path: string, follow: bool,
                 visited: set<DriveId>, hop: nat): Result<(DriveId, Id)>
    decreases MAX_MOUNT_HOPS + 1 - hop
  {
    if hop > MAX_MOUNT_HOPS then Err(MaxMountHops)
    else if drive !in roots then Err(NotFound)
    else
      var out := ResolvePath(fs, roots[drive], path, follow);
      if out.Err? then Err(out.error)
      else if out.value.rest == [] then Ok((drive, out.value.ino))
      else
        var source := Source(fs, roots[drive], path, follow);
        if source in visited then Err(MountCycle)
        else Cross(fs, roots, source, "/" + Join(out.value.rest), follow, visited + {source}, hop + 1)
  }

  /** The drive behind the mount a walk stopped at. */
  function Source(fs: FS, root: Id, path: string, follow: bool): DriveId
    requires var r := ResolvePath(fs, root, path, follow); r.Ok? && r.value.rest != []
  {
    ResolvePlace(fs, root, path, follow);
    fs[ResolvePath(fs, root, path, follow).value.ino].content.source
  }

  function ResolveWithMounts(fs: FS, roots: map<DriveId, Id>, drive: DriveId, p: string,
                             follow: bool): Result<(DriveId, Id)> {
    Cross(fs, roots, drive, CleanPath(p), follow, {drive}, 1)
  }

  function Resolve(fs: FS, roots: map<DriveId, Id>, drive: DriveId, p: string): Result<(DriveId, Id)> {
    ResolveWithMounts(fs, roots, drive, p, true)
  }

  function Lstat(fs: FS, roots: map<DriveId, Id>, drive: DriveId, p: string): Result<(DriveId, Id)> {
    ResolveWithMounts(fs, roots, drive, p, false)
  }

  function ResolveForPermission(fs: FS, roots: map<DriveId, Id>, drive: DriveId, p: string): Result<(DriveId, string)> {
    if drive !in roots then Err(NotFound)
    else
      var out := ResolvePath(fs, roots[drive], p, true);
      if out.Err? then Err(out.error)
      else
        ResolvePlace(fs, roots[drive], p, true);
        var n := fs[out.value.ino];
        if n.content.Mount? then Ok((n.content.source, Join(out.value.rest))) else Ok((drive, p))
  }

  // ---------------------------------------------------------------- chains of drives

  /** ds are the drives a path passes through, each entered by the mount met in the one
      before; the walk ends on inode n of the last. No budget, no visited set. */
  ghost predicate Chain(fs: FS, roots: map<DriveId, Id>, follow: bool, path: string, ds: seq<DriveId>, n: Id)
    decreases |ds|
  {
    ds != [] && ds[0] in roots
    && var out := ResolvePath(fs, roots[ds[0]], path, follow);
       out.Ok?
       && if |ds| == 1 then out.value.rest == [] && out.value.ino == n
          else out.value.rest != []
               && ds[1] == Source(fs, roots[ds[0]], path, follow)
               && Chain(fs, roots, follow, "/" + Join(out.value.rest), ds[1..], n)
  }

  ghost predicate DistinctDrives(ds: seq<DriveId>) {
    forall i, j | 0 <= i < j < |ds| :: ds[i] != ds[j]
  }

  /** The turn of the loop at a mount. */
  lemma CrossOnward(fs: FS, roots: map<DriveId, Id>, drive: DriveId, path: string, follow: bool, visited: set<DriveId>,
                    hop: nat)
    requires hop <= MAX_MOUNT_HOPS && drive in roots
    requires ResolvePath(fs, roots[drive], path, follow).Ok?
             && ResolvePath(fs, roots[drive], path, follow).value.rest != []
    requires Source(fs, roots[drive], path, follow) !in visited
    ensures Cross(fs, roots, drive, path, follow, visited, hop) ==
            var source := Source(fs, roots[drive], path, follow);
            Cross(fs, roots, source, "/" + Join(ResolvePath(fs, roots[drive], path, follow).value.rest), follow,
                  visited + {source}, hop + 1)
  {
  }

  /** A chain, and the drive before it. */
  lemma ChainOnward(fs: FS, roots: map<DriveId, Id>, follow: bool, drive: DriveId, path: string, ds: seq<DriveId>,
                    n: Id)
    requires drive in roots && ds != []
    requires ResolvePath(fs, roots[drive], path, follow).Ok?
             && ResolvePath(fs, roots[drive], path, follow).value.rest != []
    requires ds[0] == Source(fs, roots[drive], path, follow)
    requires Chain(fs, roots, follow, "/" + Join(ResolvePath(fs, roots[drive], path, follow).value.rest), ds, n)
    ensures Chain(fs, roots, follow, path, [drive] + ds, n)
  {
    assert ([drive] + ds)[1..] == ds;
  }

  lemma DistinctDrivesTail(ds: seq<DriveId>)
    requires DistinctDrives(ds) && |ds| > 1
    ensures DistinctDrives(ds[1..]) && ds[1..][0] == ds[1] && ds[1..][|ds| - 2] == ds[|ds| - 1]
    ensures forall i | 1 <= i < |ds| - 1 :: ds[1..][i] == ds[i + 1] && ds[i + 1] != ds[1]
  {
  }

  lemma DistinctDrivesHead(d: DriveId, ds: seq<DriveId>)
    requires DistinctDrives(ds) && ds != [] && forall i | 0 <= i < |ds| :: ds[i] != d
    ensures DistinctDrives([d] + ds) && ([d] + ds)[1..] == ds && ([d] + ds)[|[d] + ds| - 1] == ds[|ds| - 1]
    ensures forall i | 1 <= i <= |ds| :: ([d] + ds)[i] == ds[i - 1]
  {
  }

  lemma StillUnseen(d: DriveId, ds: seq<DriveId>, visited: set<DriveId>, source: DriveId)
    requires ds != [] && ds[0] == source && source !in visited
    requires forall i | 1 <= i < |ds| :: ds[i] !in visited + {source}
    ensures forall i | 1 <= i < |[d] + ds| :: ([d] + ds)[i] !in visited
  {
    forall i | 1 <= i < |[d] + ds| ensures ([d] + ds)[i] !in visited { assert ([d] + ds)[i] == ds[i - 1]; }
  }

  lemma {:induction false} CrossSound(fs: FS, roots: map<DriveId, Id>, drive: DriveId, path: string, follow: bool,
                                      visited: set<DriveId>, hop: nat) returns (ds: seq<DriveId>)
    requires drive in visited && hop >= 1
    requires Cross(fs, roots, drive, path, follow, visited, hop).Ok?
    ensures var (d, n) := Cross(fs, roots, drive, path, follow, visited, hop).value;
            Chain(fs, roots, follow, path, ds, n) && ds[0] == drive && ds[|ds| - 1] == d
    ensures DistinctDrives(ds) && |ds| + hop <= MAX_MOUNT_HOPS + 1
    ensures forall i | 1 <= i < |ds| :: ds[i] !in visited
    decreases MAX_MOUNT_HOPS + 1 - hop
  {
    var out := ResolvePath(fs, roots[drive], path, follow);
    if out.value.rest == [] {
      ds := [drive];
    } else {
      var source := Source(fs, roots[drive], path, follow);
      CrossOnward(fs, roots, drive, path, follow, visited, hop);
      var rest := CrossSound(fs, roots, source, "/" + Join(out.value.rest), follow, visited + {source}, hop + 1);
      ds := [drive] + rest;
      DistinctDrivesHead(drive, rest);
      StillUnseen(drive, rest, visited, source);
      ChainOnward(fs, roots, follow, drive, path, rest, Cross(fs, roots, drive, path, follow, visited, hop).value.1);
    }
  }

  lemma {:induction false} CrossComplete(fs: FS, roots: map<DriveId, Id>, path: string, follow: bool,
                                         visited: set<DriveId>, hop: nat, ds: seq<DriveId>, n: Id)
    requires Chain(fs, roots, follow, path, ds, n) && DistinctDrives(ds) && |ds| + hop <= MAX_MOUNT_HOPS + 1
    requires forall i | 1 <= i < |ds| :: ds[i] !in visited
    ensures Cross(fs, roots, ds[0], path, follow, visited, hop) == Ok((ds[|ds| - 1], n))
    decreases |ds|
  {
    if |ds| > 1 {
      var rest := ChainTail(fs, roots, path, follow, ds, n);
      DistinctDrivesTail(ds);
      CrossComplete(fs, roots, rest, follow, visited + {ds[1]}, hop + 1, ds[1..], n);
      CrossOnward(fs, roots, ds[0], path, follow, visited, hop);
    }
  }

  /** A chain without its first drive. */
  lemma ChainTail(fs: FS, roots: map<DriveId, Id>, path: string, follow: bool, ds: seq<DriveId>, n: Id)
      returns (rest: string)
    requires Chain(fs, roots, follow, path, ds, n) && |ds| > 1
    ensures ds[0] in roots
    ensures var out := ResolvePath(fs, roots[ds[0]], path, follow);
            out.Ok? && out.value.rest != [] && rest == "/" + Join(out.value.rest)
            && ds[1] == Source(fs, roots[ds[0]], path, follow)
    ensures Chain(fs, roots, follow, rest, ds[1..], n)
  {
    rest := "/" + Join(ResolvePath(fs, roots[ds[0]], path, follow).value.rest);
  }

  /** Resolution succeeds exactly when the path passes through at most 32 drives, so at
      most 31 mounts, all drives different. */
  lemma ResolveIffChain(fs: FS, roots: map<DriveId, Id>, drive: DriveId, p: string, follow: bool, d: DriveId, n: Id)
    ensures ResolveWithMounts(fs, roots, drive, p, follow) == Ok((d, n)) <==>
            exists ds :: Chain(fs, roots, follow, CleanPath(p), ds, n) && DistinctDrives(ds) && |ds| <= 32
                         && ds[0] == drive && ds[|ds| - 1] == d
  {
    if ResolveWithMounts(fs, roots, drive, p, follow) == Ok((d, n)) {
      var ds := CrossSound(fs, roots, drive, CleanPath(p), follow, {drive}, 1);
    }
    if ds :| Chain(fs, roots, follow, CleanPath(p), ds, n) && DistinctDrives(ds) && |ds| <= MAX_MOUNT_HOPS
             && ds[0] == drive && ds[|ds| - 1] == d {
      CrossComplete(fs, roots, CleanPath(p), follow, {drive}, 1, ds, n);
    }
  }

  /** All drives a mount can lead to. */
  ghost predicate SourcesWithin(fs: FS, drives: set<DriveId>) {
    forall x | x in fs && fs[x].content.Mount? :: fs[x].content.source in drives
  }

  lemma {:induction false} HopsBounded(fs: FS, roots: map<DriveId, Id>, drive: DriveId, path: string, follow: bool,
                                       visited: set<DriveId>, hop: nat, drives: set<DriveId>)
    requires SourcesWithin(fs, drives) && visited <= drives && |drives| <= MAX_MOUNT_HOPS && |visited| == hop
    ensures Cross(fs, roots, drive, path, follow, visited, hop) != Err(MaxMountHops)
    decreases MAX_MOUNT_HOPS + 1 - hop
  {
    SubsetCard(visited, drives);
    if drive in roots {
      var out := ResolvePath(fs, roots[drive], path, follow);
      if out.Ok? && out.value.rest != [] {
        ResolvePlace(fs, roots[drive], path, follow);
        var source := Source(fs, roots[drive], path, follow);
        if source !in visited {
          HopsBounded(fs, roots, source, "/" + Join(out.value.rest), follow, visited + {source}, hop + 1, drives);
        }
      } else if out.Err? {
        WalkNeverCountsHops(fs, roots[drive], path, follow);
      }
    }
  }

  lemma {:induction false} WalkErrors(fs: FS, root: Id, done: seq<string>, cur: Id, todo: seq<string>, follow: bool,
                                      visited: set<Id>)
    requires root in fs && cur in fs
    ensures WalkFrom(fs, root, done, cur, todo, follow, visited) != Err(MaxMountHops)
    decreases MAX_SYMLINK_DEPTH - |visited|, |todo|
  {
    if todo != [] && fs[cur].IsDir() {
      var e := Find(fs[cur].content.entries, todo[0]);
      if e.Some? && e.value.ino in fs && !fs[e.value.ino].content.Mount? {
        var c := e.value.ino;
        if follow && fs[c].content.Symlink? {
          if |visited| < MAX_SYMLINK_DEPTH && c !in visited {
            WalkErrors(fs, root, [], root, Comps(Spliced(done, fs[c].content.target, todo[1..])), follow,
                       visited + {c});
          }
        } else {
          WalkErrors(fs, root, done + [todo[0]], c, todo[1..], follow, visited);
        }
      }
    }
  }

  lemma WalkNeverCountsHops(fs: FS, root: Id, path: string, follow: bool)
    ensures ResolvePath(fs, root, path, follow) != Err(MaxMountHops)
  {
    if root in fs { WalkErrors(fs, root, [], root, Comps(path), follow, {}); }
  }

  /** With at most 32 drives in play the hop limit is never reached: the visited set
      reports the cycle first. */
  lemma HopLimitUnreachable(fs: FS, roots: map<DriveId, Id>, drive: DriveId, p: string, follow: bool,
                            drives: set<DriveId>)
    requires SourcesWithin(fs, drives) && drive in drives && |drives| <= MAX_MOUNT_HOPS
    ensures ResolveWithMounts(fs, roots, drive, p, follow) != Err(MaxMountHops)
  {
    HopsBounded(fs, roots, drive, CleanPath(p), follow, {drive}, 1, drives);
  }

  // ---------------------------------------------------------------- stat and lstat

  lemma {:induction false} CrossNoFollow(fs: FS, roots: map<DriveId, Id>, drive: DriveId, path: string,
                                         visited: set<DriveId>, hop: nat)
    ensures var r := Cross(fs, roots, drive, path, false, visited, hop);
            r.Ok? && r.value.1 in fs && !fs[r.value.1].content.Symlink? ==>
              Cross(fs, roots, drive, path, true, visited, hop) == r
    decreases MAX_MOUNT_HOPS + 1 - hop
  {
    if hop <= MAX_MOUNT_HOPS && drive in roots && roots[drive] in fs {
      var out := ResolvePath(fs, roots[drive], path, false);
      HopNoFollow(fs, roots[drive], path);
      if out.Ok? && out.value.rest != [] {
        var source := Source(fs, roots[drive], path, false);
        if source !in visited {
          CrossNoFollow(fs, roots, source, "/" + Join(out.value.rest), visited + {source}, hop + 1);
        }
      }
    }
  }

  lemma HopNoFollow(fs: FS, root: Id, path: string)
    ensures var out := ResolvePath(fs, root, path, false);
            out.Ok? && (out.value.rest != [] || (out.value.ino in fs && !fs[out.value.ino].content.Symlink?)) ==>
              ResolvePath(fs, root, path, true) == out
  {
    if root in fs { NoFollowAgrees(fs, root, [], root, Comps(path), {}); }
    ResolvePlace(fs, root, path, false);
  }

  /** If Lstat returns a non-symlink, Stat returns the same drive and node. */
  lemma LstatStat(fs: FS, roots: map<DriveId, Id>, drive: DriveId, p: string)
    ensures var r := Lstat(fs, roots, drive, p);
            r.Ok? && r.value.1 in fs && !fs[r.value.1].content.Symlink? ==> Resolve(fs, roots, drive, p) == r
  {
    CrossNoFollow(fs, roots, drive, CleanPath(p), {drive}, 1);
  }

  /** A chain of following resolutions ends on no symlink. */
  lemma {:induction false} ChainFollows(fs: FS, roots: map<DriveId, Id>, path: string, ds: seq<DriveId>, n: Id)
    requires forall d | d in roots :: roots[d] in fs && fs[roots[d]].IsDir()
    requires Chain(fs, roots, true, path, ds, n)
    ensures n in fs && !fs[n].content.Symlink?
    decreases |ds|
  {
    ResolvedFollows(fs, roots[ds[0]], path);
    if |ds| > 1 {
      var out := ResolvePath(fs, roots[ds[0]], path, true).value;
      ChainFollows(fs, roots, "/" + Join(out.rest), ds[1..], n);
    }
  }

  lemma ResolvedFollows(fs: FS, root: Id, path: string)
    requires root in fs && fs[root].IsDir()
    ensures var out := ResolvePath(fs, root, path, true);
            out.Ok? ==> out.value.ino in fs && !fs[out.value.ino].content.Symlink?
  {
    WalkFollows(fs, root, [], root, Comps(path), {});
  }

  /** Following resolution never returns a symlink, across any number of mounts. */
  lemma ResolveFollows(fs: FS, roots: map<DriveId, Id>, drive: DriveId, p: string)
    requires forall d | d in roots :: roots[d] in fs && fs[roots[d]].IsDir()
    ensures var r := Resolve(fs, roots, drive, p); r.Ok? ==> r.value.1 in fs && !fs[r.value.1].content.Symlink?
  {
    if Resolve(fs, roots, drive, p).Ok? {
      var ds := CrossSound(fs, roots, drive, CleanPath(p), true, {drive}, 1);
      ChainFollows(fs, roots, CleanPath(p), ds, Resolve(fs, roots, drive, p).value.1);
    }
  }

  // ---------------------------------------------------------------- what lstat finds

  /** The drives that names pass through when they are looked up one by one, and the inode of the
      last of them, whatever its kind: a mount with names left leads on to the root of its drive,
      and nothing else is ever followed. No restart, no budget, no visited set. */
  function Trail(fs: FS, roots: map<DriveId, Id>, drive: DriveId, cur: Id, names: seq<string>)
    : (r: Option<(seq<DriveId>, Id)>)
    ensures r.Some? ==> r.value.0 != [] && r.value.0[0] == drive
    decreases |names|
  {
    if names == [] then Some(([drive], cur))
    else
      var c := Child(fs, cur, names[0]);
      if c.None? || c.value !in fs then None
      else if fs[c.value].content.Mount? && |names| > 1 then
        Onward(drive, if fs[c.value].content.source !in roots then None
                      else Trail(fs, roots, fs[c.value].content.source, roots[fs[c.value].content.source], names[1..]))
      else Trail(fs, roots, drive, c.value, names[1..])
  }

  function Onward(drive: DriveId, r: Option<(seq<DriveId>, Id)>): Option<(seq<DriveId>, Id)> {
    if r.None? then None else Some(([drive] + r.value.0, r.value.1))
  }

  /** Where names lead from the root of a drive, if they pass through at most 32 drives, none of
      them twice. */
  ghost function Literally(fs: FS, roots: map<DriveId, Id>, drive: DriveId, names: seq<string>)
    : Option<(DriveId, Id)> {
    if drive !in roots || roots[drive] !in fs then None
    else
      var r := Trail(fs, roots, drive, roots[drive], names);
      if r.Some? && DistinctDrives(r.value.0) && |r.value.0| <= 32
      then Some((r.value.0[|r.value.0| - 1], r.value.1)) else None
  }

  /** The last name does not end in white space, so the names are read again as they are. */
  ghost predicate Trimmed(names: seq<string>) { names == [] || !EndsInSpace(names[|names| - 1]) }

  /** One hop that follows nothing is the trail up to the first mount with names left. */
  lemma {:induction false} WalkIsTrail(fs: FS, roots: map<DriveId, Id>, root: Id, drive: DriveId, done: seq<string>,
                                       cur: Id, todo: seq<string>)
    requires Here(fs, root, done, cur) && Names(todo) && Trimmed(todo)
    ensures var r := WalkFrom(fs, root, done, cur, todo, false, {});
            Trail(fs, roots, drive, cur, todo) ==
            (if r.Err? then None
             else if r.value.rest == [] then Some(([drive], r.value.ino))
             else Onward(drive, FromMount(fs, roots, r.value)))
            && (r.Ok? ==> Names(r.value.rest) && Trimmed(r.value.rest))
    decreases |todo|
  {
    if todo != [] && fs[cur].IsDir() {
      var e := Find(fs[cur].content.entries, todo[0]);
      if e.Some? && e.value.ino in fs {
        AtSnoc(fs, root, done, todo[0]);
        assert forall n | n in todo[1..] :: n in todo;
        if !fs[e.value.ino].content.Mount? {
          WalkIsTrail(fs, roots, root, drive, done + [todo[0]], e.value.ino, todo[1..]);
        }
      }
    }
  }

  /** The trail from the mount a walk stopped at. */
  ghost function FromMount(fs: FS, roots: map<DriveId, Id>, f: Found): Option<(seq<DriveId>, Id)> {
    if f.ino in fs && fs[f.ino].content.Mount? && fs[f.ino].content.source in roots
    then Trail(fs, roots, fs[f.ino].content.source, roots[fs[f.ino].content.source], f.rest) else None
  }

  lemma {:induction false} ChainIsTrail(fs: FS, roots: map<DriveId, Id>, path: string, ds: seq<DriveId>, n: Id)
    requires Trimmed(Comps(path))
    ensures Chain(fs, roots, false, path, ds, n) <==>
            ds != [] && ds[0] in roots && roots[ds[0]] in fs
            && Trail(fs, roots, ds[0], roots[ds[0]], Comps(path)) == Some((ds, n))
    decreases |ds|
  {
    if ds != [] && ds[0] in roots && roots[ds[0]] in fs {
      var root := roots[ds[0]];
      CompsAreNames(path);
      WalkIsTrail(fs, roots, root, ds[0], [], root, Comps(path));
      ResolvePlace(fs, root, path, false);
      var out := ResolvePath(fs, root, path, false);
      if out.Ok? && out.value.rest != [] {
        CompsOfNames(out.value.rest);
        ChainIsTrail(fs, roots, "/" + Join(out.value.rest), ds[1..], n);
        OnwardIs(ds, FromMount(fs, roots, out.value), n);
      } else {
        assert [ds[0]] == ds <==> |ds| == 1;
      }
    }
  }

  lemma OnwardIs(ds: seq<DriveId>, r: Option<(seq<DriveId>, Id)>, n: Id)
    requires ds != [] && (r.Some? ==> r.value.0 != [])
    ensures Onward(ds[0], r) == Some((ds, n)) <==> |ds| > 1 && r == Some((ds[1..], n))
  {
    assert ds == [ds[0]] + ds[1..];
    if r.Some? { assert ([ds[0]] + r.value.0)[1..] == r.value.0; }
  }

  /** A chain of hops that follows nothing, within the limit, is what the names literally lead to. */
  lemma ChainIsLiteral(fs: FS, roots: map<DriveId, Id>, drive: DriveId, path: string, names: seq<string>, d: DriveId,
                       x: Id)
    requires names == Comps(path) && Trimmed(names)
    ensures Literally(fs, roots, drive, names) == Some((d, x)) <==>
            exists ds :: Chain(fs, roots, false, path, ds, x) && DistinctDrives(ds) && |ds| <= 32
                         && ds[0] == drive && ds[|ds| - 1] == d
  {
    if Literally(fs, roots, drive, names) == Some((d, x)) {
      ChainIsTrail(fs, roots, path, Trail(fs, roots, drive, roots[drive], names).value.0, x);
    }
    if ds :| Chain(fs, roots, false, path, ds, x) && DistinctDrives(ds) && |ds| <= 32
             && ds[0] == drive && ds[|ds| - 1] == d {
      ChainIsTrail(fs, roots, path, ds, x);
    }
  }

  /** Lstat finds exactly what the names of the path literally lead to: the inode of the last
      entry itself, be it a symlink, and nothing if a symlink lies before the last name. */
  lemma LstatIsLiteral(fs: FS, roots: map<DriveId, Id>, drive: DriveId, p: string, d: DriveId, x: Id)
    requires CleanPath(CleanPath(p)) == CleanPath(p)
    ensures Lstat(fs, roots, drive, p) == Ok((d, x)) <==> Literally(fs, roots, drive, Comps(p)) == Some((d, x))
  {
    var names := CleanedTwice(p);
    ResolveIffChain(fs, roots, drive, p, false, d, x);
    ChainIsLiteral(fs, roots, drive, CleanPath(p), names, d, x);
  }

  lemma CleanedTwice(p: string) returns (names: seq<string>)
    requires CleanPath(CleanPath(p)) == CleanPath(p)
    ensures Comps(CleanPath(p)) == Comps(p) == names && Trimmed(names)
  {
    names := Comps(p);
    CleanPathIdempotent(p);
    CompsAreNames(p);
    CleanPathForm(p);
    CompsOfNames(names);
  }

  /** In a directory that Lstat finds, it finds every entry, symlinks included. */
  lemma LstatOfEntry(fs: FS, roots: map<DriveId, Id>, drive: DriveId, p: string, d: DriveId, dir: Id, x: Id)
    requires Comps(p) != [] && AllTidy(Comps(p)) && Lstat(fs, roots, drive, ParentPath(p)) == Ok((d, dir))
    requires Child(fs, dir, Comps(p)[|Comps(p)| - 1]) == Some(x) && x in fs
    ensures Lstat(fs, roots, drive, p) == Ok((d, x))
  {
    var init := Comps(p)[..|Comps(p)| - 1];
    ParentIsLiteral(fs, roots, drive, p, init, d, dir);
    EntryIsFound(fs, roots, drive, p, Comps(p), init, d, dir, x);
  }

  lemma EntryIsFound(fs: FS, roots: map<DriveId, Id>, drive: DriveId, p: string, names: seq<string>,
                     init: seq<string>, d: DriveId, dir: Id, x: Id)
    requires names != [] && names == Comps(p) && AllTidy(names) && init == names[..|names| - 1]
    requires Literally(fs, roots, drive, init) == Some((d, dir)) && Child(fs, dir, names[|names| - 1]) == Some(x)
    requires x in fs
    ensures Lstat(fs, roots, drive, p) == Ok((d, x))
  {
    LiterallySnoc(fs, roots, drive, init, names[|names| - 1], d, dir, x);
    assert names == init + [names[|names| - 1]];
    LiteralIsFound(fs, roots, drive, p, names, d, x);
  }

  lemma LiteralIsFound(fs: FS, roots: map<DriveId, Id>, drive: DriveId, p: string, names: seq<string>, d: DriveId,
                       x: Id)
    requires AllTidy(names) && names == Comps(p) && Literally(fs, roots, drive, names) == Some((d, x))
    ensures Lstat(fs, roots, drive, p) == Ok((d, x))
  {
    TidyIsSettled(p);
    LstatIsLiteral(fs, roots, drive, p, d, x);
  }

  lemma ParentIsLiteral(fs: FS, roots: map<DriveId, Id>, drive: DriveId, p: string, init: seq<string>, d: DriveId,
                        dir: Id)
    requires Comps(p) != [] && AllTidy(Comps(p)) && init == Comps(p)[..|Comps(p)| - 1]
    requires Lstat(fs, roots, drive, ParentPath(p)) == Ok((d, dir))
    ensures Literally(fs, roots, drive, init) == Some((d, dir))
  {
    ParentPathSettled(p, init);
    LstatIsLiteral(fs, roots, drive, ParentPath(p), d, dir);
  }

  lemma LiterallySnoc(fs: FS, roots: map<DriveId, Id>, drive: DriveId, init: seq<string>, l: string, d: DriveId,
                      dir: Id, x: Id)
    requires Literally(fs, roots, drive, init) == Some((d, dir)) && Child(fs, dir, l) == Some(x) && x in fs
    ensures Literally(fs, roots, drive, init + [l]) == Some((d, x))
  {
    TrailSnoc(fs, roots, drive, roots[drive], init, l, x);
  }

  lemma ParentPathSettled(p: string, init: seq<string>)
    requires Comps(p) != [] && AllTidy(Comps(p)) && init == Comps(p)[..|Comps(p)| - 1]
    ensures Comps(ParentPath(p)) == init && CleanPath(CleanPath(ParentPath(p))) == CleanPath(ParentPath(p))
  {
    CompsAreNames(p);
    NamesTidyComps(init);
    TidyIsSettled(ParentPath(p));
  }

  lemma TidyIsSettled(p: string)
    requires AllTidy(Comps(p))
    ensures CleanPath(CleanPath(p)) == CleanPath(p)
  {
    CleanPathIdempotent(p);
    if Comps(p) != [] { assert Comps(p)[|Comps(p)| - 1] in Comps(p); }
  }

  lemma {:induction false} TrailSnoc(fs: FS, roots: map<DriveId, Id>, drive: DriveId, cur: Id, names: seq<string>,
                                     l: string, x: Id)
    requires Trail(fs, roots, drive, cur, names).Some? && x in fs
    requires Child(fs, Trail(fs, roots, drive, cur, names).value.1, l) == Some(x)
    ensures Trail(fs, roots, drive, cur, names + [l]) == Some((Trail(fs, roots, drive, cur, names).value.0, x))
    decreases |names|
  {
    if names == [] {
      assert names + [l] == [l] && [l][1..] == [];
    } else {
      var c := Child(fs, cur, names[0]).value;
      assert (names + [l])[1..] == names[1..] + [l];
      if fs[c].content.Mount? && |names| > 1 {
        var source := fs[c].content.source;
        TrailSnoc(fs, roots, source, roots[source], names[1..], l, x);
      } else {
        TrailSnoc(fs, roots, drive, c, names[1..], l, x);
      }
    }
  }

  /** A symlink with names left after it ends the trail. */
  lemma {:induction false} TrailStops(fs: FS, roots: map<DriveId, Id>, drive: DriveId, cur: Id, names: seq<string>,
                                      i: nat)
    requires i < |names| && Trail(fs, roots, drive, cur, names[..i]).Some?
    requires var c := Trail(fs, roots, drive, cur, names[..i]).value.1; c in fs && fs[c].content.Symlink?
    ensures Trail(fs, roots, drive, cur, names).None?
    decreases |names|
  {
    if i > 0 {
      var c := Child(fs, cur, names[0]).value;
      assert names[..i][0] == names[0] && names[..i][1..] == names[1..][..i - 1];
      if fs[c].content.Mount? && i > 1 {
        if fs[c].content.source in roots {
          TrailStops(fs, roots, fs[c].content.source, roots[fs[c].content.source], names[1..], i - 1);
        }
      } else {
        TrailStops(fs, roots, drive, c, names[1..], i - 1);
      }
    }
  }

  /** So Lstat fails on every path with a symlink before its last name. */
  lemma LstatStopsAtLink(fs: FS, roots: map<DriveId, Id>, drive: DriveId, p: string, i: nat)
    requires CleanPath(CleanPath(p)) == CleanPath(p) && i < |Comps(p)|
    requires drive in roots && Trail(fs, roots, drive, roots[drive], Comps(p)[..i]).Some?
    requires var c := Trail(fs, roots, drive, roots[drive], Comps(p)[..i]).value.1; c in fs && fs[c].content.Symlink?
    ensures Lstat(fs, roots, drive, p).Err?
  {
    TrailStops(fs, roots, drive, roots[drive], Comps(p), i);
    if Lstat(fs, roots, drive, p).Ok? {
      var r := Lstat(fs, roots, drive, p).value;
      LstatIsLiteral(fs, roots, drive, p, r.0, r.1);
    }
  }

  // ---------------------------------------------------------------- permission resolution

  /** Fewer drives behind it never stops a resolution. */
  lemma {:induction false} CrossFewer(fs: FS, roots: map<DriveId, Id>, drive: DriveId, path: string, follow: bool,
                                      more: set<DriveId>, later: nat, fewer: set<DriveId>, earlier: nat)
    requires fewer <= more && earlier <= later
    requires Cross(fs, roots, drive, path, follow, more, later).Ok?
    ensures Cross(fs, roots, drive, path, follow, fewer, earlier) == Cross(fs, roots, drive, path, follow, more, later)
    decreases MAX_MOUNT_HOPS + 1 - later
  {
    var out := ResolvePath(fs, roots[drive], path, follow);
    if out.value.rest != [] {
      var source, rest := Source(fs, roots[drive], path, follow), "/" + Join(out.value.rest);
      CrossOnward(fs, roots, drive, path, follow, more, later);
      assert source !in fewer;
      CrossOnward(fs, roots, drive, path, follow, fewer, earlier);
      CrossFewer(fs, roots, source, rest, follow, more + {source}, later + 1, fewer + {source}, earlier + 1);
    }
  }

  /** What is left over after a mount is again a list of tidy names. */
  lemma {:induction false} WalkRest(fs: FS, root: Id, done: seq<string>, cur: Id, todo: seq<string>, follow: bool,
                                    visited: set<Id>)
    requires Walking(fs, root, done, cur, todo)
    ensures var r := WalkFrom(fs, root, done, cur, todo, follow, visited); r.Ok? ==> TidyNames(r.value.rest)
    decreases MAX_SYMLINK_DEPTH - |visited|, |todo|
  {
    if todo != [] && fs[cur].IsDir() {
      var e := Find(fs[cur].content.entries, todo[0]);
      if e.Some? && e.value.ino in fs && !fs[e.value.ino].content.Mount? {
        var c := e.value.ino;
        AtSnoc(fs, root, done, todo[0]);
        if follow && fs[c].content.Symlink? {
          if |visited| < MAX_SYMLINK_DEPTH && c !in visited {
            var (base, added) := Resume(done, fs[c].content.target);
            FollowResumes(fs, root, done, cur, todo, c, visited + {c});
            SplicedMeans(done, fs[c].content.target, todo[1..]);
            assert TidyNames(base + added + todo[1..]);
            WalkRest(fs, root, [], root, Comps(Spliced(done, fs[c].content.target, todo[1..])), follow, visited + {c});
          }
        } else {
          assert todo[0] in todo;
          WalkRest(fs, root, done + [todo[0]], c, todo[1..], follow, visited);
        }
      }
    }
  }

  lemma CleanAgain(names: seq<string>)
    requires TidyNames(names)
    ensures CleanPath("/" + Join(names)) == "/" + Join(names)
  {
    NamesTidyComps(names);
    CleanPathForm("/" + Join(names));
  }

  /** Crossing a mount: the caller is sent to another drive with a nonempty rest, and
      resolving that rest there gives what the whole resolution gave. */
  lemma PermissionAcrossMount(fs: FS, roots: map<DriveId, Id>, drive: DriveId, p: string)
    requires TidyTargets(fs) && AllTidy(Comps(p))
    requires Resolve(fs, roots, drive, p).Ok? && Resolve(fs, roots, drive, p).value.0 != drive
    ensures var perm := ResolveForPermission(fs, roots, drive, p);
            perm.Ok? && perm.value.0 != drive && perm.value.1 != ""
            && Resolve(fs, roots, perm.value.0, "/" + perm.value.1) == Resolve(fs, roots, drive, p)
  {
    var root := roots[drive];
    SamePathTwice(p);
    CompsAreNames(p);
    WalkRest(fs, root, [], root, Comps(p), true, {});
    var out := ResolvePath(fs, root, p, true);
    ResolvePlace(fs, root, p, true);
    var rest := out.value.rest;
    JoinEmpty(rest);
    var source := Source(fs, root, CleanPath(p), true);
    CleanAgain(rest);
    CrossFewer(fs, roots, source, "/" + Join(rest), true, {drive} + {source}, 2, {source}, 1);
  }

  /** On a tidy path cleaning twice changes nothing. */
  lemma SamePathTwice(p: string)
    requires AllTidy(Comps(p))
    ensures Comps(CleanPath(p)) == Comps(p)
  {
    CompsAreNames(p);
    CleanPathForm(p);
    NamesTidyComps(Comps(p));
  }

  /** Without a mount on the way the request is handed back unchanged. */
  lemma PermissionWithinDrive(fs: FS, roots: map<DriveId, Id>, drive: DriveId, p: string)
    requires AllTidy(Comps(p))
    requires drive in roots && ResolvePath(fs, roots[drive], p, true).Ok?
             && ResolvePath(fs, roots[drive], p, true).value.rest == []
    ensures Resolve(fs, roots, drive, p) == Ok((drive, ResolvePath(fs, roots[drive], p, true).value.ino))
    ensures var n := ResolvePath(fs, roots[drive], p, true).value.ino;
            n in fs && (ResolveForPermission(fs, roots, drive, p) ==
                        if fs[n].content.Mount? then Ok((fs[n].content.source, "")) else Ok((drive, p)))
  {
    SamePathTwice(p);
    ResolvePlace(fs, roots[drive], p, true);
  }
}

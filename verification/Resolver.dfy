/** The caching resolver of internal/vfs/path.go. */
module Resolvers {
  import opened Paths
  import opened Inodes
  import opened Walk
  import opened NodeOps

  lemma CleanPathRoot(p: string)
    ensures CleanPath(p) == "" || CleanPath(p) == "/" <==> Comps(p) == []
    ensures SplitPath(CleanPath(p)) == Comps(p) && Names(Comps(p))
  {
    CleanPathComponents(p);
    CleanPathForm(p);
    JoinEmpty(Comps(p));
    assert CleanPath(p)[1..] == Join(Comps(p));
  }

  lemma NextPart(parts: seq<string>, i: nat)
    requires i < |parts|
    ensures parts[i..] != [] && parts[i..][0] == parts[i] && parts[i..][1..] == parts[i + 1..]
    ensures parts[..i] + [parts[i]] == parts[..i + 1] && parts[i] in parts
  {
  }

  class Resolver {
    const client: NodeOperation
    var cache: map<Id, Handle>

    constructor (client: NodeOperation)
      ensures this.client == client && cache == map[]
    {
      this.client := client;
      cache := map[];
    }

    /** Cached handles are copies of the rows they were loaded from. */
    ghost predicate Coherent()
      reads this, client.db, cache.Values
    {
      forall id | id in cache ::
        cache[id].id == id && id in client.db.fs && cache[id].inode == client.db.fs[id]
    }

    /** The cache only grows, by new handles: a second load of an id gives the same object. */
    twostate predicate Grew()
      reads this
    {
      (forall id | id in old(cache) :: id in cache && cache[id] == old(cache)[id])
      && forall id | id in cache && id !in old(cache) :: fresh(cache[id])
    }

    method LoadByID(id: Id) returns (r: Result<Handle>)
      requires Coherent()
      modifies this
      ensures Coherent() && Grew()
      ensures r.Ok? <==> id in client.db.fs
      ensures r.Ok? ==> id in cache && r.value == cache[id]
      ensures r.Err? ==> r == Err(NotFound)
    {
      if id in cache { return Ok(cache[id]); }
      var n := client.GetByID(id);
      if n.Err? { return n; }
      cache := cache[id := n.value];
      return n;
    }

    /** What the walk found, as handles and strings. */
    ghost predicate Answers(r: Result<(Handle, string)>, spec: Result<Found>)
      reads this
    {
      match spec
      case Err(e) => r == Err(e)
      case Ok(f) => r.Ok? && f.ino in cache && r.value.0 == cache[f.ino] && r.value.1 == Join(f.rest)
    }

    method ResolvePath(root: Id, p: string, follow: bool) returns (r: Result<(Handle, string)>)
      requires Coherent()
      modifies this
      ensures Coherent() && Grew()
      ensures Answers(r, Walk.ResolvePath(client.db.fs, root, p, follow))
    {
      r := ResolvePathInner(root, p, follow, {});
    }

    method ResolvePathInner(root: Id, p: string, follow: bool, seen: set<Id>) returns (r: Result<(Handle, string)>)
      requires Coherent()
      modifies this
      ensures Coherent() && Grew()
      ensures Answers(r, ResolveWith(client.db.fs, root, p, follow, seen))
      decreases MAX_SYMLINK_DEPTH - |seen|, 2
    {
      var cleaned := CleanPath(p);
      CleanPathRoot(p);
      if cleaned == "" || cleaned == "/" {
        var n := LoadByID(root);
        if n.Err? { return Err(n.error); }
        return Ok((n.value, ""));
      }
      var loaded := LoadByID(root);
      if loaded.Err? { return Err(NotFound); }
      r := WalkParts(root, loaded.value, SplitPath(cleaned), follow, seen);
    }

    /** The loop over the components. */
    method WalkParts(root: Id, start: Handle, parts: seq<string>, follow: bool, seen: set<Id>)
        returns (r: Result<(Handle, string)>)
      requires Coherent() && root in client.db.fs && root in cache && cache[root] == start && Names(parts)
      modifies this
      ensures Coherent() && Grew()
      ensures Answers(r, WalkFrom(client.db.fs, root, [], root, parts, follow, seen))
      decreases MAX_SYMLINK_DEPTH - |seen|, 1
    {
      var cur := start;
      assert parts[..0] == [] && parts[0..] == parts;
      for i := 0 to |parts|
        invariant Coherent() && Grew()
        invariant cur.id in cache && cache[cur.id] == cur
        invariant WalkFrom(client.db.fs, root, parts[..i], cur.id, parts[i..], follow, seen)
                  == WalkFrom(client.db.fs, root, [], root, parts, follow, seen)
      {
        var part := parts[i];
        NextPart(parts, i);
        if part == "" || part == "." || part == ".." {
          assert false;
        }
        var found := LookupChild(cur, part);
        if found.Err? { return Err(found.error); }
        var child := found.value;
        if child.inode.content.Mount? {
          var rest := JoinParts(parts[i + 1..]);
          return Ok((child, rest));
        }
        if follow && child.inode.content.Symlink? {
          r := FollowSymlink(root, parts, i, child, seen);
          return;
        }
        cur := child;
      }
      assert parts[|parts|..] == [];
      return Ok((cur, ""));
    }

    /** Splices the target into the remaining path and starts over from the root. */
    method FollowSymlink(root: Id, parts: seq<string>, i: nat, child: Handle, seen: set<Id>)
        returns (r: Result<(Handle, string)>)
      requires Coherent() && i < |parts| && child.id in client.db.fs && child.inode.content.Symlink?
      modifies this
      ensures Coherent() && Grew()
      ensures Answers(r, if |seen| >= MAX_SYMLINK_DEPTH || child.id in seen then Err(SymlinkCycle)
                         else ResolveWith(client.db.fs, root,
                                          Spliced(parts[..i], child.inode.content.target, parts[i + 1..]),
                                          true, seen + {child.id}))
      decreases MAX_SYMLINK_DEPTH - |seen|, 0
    {
      if |seen| >= MAX_SYMLINK_DEPTH { return Err(SymlinkCycle); }
      var visited := seen;
      if child.id in visited { return Err(SymlinkCycle); }
      visited := visited + {child.id};
      var joined := Splice(parts, i, child.inode.content.target);
      r := ResolvePathInner(root, joined, true, visited);
    }

    /** Lookup in a directory, then a load of the inode named. */
    method LookupChild(cur: Handle, part: string) returns (r: Result<Handle>)
      requires Coherent() && cur.id in cache && cache[cur.id] == cur
      modifies this
      ensures Coherent() && Grew()
      ensures if !cur.inode.IsDir() then r == Err(NotDirectory)
              else
                var e := Find(cur.inode.content.entries, part);
                if e.None? || e.value.ino !in client.db.fs then r == Err(NotFound)
                else r.Ok? && e.value.ino in cache && r.value == cache[e.value.ino]
    {
      if !cur.inode.IsDir() { return Err(NotDirectory); }
      var de := Find(cur.inode.content.entries, part);
      if de.None? { return Err(NotFound); }
      r := LoadByID(de.value.ino);
    }

    /** The target in place of the symlink at parts[i]. */
    static method Splice(parts: seq<string>, i: nat, target: string) returns (joined: string)
      requires i < |parts|
      ensures joined == Spliced(parts[..i], target, parts[i + 1..])
    {
      var suffix := JoinParts(parts[i + 1..]);
      if target != "" && target[0] == '/' {
        if suffix == "" {
          joined := target;
        } else {
          joined := target + "/" + suffix;
        }
      } else {
        var parentPath := JoinParts(parts[..i]);
        if parentPath == "" { parentPath := "/"; }
        if suffix == "" {
          joined := Clean(parentPath + "/" + target);
        } else {
          joined := Clean(parentPath + "/" + target + "/" + suffix);
        }
      }
    }

    method ResolveParent(root: Id, p: string) returns (r: Result<(Handle, string)>)
      requires Coherent()
      modifies this
      ensures Coherent() && Grew()
      ensures var spec := Walk.ResolveParent(client.db.fs, root, p);
              match spec
              case Err(e) => r == Err(e)
              case Ok(d) => r.Ok? && d.0 in cache && r.value.0 == cache[d.0] && r.value.1 == d.1
    {
      CompsOfEmpty();
      if p == "" { return Err(InvalidPath); }
      var cleaned := CleanPath(p);
      CleanPathForm(p);
      CompsAreNames(p);
      var idx := LastSlash(cleaned);
      if Comps(p) != [] {
        var init, l := LastName(Comps(p));
        CutAtLastSlash(init, l);
        assert init == Comps(p)[..|Comps(p)| - 1];
      } else {
        LastSlashAt("/", 0);
      }
      if idx < 0 { return Err(InvalidPath); }
      var parentPath := cleaned[..idx];
      if parentPath == "" { parentPath := "/"; }
      var name := cleaned[idx + 1..];
      if name == "" { return Err(InvalidPath); }
      var out := ResolvePath(root, parentPath, true);
      if out.Err? { return Err(out.error); }
      return Ok((out.value.0, name));
    }
  }
}

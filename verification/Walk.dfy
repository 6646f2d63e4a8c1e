/** The single-drive resolver of internal/vfs/path.go as a function of the store, and
    the component walk it amounts to. */
module Walk {
  import opened Paths
  import opened Inodes

  const MAX_SYMLINK_DEPTH := 40

  /** walkResult: the inode reached, its own canonical path, and the components left
      over when the walk stopped at a mount. */
  datatype Found = Found(ino: Id, place: seq<string>, rest: seq<string>)

  // ---------------------------------------------------------------- the resolver

  /** The path string a followed symlink is replaced by. */
  function Spliced(done: seq<string>, target: string, rest: seq<string>): string {
    var suffix := Join(rest);
    if target != "" && target[0] == '/' then
      if suffix == "" then target else target + "/" + suffix
    else
      var parent := if Join(done) == "" then "/" else Join(done);
      if suffix == "" then Clean(parent + "/" + target) else Clean(parent + "/" + target + "/" + suffix)
  }

  /** resolvePathInner, from the point where done has been walked and cur reached.
      Following a symlink restarts from the root with the spliced path. */
  function WalkFrom(fs: FS, root: Id, done: seq<string>, cur: Id, todo: seq<string>, follow: bool, visited: set<Id>)
    : Result<Found>
    requires root in fs && cur in fs
    decreases MAX_SYMLINK_DEPTH - |visited|, |todo|
  {
    if todo == [] then Ok(Found(cur, done, []))
    else if !fs[cur].IsDir() then Err(NotDirectory)
    else
      var e := Find(fs[cur].content.entries, todo[0]);
      if e.None? || e.value.ino !in fs then Err(NotFound)
      else
        var c := e.value.ino;
        if fs[c].content.Mount? then Ok(Found(c, done + [todo[0]], todo[1..]))
        else if follow && fs[c].content.Symlink? then
          if |visited| >= MAX_SYMLINK_DEPTH || c in visited then Err(SymlinkCycle)
          else WalkFrom(fs, root, [], root, Comps(Spliced(done, fs[c].content.target, todo[1..])), follow,
                        visited + {c})
        else WalkFrom(fs, root, done + [todo[0]], c, todo[1..], follow, visited)
  }

  function ResolveWith(fs: FS, root: Id, p: string, follow: bool, visited: set<Id>): Result<Found> {
    if root !in fs then Err(NotFound) else WalkFrom(fs, root, [], root, Comps(p), follow, visited)
  }

  /** resolvePath */
  function ResolvePath(fs: FS, root: Id, p: string, follow: bool): Result<Found> {
    ResolveWith(fs, root, p, follow, {})
  }

  function ParentPath(p: string): string
    requires Comps(p) != []
  {
    "/" + Join(Comps(p)[..|Comps(p)| - 1])
  }

  /** resolveParent: the directory and the last component. */
  function ResolveParent(fs: FS, root: Id, p: string): Result<(Id, string)> {
    if Comps(p) == [] then Err(InvalidPath)
    else
      match ResolvePath(fs, root, ParentPath(p), true)
      case Err(e) => Err(e)
      case Ok(f) => Ok((f.ino, Comps(p)[|Comps(p)| - 1]))
  }

  // ---------------------------------------------------------------- where a walk ends

  ghost predicate Here(fs: FS, root: Id, done: seq<string>, cur: Id) {
    root in fs && cur in fs && At(fs, root, done) == Some(cur)
  }

  /** The place reported is the canonical path of the inode found. */
  lemma {:induction false} WalkPlace(fs: FS, root: Id, done: seq<string>, cur: Id, todo: seq<string>, follow: bool,
                                     visited: set<Id>)
    requires Here(fs, root, done, cur)
    ensures var r := WalkFrom(fs, root, done, cur, todo, follow, visited);
            r.Ok? ==> Here(fs, root, r.value.place, r.value.ino)
                      && (r.value.rest != [] ==> fs[r.value.ino].content.Mount?)
    decreases MAX_SYMLINK_DEPTH - |visited|, |todo|
  {
    if todo != [] && fs[cur].IsDir() {
      var e := Find(fs[cur].content.entries, todo[0]);
      if e.Some? && e.value.ino in fs {
        var c := e.value.ino;
        AtSnoc(fs, root, done, todo[0]);
        if fs[c].content.Mount? {
        } else if follow && fs[c].content.Symlink? {
          if |visited| < MAX_SYMLINK_DEPTH && c !in visited {
            WalkPlace(fs, root, [], root, Comps(Spliced(done, fs[c].content.target, todo[1..])), follow, visited + {c});
          }
        } else {
          WalkPlace(fs, root, done + [todo[0]], c, todo[1..], follow, visited);
        }
      }
    }
  }

  lemma ResolvePlace(fs: FS, root: Id, p: string, follow: bool)
    ensures var r := ResolvePath(fs, root, p, follow);
            r.Ok? ==> Here(fs, root, r.value.place, r.value.ino)
                      && (r.value.rest != [] ==> fs[r.value.ino].content.Mount?)
  {
    if root in fs { WalkPlace(fs, root, [], root, Comps(p), follow, {}); }
  }

  /** With follow on, and from a root that is a directory, the walk never ends on a symlink. */
  lemma {:induction false} WalkFollows(fs: FS, root: Id, done: seq<string>, cur: Id, todo: seq<string>,
                                       visited: set<Id>)
    requires root in fs && cur in fs && fs[root].IsDir() && !fs[cur].content.Symlink?
    ensures var r := WalkFrom(fs, root, done, cur, todo, true, visited);
            r.Ok? ==> r.value.ino in fs && !fs[r.value.ino].content.Symlink?
    decreases MAX_SYMLINK_DEPTH - |visited|, |todo|
  {
    if todo != [] && fs[cur].IsDir() {
      var e := Find(fs[cur].content.entries, todo[0]);
      if e.Some? && e.value.ino in fs {
        var c := e.value.ino;
        if fs[c].content.Symlink? {
          if |visited| < MAX_SYMLINK_DEPTH && c !in visited {
            WalkFollows(fs, root, [], root, Comps(Spliced(done, fs[c].content.target, todo[1..])), visited + {c});
          }
        } else if !fs[c].content.Mount? {
          WalkFollows(fs, root, done + [todo[0]], c, todo[1..], visited);
        }
      }
    }
  }

  /** lstat(2) and stat(2) agree wherever lstat does not end on a symlink. */
  lemma {:induction false} NoFollowAgrees(fs: FS, root: Id, done: seq<string>, cur: Id, todo: seq<string>,
                                          visited: set<Id>)
    requires root in fs && cur in fs
    ensures var r := WalkFrom(fs, root, done, cur, todo, false, visited);
            r.Ok? && r.value.ino in fs && !fs[r.value.ino].content.Symlink? ==>
              WalkFrom(fs, root, done, cur, todo, true, visited) == r
    decreases |todo|
  {
    if todo != [] && fs[cur].IsDir() {
      var e := Find(fs[cur].content.entries, todo[0]);
      if e.Some? && e.value.ino in fs && !fs[e.value.ino].content.Mount? {
        NoFollowAgrees(fs, root, done + [todo[0]], e.value.ino, todo[1..], visited);
      }
    }
  }

  // ---------------------------------------------------------------- smaller and larger stores

  /** gs has at most the entries of fs, naming the same inodes. */
  ghost predicate Within(gs: FS, fs: FS) {
    forall x | x in gs ::
      x in fs && (if gs[x].IsDir()
                  then fs[x].IsDir() && forall n :: Find(gs[x].content.entries, n).Some? ==>
                         Find(fs[x].content.entries, n).Some?
                         && Find(fs[x].content.entries, n).value.ino == Find(gs[x].content.entries, n).value.ino
                  else gs[x].content == fs[x].content)
  }

  /** Removing entries never redirects a walk: it ends where it did, or fails. */
  lemma {:induction false} WalkWithin(gs: FS, fs: FS, root: Id, done: seq<string>, cur: Id, todo: seq<string>,
                                      follow: bool, visited: set<Id>)
    requires Within(gs, fs) && root in gs && cur in gs
    ensures var r := WalkFrom(gs, root, done, cur, todo, follow, visited);
            r.Ok? ==> WalkFrom(fs, root, done, cur, todo, follow, visited) == r
    decreases MAX_SYMLINK_DEPTH - |visited|, |todo|
  {
    if todo != [] && gs[cur].IsDir() {
      var e := Find(gs[cur].content.entries, todo[0]);
      if e.Some? && e.value.ino in gs {
        var c := e.value.ino;
        if gs[c].content.Mount? {
        } else if follow && gs[c].content.Symlink? {
          if |visited| < MAX_SYMLINK_DEPTH && c !in visited {
            WalkWithin(gs, fs, root, [], root, Comps(Spliced(done, gs[c].content.target, todo[1..])), follow,
                       visited + {c});
          }
        } else {
          WalkWithin(gs, fs, root, done + [todo[0]], c, todo[1..], follow, visited);
        }
      }
    }
  }

  lemma ResolveWithin(gs: FS, fs: FS, root: Id, p: string, follow: bool)
    requires Within(gs, fs)
    ensures ResolvePath(gs, root, p, follow).Ok? ==>
              ResolvePath(fs, root, p, follow) == ResolvePath(gs, root, p, follow)
    ensures ResolveParent(gs, root, p).Ok? ==> ResolveParent(fs, root, p) == ResolveParent(gs, root, p)
  {
    if root in gs {
      WalkWithin(gs, fs, root, [], root, Comps(p), follow, {});
      if Comps(p) != [] {
        WalkWithin(gs, fs, root, [], root, Comps(ParentPath(p)), true, {});
      }
    }
  }

  // ---------------------------------------------------------------- the component walk

  /** Reading a symlink target's components from directory base: dot-dot first undoes
      what the target itself added, then climbs, lexically, towards the root. */
  function Climb(base: seq<string>, added: seq<string>, comps: seq<string>): (seq<string>, seq<string>)
    decreases |comps|
  {
    if comps == [] then (base, added)
    else if comps[0] == "" || comps[0] == "." then Climb(base, added, comps[1..])
    else if comps[0] != ".." then Climb(base, added + [comps[0]], comps[1..])
    else if added != [] then Climb(base, added[..|added| - 1], comps[1..])
    else if base != [] then Climb(base[..|base| - 1], added, comps[1..])
    else Climb(base, added, comps[1..])
  }

  /** Where to resume, and what to walk from there, after a symlink in directory done. */
  function Resume(done: seq<string>, target: string): (seq<string>, seq<string>) {
    Climb(if target != "" && target[0] == '/' then [] else done, [], Split(target))
  }

  datatype Derivation = Arrive | StopAtMount | Down(next: Derivation) | Follow(link: Id, next: Derivation) {
    function Followed(): seq<Id> {
      match this
      case Arrive => []
      case StopAtMount => []
      case Down(d) => d.Followed()
      case Follow(l, d) => [l] + d.Followed()
    }
  }

  /** A component-list walk in the manner of POSIX pathname resolution: it never restarts,
      keeps no visited set and has no budget. */
  ghost predicate Derives(fs: FS, root: Id, done: seq<string>, todo: seq<string>, follow: bool, d: Derivation,
                          res: Found)
    decreases d
  {
    var cur := At(fs, root, done);
    cur.Some? && cur.value in fs &&
    match d
    case Arrive => todo == [] && res == Found(cur.value, done, [])
    case StopAtMount =>
      todo != [] && var c := Child(fs, cur.value, todo[0]);
      c.Some? && c.value in fs && fs[c.value].content.Mount?
      && res == Found(c.value, done + [todo[0]], todo[1..])
    case Down(next) =>
      todo != [] && var c := Child(fs, cur.value, todo[0]);
      c.Some? && c.value in fs && !fs[c.value].content.Mount? && !(follow && fs[c.value].content.Symlink?)
      && Derives(fs, root, done + [todo[0]], todo[1..], follow, next, res)
    case Follow(link, next) =>
      todo != [] && var c := Child(fs, cur.value, todo[0]);
      c == Some(link) && link in fs && follow && fs[link].content.Symlink?
      && var (base, added) := Resume(done, fs[link].content.target);
         Derives(fs, root, base, added + todo[1..], follow, next, res)
  }

  ghost predicate Distinct(s: seq<Id>) {
    forall i, j | 0 <= i < j < |s| :: s[i] != s[j]
  }

  /** Every component of every symlink target is free of outer white space. */
  ghost predicate TidyTargets(fs: FS) {
    forall x | x in fs && fs[x].content.Symlink? :: AllTidy(Split(fs[x].content.target))
  }

  predicate TidyNames(parts: seq<string>) { Names(parts) && AllTidy(parts) }

  // ---------------------------------------------------------------- splicing strings is climbing

  lemma {:induction false} ClimbNorm(base: seq<string>, added: seq<string>, comps: seq<string>)
    requires Names(base) && Names(added) && forall c | c in comps :: '/' !in c
    ensures var (b, a) := Climb(base, added, comps);
            Reduce(true, base + added, comps) == b + a && Names(b) && Names(a) && b <= base
    decreases |comps|
  {
    if comps != [] {
      var c := comps[0];
      assert c in comps;
      if added != [] {
        assert (base + added)[..|base + added| - 1] == base + added[..|added| - 1];
        assert added[|added| - 1] in added;
      } else {
        assert base + added == base && base[..|base|] == base;
        if base != [] {
          assert base[..|base| - 1] + added == base[..|base| - 1];
          assert base[|base| - 1] in base;
        }
      }
      assert base + added + [c] == base + (added + [c]);
      if c == "" || c == "." { ClimbNorm(base, added, comps[1..]); }
      else if c != ".." { ClimbNorm(base, added + [c], comps[1..]); }
      else if added != [] { ClimbNorm(base, added[..|added| - 1], comps[1..]); }
      else if base != [] { ClimbNorm(base[..|base| - 1], added, comps[1..]); }
      else { ClimbNorm(base, added, comps[1..]); }
    }
  }

  lemma {:induction false} ClimbTidy(base: seq<string>, added: seq<string>, comps: seq<string>)
    requires AllTidy(base) && AllTidy(added) && AllTidy(comps)
    ensures var (b, a) := Climb(base, added, comps); AllTidy(b) && AllTidy(a)
    decreases |comps|
  {
    if comps != [] {
      var c := comps[0];
      assert c in comps;
      if c == "" || c == "." { ClimbTidy(base, added, comps[1..]); }
      else if c != ".." { ClimbTidy(base, added + [c], comps[1..]); }
      else if added != [] { ClimbTidy(base, added[..|added| - 1], comps[1..]); }
      else if base != [] { ClimbTidy(base[..|base| - 1], added, comps[1..]); }
      else { ClimbTidy(base, added, comps[1..]); }
    }
  }

  lemma JoinEmpty(parts: seq<string>)
    requires Names(parts)
    ensures Join(parts) == "" <==> parts == []
  {
    if parts != [] {
      assert forall n | n in parts :: n != "";
      JoinEnds(parts);
    }
  }

  /** target, or target + "/" + suffix: its components are the target's, then the rest. */
  lemma SplitWithSuffix(s: string, rest: seq<string>)
    requires Names(rest)
    ensures Split(if Join(rest) == "" then s else s + "/" + Join(rest)) == Split(s) + rest
  {
    JoinEmpty(rest);
    if rest != [] {
      assert forall n | n in rest :: '/' !in n;
      SplitJoin(rest);
      SplitConcat(s, Join(rest));
    } else {
      assert Split(s) + rest == Split(s);
    }
  }

  lemma CleanComps(s: string)
    requires AllTidy(Split(s))
    ensures Comps(Clean(s)) == Norm(Split(s))
  {
    var rooted := s != "" && s[0] == '/';
    var stack := Reduce(rooted, [], Split(s));
    ReduceTidy(rooted, [], Split(s));
    if rooted {
      RootedIsNames([], Split(s));
      NamesTidyComps(stack);
    } else {
      ReduceRelative([], [], Split(s));
      RelativeComps(stack);
      assert "" + Join(stack) == Join(stack);
    }
  }

  lemma RelativeComps(stack: seq<string>)
    requires RelativeStack(stack) && AllTidy(stack)
    ensures Comps(if Join(stack) == "" then "." else Join(stack)) == Norm(stack)
  {
    if stack == [] {
      CompsDot();
    } else {
      RelativeJoinNotEmpty(stack);
      assert forall p | p in stack :: '/' !in p;
      SplitJoin(stack);
      CompsTidy(Join(stack));
    }
  }

  lemma CompsDot()
    ensures Comps(".") == []
  {
    SplitAtom(".");
    assert AllTidy(Split("."));
    CompsTidy(".");
    assert ["."][1..] == [];
  }

  lemma RelativeJoinNotEmpty(stack: seq<string>)
    requires stack != [] && RelativeStack(stack)
    ensures Join(stack) != ""
  {
    assert forall n | n in stack :: n != "";
    JoinEnds(stack);
  }

  lemma NamesTidyComps(names: seq<string>)
    requires TidyNames(names)
    ensures Comps("/" + Join(names)) == names
  {
    CompsOfNames(names);
    if names != [] {
      assert names[|names| - 1] in names;
    }
  }

  /** The spliced and re-cleaned string means: resume, then the rest. */
  lemma SplicedMeans(done: seq<string>, target: string, rest: seq<string>)
    requires TidyNames(done) && TidyNames(rest) && AllTidy(Split(target))
    ensures var (base, added) := Resume(done, target);
            Comps(Spliced(done, target, rest)) == base + added + rest
            && TidyNames(base) && TidyNames(added) && base <= done
  {
    var abs := target != "" && target[0] == '/';
    var from := if abs then [] else done;
    var (base, added) := Resume(done, target);
    ClimbNorm(from, [], Split(target));
    ClimbTidy(from, [], Split(target));
    assert from + [] == from;
    if abs {
      SplitWithSuffix(target, rest);
      CompsTidy(Spliced(done, target, rest));
      ReduceConcat(true, [], Split(target), rest);
    } else {
      var parent := if Join(done) == "" then "/" else Join(done);
      var s := parent + "/" + target;
      SplitConcat(parent, target);
      SplitWithSuffix(s, rest);
      var pp := Split(parent);
      ParentComps(done);
      var full := if Join(rest) == "" then s else s + "/" + Join(rest);
      assert Spliced(done, target, rest) == Clean(full);
      assert Split(full) == pp + Split(target) + rest;
      CleanComps(full);
      ReduceConcat(true, [], pp + Split(target), rest);
      ReduceConcat(true, [], pp, Split(target));
    }
    ReduceNames(true, base + added, rest);
  }

  lemma ParentComps(done: seq<string>)
    requires TidyNames(done)
    ensures var parent := if Join(done) == "" then "/" else Join(done);
            Norm(Split(parent)) == done && AllTidy(Split(parent))
  {
    JoinEmpty(done);
    if done == [] {
      assert "/"[1..] == "" && Split("/") == ["", ""];
      assert ["", ""][1..] == [""] && [""][1..] == [];
    } else {
      assert forall n | n in done :: '/' !in n;
      SplitJoin(done);
      ReduceNames(true, [], done);
      assert [] + done == done;
    }
  }

  /** For a relative target without dot-dot the restart resumes in the symlink's own
      directory, with the target and then the suffix. */
  lemma RestartIsResume(done: seq<string>, target: string, rest: seq<string>)
    requires TidyNames(done) && TidyNames(rest) && AllTidy(Split(target))
    requires target == "" || target[0] != '/'
    requires ".." !in Split(target)
    ensures Resume(done, target) == (done, Kept(Split(target)))
    ensures Comps(Spliced(done, target, rest)) == done + Kept(Split(target)) + rest
  {
    ResumeWithoutDotDot(done, target);
    SplicedMeans(done, target, rest);
  }

  lemma ResumeWithoutDotDot(done: seq<string>, target: string)
    requires (target == "" || target[0] != '/') && ".." !in Split(target)
    ensures Resume(done, target) == (done, Kept(Split(target)))
  {
    ClimbWithoutDotDot(done, [], Split(target));
    assert [] + Kept(Split(target)) == Kept(Split(target));
  }

  lemma {:induction false} ClimbWithoutDotDot(done: seq<string>, added: seq<string>, comps: seq<string>)
    requires ".." !in comps
    ensures Climb(done, added, comps) == (done, added + Kept(comps))
    decreases |comps|
  {
    if comps != [] {
      assert comps[0] in comps && ".." !in comps[1..];
      if comps[0] == "" || comps[0] == "." {
        ClimbWithoutDotDot(done, added, comps[1..]);
      } else {
        ClimbWithoutDotDot(done, added + [comps[0]], comps[1..]);
        assert added + [comps[0]] + Kept(comps[1..]) == added + Kept(comps);
      }
    } else {
      assert added + Kept(comps) == added;
    }
  }

  function Kept(comps: seq<string>): seq<string> {
    if comps == [] then []
    else if comps[0] == "" || comps[0] == "." then Kept(comps[1..])
    else [comps[0]] + Kept(comps[1..])
  }

  // ---------------------------------------------------------------- restart is replay

  /** Walking a canonical path again, then going on, is going on from where it led. */
  lemma {:induction false} Replay(fs: FS, root: Id, base: seq<string>, b: Id, todo: seq<string>, follow: bool,
                                  visited: set<Id>)
    requires Here(fs, root, base, b)
    requires base != [] ==> !fs[b].content.Mount? && !(follow && fs[b].content.Symlink?)
    ensures WalkFrom(fs, root, [], root, base + todo, follow, visited) ==
              WalkFrom(fs, root, base, b, todo, follow, visited)
    decreases |base|
  {
    if base == [] {
      assert base + todo == todo;
    } else {
      var up, n := base[..|base| - 1], base[|base| - 1];
      AtPrefix(fs, root, base, |up|);
      var d := At(fs, root, up).value;
      Replay(fs, root, up, d, [n] + todo, follow, visited);
      assert base + todo == up + ([n] + todo);
      assert ([n] + todo)[1..] == todo && up + [n] == base;
    }
  }

  // ---------------------------------------------------------------- soundness

  ghost predicate Walking(fs: FS, root: Id, done: seq<string>, cur: Id, todo: seq<string>) {
    Here(fs, root, done, cur) && TidyTargets(fs) && TidyNames(done) && TidyNames(todo)
  }

  /** After a symlink, the restarted walk is the walk resumed in place. */
  lemma FollowResumes(fs: FS, root: Id, done: seq<string>, cur: Id, todo: seq<string>, c: Id, visited: set<Id>)
    requires Walking(fs, root, done, cur, todo) && todo != [] && fs[cur].IsDir()
    requires Child(fs, cur, todo[0]) == Some(c) && c in fs && fs[c].content.Symlink?
    ensures var (base, added) := Resume(done, fs[c].content.target);
            var b := At(fs, root, base);
            b.Some? && Walking(fs, root, base, b.value, added + todo[1..])
            && WalkFrom(fs, root, [], root, Comps(Spliced(done, fs[c].content.target, todo[1..])), true, visited)
               == WalkFrom(fs, root, base, b.value, added + todo[1..], true, visited)
  {
    var target, rest := fs[c].content.target, todo[1..];
    var (base, added) := Resume(done, target);
    SplicedMeans(done, target, rest);
    AtPrefix(fs, root, done, |base|);
    assert done[..|base|] == base && done[..|done|] == done;
    var b := At(fs, root, base).value;
    assert b == cur || (b in fs && fs[b].IsDir());
    assert base + added + rest == base + (added + rest);
    Replay(fs, root, base, b, added + rest, true, visited);
  }

  lemma {:induction false} WalkSound(fs: FS, root: Id, done: seq<string>, cur: Id, todo: seq<string>, follow: bool,
                                     visited: set<Id>)
      returns (d: Derivation)
    requires Walking(fs, root, done, cur, todo)
    requires WalkFrom(fs, root, done, cur, todo, follow, visited).Ok? && |visited| <= MAX_SYMLINK_DEPTH
    ensures Derives(fs, root, done, todo, follow, d, WalkFrom(fs, root, done, cur, todo, follow, visited).value)
    ensures Distinct(d.Followed()) && |visited| + |d.Followed()| <= MAX_SYMLINK_DEPTH
    ensures forall l | l in d.Followed() :: l !in visited
    decreases MAX_SYMLINK_DEPTH - |visited|, |todo|
  {
    if todo == [] {
      d := Arrive;
    } else {
      var c := Child(fs, cur, todo[0]).value;
      AtSnoc(fs, root, done, todo[0]);
      if fs[c].content.Mount? {
        d := StopAtMount;
      } else if follow && fs[c].content.Symlink? {
        var (base, added) := Resume(done, fs[c].content.target);
        FollowResumes(fs, root, done, cur, todo, c, visited + {c});
        var next := WalkSound(fs, root, base, At(fs, root, base).value, added + todo[1..], true, visited + {c});
        d := Follow(c, next);
      } else {
        assert todo[0] in todo;
        var next := WalkSound(fs, root, done + [todo[0]], c, todo[1..], follow, visited);
        d := Down(next);
      }
    }
  }

  /** Every success of the resolver is a derivation of the component walk, following at
      most 40 symlinks, all distinct. */
  lemma ResolveSound(fs: FS, root: Id, p: string, follow: bool) returns (d: Derivation)
    requires TidyTargets(fs) && AllTidy(Comps(p)) && ResolvePath(fs, root, p, follow).Ok?
    ensures Derives(fs, root, [], Comps(p), follow, d, ResolvePath(fs, root, p, follow).value)
    ensures Distinct(d.Followed()) && |d.Followed()| <= 40
  {
    CompsAreNames(p);
    d := WalkSound(fs, root, [], root, Comps(p), follow, {});
  }

  // ---------------------------------------------------------------- completeness

  lemma {:induction false} WalkComplete(fs: FS, root: Id, done: seq<string>, cur: Id, todo: seq<string>, follow: bool,
                                        visited: set<Id>, d: Derivation, res: Found)
    requires Walking(fs, root, done, cur, todo) && Derives(fs, root, done, todo, follow, d, res)
    requires Distinct(d.Followed()) && |visited| + |d.Followed()| <= MAX_SYMLINK_DEPTH
    requires forall l | l in d.Followed() :: l !in visited
    ensures WalkFrom(fs, root, done, cur, todo, follow, visited) == Ok(res)
    decreases d
  {
    match d
    case Arrive =>
    case StopAtMount =>
    case Down(next) =>
      var c := Child(fs, cur, todo[0]).value;
      AtSnoc(fs, root, done, todo[0]);
      assert todo[0] in todo;
      WalkComplete(fs, root, done + [todo[0]], c, todo[1..], follow, visited, next, res);
    case Follow(c, next) =>
      var (base, added) := Resume(done, fs[c].content.target);
      FollowResumes(fs, root, done, cur, todo, c, visited + {c});
      FollowedTail(c, next.Followed());
      WalkComplete(fs, root, base, At(fs, root, base).value, added + todo[1..], follow, visited + {c}, next, res);
  }

  lemma FollowedTail(c: Id, tail: seq<Id>)
    requires Distinct([c] + tail)
    ensures Distinct(tail) && c !in tail && c in [c] + tail
  {
    assert ([c] + tail)[1..] == tail;
    assert forall i | 0 <= i < |tail| :: ([c] + tail)[i + 1] == tail[i];
    assert ([c] + tail)[0] == c;
  }

  /** Every derivation following at most 40 symlinks, all distinct, is what the resolver
      finds: same node, same place, same remainder. */
  lemma ResolveComplete(fs: FS, root: Id, p: string, follow: bool, d: Derivation, res: Found)
    requires TidyTargets(fs) && AllTidy(Comps(p)) && Derives(fs, root, [], Comps(p), follow, d, res)
    requires Distinct(d.Followed()) && |d.Followed()| <= 40
    ensures ResolvePath(fs, root, p, follow) == Ok(res)
  {
    CompsAreNames(p);
    WalkComplete(fs, root, [], root, Comps(p), follow, {}, d, res);
  }

  // ---------------------------------------------------------------- parent and leaf in lock-step

  /** The walk at a symlink it may follow, with one component more. */
  lemma LinkSnoc(fs: FS, root: Id, done: seq<string>, cur: Id, todo: seq<string>, visited: set<Id>, n: string, k: Id)
    requires Walking(fs, root, done, cur, todo) && todo != [] && fs[cur].IsDir() && IsName(n) && Tidy(n)
    requires Child(fs, cur, todo[0]) == Some(k) && k in fs && fs[k].content.Symlink?
    requires |visited| < MAX_SYMLINK_DEPTH && k !in visited
    ensures var (base, added) := Resume(done, fs[k].content.target);
            var b, rest := At(fs, root, base), added + todo[1..];
            b.Some? && Walking(fs, root, base, b.value, rest)
            && WalkFrom(fs, root, done, cur, todo, true, visited)
               == WalkFrom(fs, root, base, b.value, rest, true, visited + {k})
            && WalkFrom(fs, root, done, cur, todo + [n], true, visited)
               == WalkFrom(fs, root, base, b.value, rest + [n], true, visited + {k})
  {
    var (base, added) := Resume(done, fs[k].content.target);
    assert (todo + [n])[1..] == todo[1..] + [n];
    FollowResumes(fs, root, done, cur, todo, k, visited + {k});
    FollowResumes(fs, root, done, cur, todo + [n], k, visited + {k});
    assert added + (todo[1..] + [n]) == added + todo[1..] + [n];
  }

  /** One more component walks one step further. */
  lemma {:induction false} WalkSnoc(fs: FS, root: Id, done: seq<string>, cur: Id, todo: seq<string>, visited: set<Id>,
                                    n: string, c: Id)
    requires Walking(fs, root, done, cur, todo) && IsName(n) && Tidy(n) && c in fs && !fs[c].content.Symlink?
    requires var r := WalkFrom(fs, root, done, cur, todo, true, visited);
             r.Ok? && Child(fs, r.value.ino, n) == Some(c)
    ensures WalkFrom(fs, root, done, cur, todo + [n], true, visited) ==
            Ok(Found(c, WalkFrom(fs, root, done, cur, todo, true, visited).value.place + [n], []))
    decreases MAX_SYMLINK_DEPTH - |visited|, |todo|
  {
    if todo == [] {
      assert todo + [n] == [n] && [n][1..] == [];
      assert WalkFrom(fs, root, done + [n], c, [], true, visited) == Ok(Found(c, done + [n], []));
    } else {
      var k := Child(fs, cur, todo[0]).value;
      AtSnoc(fs, root, done, todo[0]);
      assert (todo + [n])[1..] == todo[1..] + [n];
      if fs[k].content.Symlink? {
        var (base, added) := Resume(done, fs[k].content.target);
        LinkSnoc(fs, root, done, cur, todo, visited, n, k);
        WalkSnoc(fs, root, base, At(fs, root, base).value, added + todo[1..], visited + {k}, n, c);
      } else if !fs[k].content.Mount? {
        assert todo[0] in todo;
        WalkSnoc(fs, root, done + [todo[0]], k, todo[1..], visited, n, c);
      }
    }
  }

  /** resolveParent and resolvePath agree: if the parent's entry for the last name is no
      symlink, resolvePath ends on it, whatever symlinks the parent portion contains. */
  lemma LockStep(fs: FS, root: Id, p: string, c: Id)
    requires TidyTargets(fs) && AllTidy(Comps(p)) && c in fs && !fs[c].content.Symlink?
    requires var r := ResolveParent(fs, root, p);
             r.Ok? && Child(fs, r.value.0, r.value.1) == Some(c)
    ensures var up := ResolvePath(fs, root, ParentPath(p), true).value.place;
            ResolvePath(fs, root, p, true) == Ok(Found(c, up + [ResolveParent(fs, root, p).value.1], []))
  {
    var comps := Comps(p);
    var init, n := comps[..|comps| - 1], comps[|comps| - 1];
    CompsAreNames(p);
    assert comps == init + [n] && n in comps;
    NamesTidyComps(init);
    WalkSnoc(fs, root, [], root, init, {}, n, c);
  }

  /** d is where the component walk, following at most 40 symlinks, all distinct, takes comps. */
  ghost predicate Reaches(fs: FS, root: Id, comps: seq<string>, d: Id) {
    exists w, res :: Derives(fs, root, [], comps, true, w, res) && Distinct(w.Followed()) && |w.Followed()| <= 40
                     && res.ino == d
  }

  /** resolveParent returns the last name of the path, and the inode to which the component walk,
      symlinks followed, takes all names before it. */
  lemma ParentIsReached(fs: FS, root: Id, p: string, d: Id, n: string)
    requires TidyTargets(fs) && AllTidy(Comps(p))
    ensures ResolveParent(fs, root, p) == Ok((d, n)) <==>
            Comps(p) != [] && n == Comps(p)[|Comps(p)| - 1] && Reaches(fs, root, Comps(p)[..|Comps(p)| - 1], d)
  {
    if Comps(p) != [] {
      var init := Comps(p)[..|Comps(p)| - 1];
      CompsAreNames(p);
      NamesTidyComps(init);
      if ResolveParent(fs, root, p) == Ok((d, n)) { var w := ResolveSound(fs, root, ParentPath(p), true); }
      if Reaches(fs, root, init, d) {
        var w, res :| Derives(fs, root, [], init, true, w, res) && Distinct(w.Followed()) && |w.Followed()| <= 40
                      && res.ino == d;
        ResolveComplete(fs, root, ParentPath(p), true, w, res);
      }
    }
  }

  /** resolveParent walks the components of the path but the last exactly when the one
      before it does not end in white space: the parent path is trimmed once more. */
  lemma ParentPathComps(p: string)
    requires Comps(p) != []
    ensures var init := Comps(p)[..|Comps(p)| - 1];
            Comps(ParentPath(p)) == init <==> (init == [] || !EndsInSpace(init[|init| - 1]))
  {
    CompsAreNames(p);
    CompsOfNames(Comps(p)[..|Comps(p)| - 1]);
  }

  /** "/x /y": the parent looked up is /x. */
  lemma ParentOfUntidy(x: string, y: string)
    requires x == "x " && y == "y"
    ensures Comps("/" + x + "/" + y) == [x, y] && Comps(ParentPath("/" + x + "/" + y)) == ["x"]
  {
    var p := "/" + x + "/" + y;
    UntidyNames(x, y);
    assert [x, y] == [x] + [y] && [] + [x] == [x] && [] + ["x"] == ["x"];
    JoinSnoc([x], y);
    assert "/" + (x + "/" + y) == p;
    CompsOfAbsoluteSnoc([x], y);
    assert Comps(p)[..1] == [] + [x];
    CompsOfAbsoluteSnoc([], x);
  }

  lemma UntidyNames(x: string, y: string)
    requires x == "x " && y == "y"
    ensures IsName(x) && IsName(y) && IsName("x")
    ensures TrimRight(y, IsSpace) == y && TrimRight(x, IsSpace) == "x"
  {
    assert x[..1] == "x" && TrimRight("x", IsSpace) == "x";
  }

  /** A symlink-free path leads where its components lead. */
  lemma {:induction false} WalkPlain(fs: FS, root: Id, done: seq<string>, cur: Id, todo: seq<string>, follow: bool,
                                     visited: set<Id>, c: Id)
    requires Here(fs, root, done, cur) && At(fs, root, done + todo) == Some(c) && c in fs
    requires WellFormed(fs)
    requires !fs[c].content.Mount? && !(follow && fs[c].content.Symlink?)
    ensures WalkFrom(fs, root, done, cur, todo, follow, visited) == Ok(Found(c, done + todo, []))
    decreases |todo|
  {
    if todo == [] {
      assert done + todo == done;
    } else {
      var k := PlainStep(fs, root, done, cur, todo, c);
      WalkPlain(fs, root, done + [todo[0]], k, todo[1..], follow, visited, c);
    }
  }

  /** One component down a path that leads through directories only. */
  lemma PlainStep(fs: FS, root: Id, done: seq<string>, cur: Id, todo: seq<string>, c: Id) returns (k: Id)
    requires Here(fs, root, done, cur) && At(fs, root, done + todo) == Some(c) && WellFormed(fs) && todo != []
    ensures done + todo == done + [todo[0]] + todo[1..]
    ensures Child(fs, cur, todo[0]) == Some(k) && Here(fs, root, done + [todo[0]], k)
    ensures if |todo| == 1 then k == c else fs[k].IsDir()
  {
    var next := done + [todo[0]];
    OneFurther(done, todo);
    AtPrefix(fs, root, done + todo, |done|);
    AtPrefix(fs, root, done + todo, |next|);
    AtSnoc(fs, root, done, todo[0]);
    k := At(fs, root, next).value;
    LinkTarget(fs, Link(cur, todo[0], k));
  }

  lemma OneFurther(done: seq<string>, todo: seq<string>)
    requires todo != []
    ensures done + todo == done + [todo[0]] + todo[1..]
    ensures (done + todo)[..|done|] == done && (done + todo)[..|done + [todo[0]]|] == done + [todo[0]]
    ensures |todo| == 1 ==> done + todo == done + [todo[0]]
  {
  }

  lemma ResolvePlain(fs: FS, root: Id, p: string, follow: bool, c: Id)
    requires root in fs && WellFormed(fs) && At(fs, root, Comps(p)) == Some(c) && c in fs
    requires !fs[c].content.Mount? && !(follow && fs[c].content.Symlink?)
    ensures ResolvePath(fs, root, p, follow) == Ok(Found(c, Comps(p), []))
  {
    assert [] + Comps(p) == Comps(p);
    WalkPlain(fs, root, [], root, Comps(p), follow, {}, c);
  }
}

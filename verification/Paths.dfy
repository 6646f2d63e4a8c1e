/** Path strings: the Go library calls the resolver leans on (strings.TrimSpace,
    strings.Split, strings.Trim, path.Clean) and the helpers of internal/vfs/path.go. */
module Paths {

  // ---------------------------------------------------------------- library calls

  /** unicode.IsSpace */
  predicate IsSpace(c: char) {
    c == '\t' || c == '\n' || c == '\U{0B}' || c == '\U{0C}' || c == '\r' || c == ' '
    || c == '\U{85}' || c == '\U{A0}' || c == '\U{1680}' || '\U{2000}' <= c <= '\U{200A}'
    || c == '\U{2028}' || c == '\U{2029}' || c == '\U{202F}' || c == '\U{205F}' || c == '\U{3000}'
  }

  predicate IsSlash(c: char) { c == '/' }

  function TrimLeft(s: string, cut: char -> bool): string {
    if s != "" && cut(s[0]) then TrimLeft(s[1..], cut) else s
  }

  function TrimRight(s: string, cut: char -> bool): string {
    if s != "" && cut(s[|s| - 1]) then TrimRight(s[..|s| - 1], cut) else s
  }

  function Trim(s: string, cut: char -> bool): string {
    TrimRight(TrimLeft(s, cut), cut)
  }

  /** strings.Split(s, "/") */
  function Split(s: string): (parts: seq<string>)
    ensures |parts| >= 1
    ensures forall p | p in parts :: '/' !in p
  {
    if s == "" then [""]
    else
      var rest := Split(s[1..]);
      if s[0] == '/' then [""] + rest else [[s[0]] + rest[0]] + rest[1..]
  }

  function Join(parts: seq<string>): string {
    if parts == [] then ""
    else if |parts| == 1 then parts[0]
    else parts[0] + "/" + Join(parts[1..])
  }

  /** strings.LastIndex(s, "/") */
  function LastSlash(s: string): (i: int)
    ensures -1 <= i < |s|
    ensures i >= 0 ==> s[i] == '/'
    ensures forall j | i < j < |s| :: s[j] != '/'
  {
    if s == "" then -1
    else if s[|s| - 1] == '/' then |s| - 1
    else LastSlash(s[..|s| - 1])
  }

  predicate IsName(s: string) {
    s != "" && s != "." && s != ".." && '/' !in s
  }

  predicate Names(parts: seq<string>) {
    forall p | p in parts :: IsName(p)
  }

  /** One component pushed on the stack path.Clean keeps. */
  function Push(rooted: bool, stack: seq<string>, c: string): seq<string> {
    if c == "" || c == "." then stack
    else if c != ".." then stack + [c]
    else if stack != [] && stack[|stack| - 1] != ".." then stack[..|stack| - 1]
    else if rooted then stack
    else stack + [".."]
  }

  function Reduce(rooted: bool, stack: seq<string>, comps: seq<string>): seq<string>
    decreases |comps|
  {
    if comps == [] then stack else Reduce(rooted, Push(rooted, stack, comps[0]), comps[1..])
  }

  /** path.Clean */
  function Clean(s: string): string {
    var rooted := s != "" && s[0] == '/';
    var out := (if rooted then "/" else "") + Join(Reduce(rooted, [], Split(s)));
    if out == "" then "." else out
  }

  // ---------------------------------------------------------------- internal/vfs/path.go

  function CleanPath(p: string): string {
    var t := Trim(p, IsSpace);
    if t == "" then "/"
    else
      var cleaned := Clean("/" + t);
      if cleaned == "" || cleaned == "." then "/" else cleaned
  }

  function SplitPath(p: string): seq<string> {
    var t := Trim(p, IsSlash);
    if t == "" then [] else Split(t)
  }

  method JoinParts(parts: seq<string>) returns (b: string)
    ensures b == Join(parts)
  {
    b := "";
    for i := 0 to |parts|
      invariant b == Join(parts[..i])
    {
      if i > 0 {
        JoinSnoc(parts[..i], parts[i]);
        b := b + "/";
      }
      assert parts[..i + 1] == parts[..i] + [parts[i]];
      b := b + parts[i];
    }
    assert parts[..|parts|] == parts;
  }

  /** The components a path string means: what splitPath(cleanPath(p)) yields. */
  function Norm(comps: seq<string>): seq<string> { Reduce(true, [], comps) }

  function Comps(p: string): seq<string> { Norm(Split(Trim(p, IsSpace))) }

  /** No leading or trailing white space. */
  predicate Tidy(s: string) {
    s != "" ==> !IsSpace(s[0]) && !IsSpace(s[|s| - 1])
  }

  predicate AllTidy(parts: seq<string>) {
    forall p | p in parts :: Tidy(p)
  }

  // ---------------------------------------------------------------- Split and Join

  lemma JoinSnoc(a: seq<string>, x: string)
    requires a != []
    ensures Join(a + [x]) == Join(a) + "/" + x
  {
    JoinConcat(a, [x]);
  }

  lemma {:induction false} JoinConcat(a: seq<string>, b: seq<string>)
    requires a != [] && b != []
    ensures Join(a + b) == Join(a) + "/" + Join(b)
  {
    if |a| > 1 {
      JoinConcat(a[1..], b);
      assert (a + b)[1..] == a[1..] + b;
      assert Join(a + b) == a[0] + "/" + (Join(a[1..]) + "/" + Join(b));
    } else {
      assert (a + b)[1..] == b;
    }
  }

  lemma {:induction false} SplitConcat(a: string, b: string)
    ensures Split(a + "/" + b) == Split(a) + Split(b)
  {
    if a == "" {
      assert (a + "/" + b)[1..] == b;
    } else {
      SplitConcat(a[1..], b);
      SplitHead(a[0], a[1..]);
      SplitHead(a[0], a[1..] + "/" + b);
      assert [a[0]] + a[1..] == a && [a[0]] + (a[1..] + "/" + b) == a + "/" + b;
      WithHeadConcat(a[0], Split(a[1..]), Split(b));
    }
  }

  /** One character in front of a split string. */
  function WithHead(c: char, parts: seq<string>): seq<string>
    requires parts != []
  {
    if c == '/' then [""] + parts else [[c] + parts[0]] + parts[1..]
  }

  lemma SplitHead(c: char, s: string)
    ensures Split([c] + s) == WithHead(c, Split(s))
  {
    assert ([c] + s)[1..] == s;
  }

  lemma WithHeadConcat(c: char, parts: seq<string>, more: seq<string>)
    requires parts != []
    ensures WithHead(c, parts + more) == WithHead(c, parts) + more
  {
    assert (parts + more)[0] == parts[0] && (parts + more)[1..] == parts[1..] + more;
  }

  lemma {:induction false} SplitAtom(s: string)
    requires '/' !in s
    ensures Split(s) == [s]
  {
    if s != "" {
      SplitAtom(s[1..]);
      assert [s[0]] + s[1..] == s;
    }
  }

  lemma {:induction false} SplitJoin(parts: seq<string>)
    requires parts != [] && forall p | p in parts :: '/' !in p
    ensures Split(Join(parts)) == parts
  {
    SplitAtom(parts[0]);
    if |parts| > 1 {
      SplitJoin(parts[1..]);
      SplitConcat(parts[0], Join(parts[1..]));
    }
  }

  // ---------------------------------------------------------------- Reduce

  lemma {:induction false} ReduceConcat(rooted: bool, stack: seq<string>, a: seq<string>, b: seq<string>)
    ensures Reduce(rooted, stack, a + b) == Reduce(rooted, Reduce(rooted, stack, a), b)
    decreases |a|
  {
    if a == [] {
      assert a + b == b;
    } else {
      assert (a + b)[1..] == a[1..] + b;
      ReduceConcat(rooted, Push(rooted, stack, a[0]), a[1..], b);
    }
  }

  lemma {:induction false} ReduceNames(rooted: bool, stack: seq<string>, names: seq<string>)
    requires Names(names)
    ensures Reduce(rooted, stack, names) == stack + names
    decreases |names|
  {
    if names != [] {
      assert IsName(names[0]);
      ReduceNames(rooted, stack + [names[0]], names[1..]);
      assert stack + [names[0]] + names[1..] == stack + names;
    } else {
      assert stack + names == stack;
    }
  }

  /** The stack of a rooted clean never holds anything but proper names. */
  lemma {:induction false} RootedIsNames(stack: seq<string>, comps: seq<string>)
    requires Names(stack) && forall c | c in comps :: '/' !in c
    ensures Names(Reduce(true, stack, comps))
    decreases |comps|
  {
    if comps != [] {
      assert comps[0] in comps;
      RootedIsNames(Push(true, stack, comps[0]), comps[1..]);
    }
  }

  lemma {:induction false} ReduceTidy(rooted: bool, stack: seq<string>, comps: seq<string>)
    requires AllTidy(stack) && AllTidy(comps)
    ensures AllTidy(Reduce(rooted, stack, comps))
    decreases |comps|
  {
    if comps != [] {
      assert comps[0] in comps;
      ReduceTidy(rooted, Push(rooted, stack, comps[0]), comps[1..]);
    }
  }

  ghost predicate RelativeStack(r: seq<string>) {
    forall p | p in r :: p == ".." || IsName(p)
  }

  /** Cleaning a relative path first and rooting it afterwards is the same as
      rooting it at once: one component at a time. */
  lemma PushRelative(stack: seq<string>, r: seq<string>, c: string)
    requires RelativeStack(r)
    ensures Reduce(true, stack, Push(false, r, c)) == Push(true, Reduce(true, stack, r), c)
  {
    if c == ".." && r != [] && r[|r| - 1] != ".." {
      var init, x := r[..|r| - 1], r[|r| - 1];
      assert r == init + [x];
      ReduceConcat(true, stack, init, [x]);
      assert x in r;
      ReduceNames(true, Reduce(true, stack, init), [x]);
    } else if c != "" && c != "." {
      ReduceConcat(true, stack, r, [c]);
      assert Reduce(true, Reduce(true, stack, r), [c]) == Push(true, Reduce(true, stack, r), c) by {
        assert [c][1..] == [];
      }
    }
  }

  lemma {:induction false} ReduceRelative(stack: seq<string>, r: seq<string>, comps: seq<string>)
    requires RelativeStack(r) && forall c | c in comps :: '/' !in c
    ensures RelativeStack(Reduce(false, r, comps))
    ensures Reduce(true, stack, Reduce(false, r, comps)) == Reduce(true, Reduce(true, stack, r), comps)
    decreases |comps|
  {
    if comps != [] {
      assert comps[0] in comps;
      PushRelative(stack, r, comps[0]);
      ReduceRelative(stack, Push(false, r, comps[0]), comps[1..]);
    }
  }

  // ---------------------------------------------------------------- cleanPath, splitPath

  lemma CompsAreNames(p: string)
    ensures Names(Comps(p))
  {
    RootedIsNames([], Split(Trim(p, IsSpace)));
  }

  lemma NormRooted(t: string)
    ensures Split("/" + t) == [""] + Split(t)
    ensures Norm(Split("/" + t)) == Norm(Split(t))
  {
    assert ("/" + t)[1..] == t;
    assert ([""] + Split(t))[1..] == Split(t);
  }

  lemma CleanPathForm(p: string)
    ensures CleanPath(p) == "/" + Join(Comps(p))
  {
    var t := Trim(p, IsSpace);
    NormRooted(t);
    if t == "" {
      assert [""][1..] == [];
      assert Comps(p) == [];
    }
  }

  lemma TrimLeftNoop(s: string, cut: char -> bool)
    requires s != "" ==> !cut(s[0])
    ensures TrimLeft(s, cut) == s
  {}

  /** A nonempty join of names starts and ends like its first and last name. */
  lemma {:induction false} JoinEnds(names: seq<string>)
    requires names != [] && forall n | n in names :: n != ""
    ensures Join(names) != "" && names[0] != "" && names[|names| - 1] != ""
    ensures Join(names)[0] == names[0][0]
    ensures var l := names[|names| - 1]; Join(names)[|Join(names)| - 1] == l[|l| - 1]
  {
    assert names[0] in names && names[|names| - 1] in names;
    if |names| > 1 {
      assert forall n | n in names[1..] :: n in names;
      JoinEnds(names[1..]);
    }
  }

  lemma SplitPathOfNames(names: seq<string>)
    requires Names(names)
    ensures SplitPath("/" + Join(names)) == names
  {
    var s := "/" + Join(names);
    assert s[1..] == Join(names);
    if names == [] {
      assert Trim(s, IsSlash) == "";
    } else {
      assert forall n | n in names :: n != "" && '/' !in n;
      JoinEnds(names);
      assert names[0] in names && names[|names| - 1] in names;
      TrimLeftNoop(Join(names), IsSlash);
      assert TrimLeft(s, IsSlash) == Join(names);
      SplitJoin(names);
    }
  }

  /** For every string: cleanPath is absolute, and its components are proper names,
      so the walker's "", "." and ".." cases never fire. */
  lemma CleanPathComponents(p: string)
    ensures CleanPath(p) != "" && CleanPath(p)[0] == '/'
    ensures SplitPath(CleanPath(p)) == Comps(p)
    ensures Names(SplitPath(CleanPath(p)))
  {
    CleanPathForm(p);
    CompsAreNames(p);
    SplitPathOfNames(Comps(p));
  }

  /** splitPath and "/" + joinParts undo each other on cleaned paths. */
  lemma SplitJoinRoundTrip(p: string, names: seq<string>)
    requires Names(names)
    ensures "/" + Join(SplitPath(CleanPath(p))) == CleanPath(p)
    ensures SplitPath("/" + Join(names)) == names
  {
    CleanPathForm(p);
    CleanPathComponents(p);
    SplitPathOfNames(names);
  }

  /** Cutting a cleaned path at its last slash leaves the parent's path and the last name. */
  lemma CutAtLastSlash(init: seq<string>, l: string)
    requires Names(init) && IsName(l)
    ensures var s := "/" + Join(init + [l]); var i := LastSlash(s);
            i >= 0 && s[i + 1..] == l && (if s[..i] == "" then "/" else s[..i]) == "/" + Join(init)
  {
    var s := "/" + Join(init + [l]);
    var pre := if init == [] then "" else "/" + Join(init);
    if init != [] { JoinSnoc(init, l); } else { assert init + [l] == [l]; }
    assert s == pre + "/" + l;
    LastSlashAt(s, |pre|);
    assert s[..|pre|] == pre && s[|pre| + 1..] == l;
  }

  lemma {:induction false} LastSlashAt(s: string, i: nat)
    requires i < |s| && s[i] == '/' && '/' !in s[i + 1..]
    ensures LastSlash(s) == i
  {
    if i < |s| - 1 {
      assert s[i + 1..][|s| - i - 2] == s[|s| - 1];
      assert s[..|s| - 1][i + 1..] <= s[i + 1..];
      LastSlashAt(s[..|s| - 1], i);
    }
  }

  lemma CompsOfEmpty()
    ensures Comps("") == []
  {
    assert [""][1..] == [];
  }

  predicate EndsInSpace(s: string) { s != "" && IsSpace(s[|s| - 1]) }

  /** Trimming an absolute path only reaches into its last component. */
  lemma TrimAbsolute(init: seq<string>, l: string)
    ensures Trim("/" + Join(init + [l]), IsSpace) == "/" + Join(init + [TrimRight(l, IsSpace)])
  {
    var pre := if init == [] then "/" else "/" + Join(init) + "/";
    if init != [] {
      JoinSnoc(init, l);
      JoinSnoc(init, TrimRight(l, IsSpace));
    } else {
      assert init + [l] == [l] && init + [TrimRight(l, IsSpace)] == [TrimRight(l, IsSpace)];
    }
    assert "/" + Join(init + [l]) == pre + l;
    TrimRightSuffix(pre, l);
  }

  lemma {:induction false} TrimRightSuffix(pre: string, s: string)
    requires pre != "" && !IsSpace(pre[|pre| - 1])
    ensures TrimRight(pre + s, IsSpace) == pre + TrimRight(s, IsSpace)
  {
    if s != "" {
      var t := s[..|s| - 1];
      assert (pre + s)[..|pre + s| - 1] == pre + t;
      if IsSpace(s[|s| - 1]) { TrimRightSuffix(pre, t); }
    } else {
      assert pre + s == pre;
    }
  }

  lemma {:induction false} TrimRightShrinks(s: string, cut: char -> bool)
    ensures TrimRight(s, cut) <= s
    ensures s != "" && cut(s[|s| - 1]) <==> TrimRight(s, cut) != s
  {
    if s != "" && cut(s[|s| - 1]) { TrimRightShrinks(s[..|s| - 1], cut); }
  }

  /** The components of a cleaned path, read again: only trailing white space of
      the last one can make a difference. */
  lemma CompsOfNames(names: seq<string>)
    requires Names(names)
    ensures Comps("/" + Join(names)) == names <==> (names == [] || !EndsInSpace(names[|names| - 1]))
  {
    if names == [] {
      CompsOfRoot();
    } else {
      var init, l := LastName(names);
      CompsOfNamesSnoc(names, init, l);
    }
  }

  lemma LastName(names: seq<string>) returns (init: seq<string>, l: string)
    requires names != [] && Names(names)
    ensures names == init + [l] && Names(init) && IsName(l) && l == names[|names| - 1]
  {
    init, l := names[..|names| - 1], names[|names| - 1];
    assert names == init + [l] && names[|names| - 1] in names;
  }

  lemma CompsOfRoot()
    ensures Comps("/" + Join([])) == []
  {
    TrimAbsoluteRoot();
    CompsOfAbsolute([]);
  }

  lemma CompsOfNamesSnoc(names: seq<string>, init: seq<string>, l: string)
    requires names == init + [l] && Names(init) && IsName(l)
    ensures Comps("/" + Join(names)) == names <==> !EndsInSpace(l)
  {
    var t := TrimRight(l, IsSpace);
    CompsOfAbsoluteSnoc(init, l);
    assert t <= l && (EndsInSpace(l) <==> t != l) by { TrimRightShrinks(l, IsSpace); }
    PushPrefix(init, l, t);
  }

  lemma TrimAbsoluteRoot()
    ensures Trim("/" + Join([]), IsSpace) == "/" + Join([])
  {
    assert "/" + Join([]) == "/";
  }

  lemma PushPrefix(init: seq<string>, l: string, t: string)
    requires IsName(l) && t <= l
    ensures Push(true, init, t) == init + [l] <==> t == l
  {
    if t != l && t != "" && t != "." && t != ".." {
      assert (init + [t])[|init|] == t;
    }
  }

  lemma CompsOfAbsoluteSnoc(init: seq<string>, l: string)
    requires Names(init) && '/' !in l
    ensures Comps("/" + Join(init + [l])) == Push(true, init, TrimRight(l, IsSpace))
  {
    var t := TrimRight(l, IsSpace);
    TrimAbsolute(init, l);
    TrimRightShrinks(l, IsSpace);
    var parts := init + [t];
    assert forall n | n in parts :: '/' !in n by {
      assert forall n | n in parts :: n == t || IsName(n);
      assert forall c | c in t :: c in l;
    }
    NormRooted(Join(parts));
    SplitJoin(parts);
    NormInit(init, t);
    assert Norm(init) == init by {
      ReduceNames(true, [], init);
      assert [] + init == init;
    }
  }

  lemma NormInit(a: seq<string>, x: string)
    ensures Norm(a + [x]) == Push(true, Norm(a), x)
  {
    ReduceConcat(true, [], a, [x]);
    assert [x][1..] == [];
  }

  lemma CompsOfAbsolute(names: seq<string>)
    requires Names(names)
    requires Trim("/" + Join(names), IsSpace) == "/" + Join(names)
    ensures Comps("/" + Join(names)) == names
  {
    NormRooted(Join(names));
    if names == [] {
      assert [""][1..] == [];
    } else {
      SplitJoin(names);
      ReduceNames(true, [], names);
    }
  }

  /** cleanPath is idempotent on p exactly when the last component of cleanPath(p)
      has no trailing white space. */
  lemma CleanPathIdempotent(p: string)
    ensures CleanPath(CleanPath(p)) == CleanPath(p) <==>
            (Comps(p) == [] || !EndsInSpace(Comps(p)[|Comps(p)| - 1]))
  {
    CleanPathForm(p);
    CompsAreNames(p);
    CompsOfNames(Comps(p));
    CleanPathForm(CleanPath(p));
    CompsAreNames(CleanPath(p));
    SplitPathOfNames(Comps(p));
    SplitPathOfNames(Comps(CleanPath(p)));
  }

  /** cleanPath is not idempotent: "/a /" keeps the trailing blank once. */
  lemma CleanPathNotIdempotent(a: string)
    requires a == "a "
    ensures CleanPath("/" + a + "/") == "/" + a
    ensures CleanPath("/" + a) == "/" + "a"
  {
    assert a[..1] == "a" && TrimRight("a", IsSpace) == "a";
    assert TrimRight(a, IsSpace) == "a";
    JoinConcat([a], [""]);
    assert [] + [a] == [a];
    assert "/" + (a + "/" + "") == "/" + a + "/";
    CompsOfAbsoluteSnoc([a], "");
    CompsOfAbsoluteSnoc([], a);
    CleanPathForm("/" + a + "/");
    CleanPathForm("/" + a);
  }

  // ---------------------------------------------------------------- what trimming does

  /** s[i..j] is what is left of s when everything cut is taken off both ends. */
  ghost predicate Core(s: string, cut: char -> bool, i: nat, j: nat) {
    i <= j <= |s| && (forall k | 0 <= k < |s| && !(i <= k < j) :: cut(s[k]))
    && (i < j ==> !cut(s[i]) && !cut(s[j - 1]))
  }

  /** Trimming takes off exactly what is cut at the ends: nothing in between, and all of it. */
  lemma TrimIsCore(s: string, cut: char -> bool) returns (i: nat, j: nat)
    ensures Core(s, cut, i, j) && Trim(s, cut) == s[i..j]
  {
    i := TrimLeftCore(s, cut);
    var n := TrimRightCore(s[i..], cut);
    j := i + n;
  }

  lemma {:induction false} TrimLeftCore(s: string, cut: char -> bool) returns (i: nat)
    ensures i <= |s| && TrimLeft(s, cut) == s[i..]
    ensures (forall k | 0 <= k < i :: cut(s[k])) && (i < |s| ==> !cut(s[i]))
  {
    i := 0;
    if s != "" && cut(s[0]) {
      i := TrimLeftCore(s[1..], cut);
      assert forall k | 0 <= k < i :: cut(s[1..][k]);
      i := i + 1;
    }
  }

  lemma {:induction false} TrimRightCore(s: string, cut: char -> bool) returns (j: nat)
    ensures j <= |s| && TrimRight(s, cut) == s[..j]
    ensures (forall k | j <= k < |s| :: cut(s[k])) && (0 < j ==> !cut(s[j - 1]))
  {
    j := |s|;
    if s != "" && cut(s[|s| - 1]) {
      j := TrimRightCore(s[..|s| - 1], cut);
      assert s[..|s| - 1][..j] == s[..j];
    }
  }

  /** There is only one such part. */
  lemma CoreUnique(s: string, cut: char -> bool, i: nat, j: nat, k: nat, l: nat)
    requires Core(s, cut, i, j) && Core(s, cut, k, l)
    ensures s[i..j] == s[k..l]
  {
    assert i < j ==> k <= i < l && k <= j - 1 < l;
    assert k < l ==> i <= k < j && i <= l - 1 < j;
  }

  ghost predicate All(s: string, cut: char -> bool) { forall i | 0 <= i < |s| :: cut(s[i]) }

  /** White space around a path makes no difference, however much of it there is. */
  lemma CleanPathBlanks(u: string, p: string, v: string)
    requires All(u, IsSpace) && All(v, IsSpace)
    ensures Comps(u + p + v) == Comps(p) && CleanPath(u + p + v) == CleanPath(p)
  {
    TrimBlanks(u, p, v, u + p + v, IsSpace);
  }

  lemma TrimBlanks(u: string, p: string, v: string, s: string, cut: char -> bool)
    requires All(u, cut) && All(v, cut) && s == u + p + v
    ensures Trim(s, cut) == Trim(p, cut)
  {
    var i, j := TrimIsCore(p, cut);
    var k, l := TrimIsCore(s, cut);
    CoreInside(u, p, v, s, cut, i, j);
    CoreUnique(s, cut, |u| + i, |u| + j, k, l);
  }

  lemma CoreInside(u: string, p: string, v: string, s: string, cut: char -> bool, i: nat, j: nat)
    requires All(u, cut) && All(v, cut) && s == u + p + v && Core(p, cut, i, j)
    ensures Core(s, cut, |u| + i, |u| + j) && s[|u| + i..|u| + j] == p[i..j]
  {
    assert forall k | 0 <= k < |p| :: s[|u| + k] == p[k];
    forall k | 0 <= k < |s| && !(|u| + i <= k < |u| + j) ensures cut(s[k]) {
      if k >= |u| + |p| { assert s[k] == v[k - |u| - |p|]; }
      else if k >= |u| { assert s[k] == p[k - |u|]; }
    }
  }

  /** A path without outer white space has the components its dots and slashes leave. */
  lemma CleanPathOfTidy(p: string)
    requires Tidy(p)
    ensures Comps(p) == Reduce(true, [], Split(p)) == SplitPath(CleanPath(p))
    ensures CleanPath(p) == "/" + Join(Reduce(true, [], Split(p)))
  {
    var i, j := TrimIsCore(p, IsSpace);
    assert Core(p, IsSpace, 0, |p|) && p[0..|p|] == p;
    CoreUnique(p, IsSpace, i, j, 0, |p|);
    CleanPathForm(p);
    CleanPathComponents(p);
  }

  // ---------------------------------------------------------------- white space free strings

  lemma {:induction false} SplitEnds(s: string)
    requires s != ""
    ensures var ps := Split(s);
            (s[0] == '/' || (ps[0] != "" && ps[0][0] == s[0])) &&
            var l := ps[|ps| - 1];
            (s[|s| - 1] == '/' || (l != "" && l[|l| - 1] == s[|s| - 1]))
  {
    if |s| > 1 {
      SplitEnds(s[1..]);
      SplitHead(s[0], s[1..]);
      assert [s[0]] + s[1..] == s;
    } else {
      assert s[1..] == "";
    }
  }

  /** Trimming does nothing to a string all of whose components are tidy. */
  lemma TrimTidy(s: string)
    requires AllTidy(Split(s))
    ensures Trim(s, IsSpace) == s
  {
    if s != "" {
      SplitEnds(s);
      assert Split(s)[0] in Split(s) && Split(s)[|Split(s)| - 1] in Split(s);
    }
  }

  lemma CompsTidy(s: string)
    requires AllTidy(Split(s))
    ensures Comps(s) == Norm(Split(s)) && AllTidy(Comps(s))
  {
    TrimTidy(s);
    ReduceTidy(true, [], Split(s));
  }
}

/** The mount table and path resolution (vfs/src/lib.rs:81-199). */
module MountTable {
  import opened Bytes

  type Path = seq<char>
  type Node = nat

  datatype Entry = Entry(path: Path, root: Node)

  function TrimEnd(s: Path): (r: Path)
    ensures r <= s && (r != [] ==> r[|r| - 1] != '/')
    ensures forall i :: |r| <= i < |s| ==> s[i] == '/'
  {
    if s == [] || s[|s| - 1] != '/' then s else TrimEnd(s[..|s| - 1])
  }

  function TrimStart(s: Path): Path {
    if s == [] || s[0] != '/' then s else TrimStart(s[1..])
  }

  /** normalize_mount_path: the path without its trailing slashes, and one slash. */
  function Normalize(path: Path): (r: Path)
    ensures IsKey(r) && r[..|r| - 1] <= path && forall i :: |r| - 1 <= i < |path| ==> path[i] == '/'
  {
    if path == "/" then "/" else TrimEnd(path) + "/"
  }

  /** A normalized mount path: one slash at the end. */
  predicate IsKey(k: Path) {
    k != [] && k[|k| - 1] == '/' && (|k| > 1 ==> k[|k| - 2] != '/')
  }

  /** A mount covers the mount point itself and everything inside it. */
  predicate Covers(k: Path, path: Path) {
    if k == "/" then path != [] && path[0] == '/'
    else path == TrimEnd(k) || k <= path
  }

  lemma KeyStem(k: Path)
    requires IsKey(k)
    ensures TrimEnd(k) == k[..|k| - 1]
  {
    assert TrimEnd(k) == TrimEnd(k[..|k| - 1]);
  }

  /** Two mounts of the same length cover no common path. */
  lemma SameLengthApart(a: Path, b: Path, path: Path)
    requires IsKey(a) && IsKey(b) && |a| == |b| && Covers(a, path) && Covers(b, path)
    ensures a == b
  {
    KeyStem(a);
    KeyStem(b);
    assert a == a[..|a| - 1] + "/" && b == b[..|b| - 1] + "/";
  }

  // ---------------------------------------------------------------- the table and what it means

  ghost predicate Ok(t: seq<Entry>) {
    && (forall i :: 0 <= i < |t| ==> IsKey(t[i].path))
    && (forall i, j :: 0 <= i < j < |t| ==> t[i].path != t[j].path && |t[i].path| >= |t[j].path|)
  }

  /** The mounts as a map. */
  ghost predicate Means(t: seq<Entry>, m: map<Path, Node>) {
    && (forall e :: e in t ==> e.path in m && m[e.path] == e.root)
    && (forall k :: k in m ==> Entry(k, m[k]) in t)
  }

  /** The first entry that covers the path, as the linear scan finds it. */
  function Find(t: seq<Entry>, path: Path, i: nat): (r: Option<Entry>)
    requires i <= |t|
    decreases |t| - i
  {
    if i == |t| then None else if Covers(t[i].path, path) then Some(t[i]) else Find(t, path, i + 1)
  }

  /** `k` is the longest mounted path that covers `path`: longer than any other. */
  ghost predicate Best(m: map<Path, Node>, path: Path, k: Path) {
    k in m && Covers(k, path) && forall o :: o in m && o != k && Covers(o, path) ==> |o| < |k|
  }

  lemma {:induction false} FindFrom(t: seq<Entry>, path: Path, i: nat)
    requires Ok(t) && i <= |t| && forall j :: 0 <= j < i ==> !Covers(t[j].path, path)
    ensures match Find(t, path, i)
            case None => forall j :: 0 <= j < |t| ==> !Covers(t[j].path, path)
            case Some(e) =>
              && e in t && Covers(e.path, path)
              && forall j :: 0 <= j < |t| && t[j] != e && Covers(t[j].path, path) ==> |t[j].path| < |e.path|
    decreases |t| - i
  {
    hide Covers, IsKey;
    if i < |t| {
      if Covers(t[i].path, path) {
        forall j | 0 <= j < |t| && t[j] != t[i] && Covers(t[j].path, path) ensures |t[j].path| < |t[i].path| {
          if |t[j].path| == |t[i].path| { SameLengthApart(t[i].path, t[j].path, path); }
        }
      } else {
        FindFrom(t, path, i + 1);
      }
    }
  }

  /** lookup_path starts at the root of the longest mounted path covering the query, or nowhere. */
  lemma FindIsBest(t: seq<Entry>, m: map<Path, Node>, path: Path)
    requires Ok(t) && Means(t, m)
    ensures match Find(t, path, 0)
            case None => forall k :: k in m ==> !Covers(k, path)
            case Some(e) => Best(m, path, e.path) && m[e.path] == e.root
  {
    hide Covers, IsKey, Find;
    FindFrom(t, path, 0);
  }

  /** Only the set of mounts matters, not the order they were made in or how ties were sorted. */
  lemma OrderIrrelevant(t: seq<Entry>, u: seq<Entry>, m: map<Path, Node>, path: Path)
    requires Ok(t) && Ok(u) && Means(t, m) && Means(u, m)
    ensures Find(t, path, 0) == Find(u, path, 0)
  {
    hide Covers, IsKey, Find;
    FindIsBest(t, m, path);
    FindIsBest(u, m, path);
  }

  // ---------------------------------------------------------------- walking the rest of the path

  /** split('/') without its empty parts; `part` is the component read so far. */
  function Split(s: Path, part: Path): seq<Path>
    decreases |s|
  {
    if s == [] then (if part == [] then [] else [part])
    else if s[0] == '/' then (if part == [] then [] else [part]) + Split(s[1..], [])
    else Split(s[1..], part + [s[0]])
  }

  function Components(s: Path): seq<Path> { Split(s, []) }

  /** What lookup_path walks below the mount. */
  function Remainder(k: Path, path: Path): Path {
    if k == "/" then TrimStart(path)
    else if k <= path then TrimStart(path[|k|..])
    else ""
  }

  lemma {:induction false} SplitConcat(a: Path, b: Path, part: Path)
    requires a != [] && a[|a| - 1] == '/'
    ensures Split(a + b, part) == Split(a, part) + Split(b, [])
    decreases |a|
  {
    assert (a + b)[1..] == a[1..] + b;
    if |a| == 1 {
      assert a[1..] + b == b && a[1..] == [];
    } else if a[0] == '/' {
      SplitConcat(a[1..], b, []);
    } else {
      SplitConcat(a[1..], b, part + [a[0]]);
    }
  }

  lemma {:induction false} SplitTrim(s: Path)
    ensures Split(TrimStart(s), []) == Split(s, [])
  {
    if s != [] && s[0] == '/' { SplitTrim(s[1..]); }
  }

  lemma {:induction false} SplitEnd(s: Path, part: Path)
    ensures Split(s + "/", part) == Split(s, part)
    decreases |s|
  {
    assert (s + "/") != [];
    if s == [] {
      assert (s + "/")[1..] == [];
    } else {
      assert (s + "/")[1..] == s[1..] + "/";
      if s[0] == '/' { SplitEnd(s[1..], []); } else { SplitEnd(s[1..], part + [s[0]]); }
    }
  }

  /** A mount takes away whole components: those of the query are those of the mount and the rest. */
  lemma ComponentsSplit(k: Path, path: Path)
    requires IsKey(k) && Covers(k, path)
    ensures Components(path) == Components(k) + Components(Remainder(k, path))
  {
    hide Split;
    if k == "/" {
      SplitTrim(path);
      SplitEnd("", []);
      assert "" + "/" == "/";
      NoParts();
    } else if k <= path {
      assert path == k + path[|k|..];
      SplitConcat(k, path[|k|..], []);
      SplitTrim(path[|k|..]);
    } else {
      KeyStem(k);
      assert k == path + "/";
      SplitEnd(path, []);
      NoParts();
    }
  }

  lemma NoParts()
    ensures Split("", []) == []
  {
  }

  function Walk(child: (Node, Path) -> Option<Node>, n: Node, parts: seq<Path>): Option<Node>
    decreases |parts|
  {
    if parts == [] then Some(n)
    else
      match child(n, parts[0])
      case None => None
      case Some(c) => Walk(child, c, parts[1..])
  }

  /** Resolution of a path over a map of mounts. */
  function Resolve(t: seq<Entry>, child: (Node, Path) -> Option<Node>, path: Path): Option<Node> {
    match Find(t, path, 0)
    case None => None
    case Some(e) => Walk(child, e.root, Components(Remainder(e.path, path)))
  }

  /** Resolution walks, from the root of the longest mount, the components of the query that follow the mount's. */
  lemma ResolveMeans(t: seq<Entry>, m: map<Path, Node>, child: (Node, Path) -> Option<Node>, path: Path, k: Path)
    requires Ok(t) && Means(t, m) && Best(m, path, k)
    ensures Components(k) <= Components(path)
    ensures Resolve(t, child, path) == Walk(child, m[k], Components(path)[|Components(k)|..])
  {
    hide Covers, IsKey, Find, Remainder, Split;
    FindIsBest(t, m, path);
    var e := Find(t, path, 0).value;
    assert e.path == k;
    ComponentsSplit(k, path);
  }

  // ---------------------------------------------------------------- what resolution means

  /** `ns` starts at `start`, and each next node is the child of the one before it under the next component of
      `comps`, from component `c` on. */
  ghost predicate Trail(child: (Node, Path) -> Option<Node>, start: Node, comps: seq<Path>, c: nat, ns: seq<Node>) {
    && 1 <= |ns| && c + |ns| - 1 <= |comps| && ns[0] == start
    && forall i :: 0 <= i < |ns| - 1 ==> child(ns[i], comps[c + i]) == Some(ns[i + 1])
  }

  /** All components are used up, and `v` is where they lead. */
  ghost predicate Leads(child: (Node, Path) -> Option<Node>, start: Node, comps: seq<Path>, c: nat, v: Node) {
    exists ns :: Trail(child, start, comps, c, ns) && c + |ns| - 1 == |comps| && v == ns[|ns| - 1]
  }

  /** Some node on the way has no child under the next component. */
  ghost predicate Stuck(child: (Node, Path) -> Option<Node>, start: Node, comps: seq<Path>, c: nat) {
    exists ns :: Trail(child, start, comps, c, ns) && c + |ns| - 1 < |comps|
                 && child(ns[|ns| - 1], comps[c + |ns| - 1]) == None
  }

  /** The walk follows the components in order, each from where the one before it led. */
  lemma {:induction false} WalkIff(child: (Node, Path) -> Option<Node>, n: Node, comps: seq<Path>, c: nat)
    requires c <= |comps|
    ensures forall v: Node :: Walk(child, n, comps[c..]) == Some(v) <==> Leads(child, n, comps, c, v)
    ensures Walk(child, n, comps[c..]).None? <==> Stuck(child, n, comps, c)
    decreases |comps| - c
  {
    hide Leads, Stuck;
    if c == |comps| {
      WalkEnd(child, n, comps);
    } else {
      assert comps[c..][1..] == comps[c + 1..];
      match child(n, comps[c]) {
        case None =>
          NoStep(child, n, comps, c);
        case Some(next) =>
          WalkIff(child, next, comps, c + 1);
          OneStep(child, n, comps, c, next);
      }
    }
  }

  lemma WalkEnd(child: (Node, Path) -> Option<Node>, n: Node, comps: seq<Path>)
    ensures forall v: Node :: Leads(child, n, comps, |comps|, v) <==> v == n
    ensures !Stuck(child, n, comps, |comps|)
  {
    assert Trail(child, n, comps, |comps|, [n]);
  }

  lemma FirstStep(child: (Node, Path) -> Option<Node>, n: Node, comps: seq<Path>, c: nat, ns: seq<Node>)
    requires Trail(child, n, comps, c, ns)
    ensures |ns| > 1 ==> c < |comps| && child(n, comps[c]) == Some(ns[1])
  {
    assert |ns| > 1 ==> child(ns[0], comps[c + 0]) == Some(ns[0 + 1]);
  }

  lemma NoStep(child: (Node, Path) -> Option<Node>, n: Node, comps: seq<Path>, c: nat)
    requires c < |comps| && child(n, comps[c]) == None
    ensures Stuck(child, n, comps, c) && forall v: Node :: !Leads(child, n, comps, c, v)
  {
    assert Trail(child, n, comps, c, [n]);
    forall ns | Trail(child, n, comps, c, ns) ensures |ns| == 1 { FirstStep(child, n, comps, c, ns); }
  }

  lemma OneStep(child: (Node, Path) -> Option<Node>, n: Node, comps: seq<Path>, c: nat, next: Node)
    requires c < |comps| && child(n, comps[c]) == Some(next)
    ensures forall v: Node :: Leads(child, n, comps, c, v) <==> Leads(child, next, comps, c + 1, v)
    ensures Stuck(child, n, comps, c) <==> Stuck(child, next, comps, c + 1)
  {
    forall v: Node | Leads(child, n, comps, c, v) ensures Leads(child, next, comps, c + 1, v) {
      var ns :| Trail(child, n, comps, c, ns) && c + |ns| - 1 == |comps| && v == ns[|ns| - 1];
      TrailTail(child, n, comps, c, next, ns);
    }
    forall v: Node | Leads(child, next, comps, c + 1, v) ensures Leads(child, n, comps, c, v) {
      var ns :| Trail(child, next, comps, c + 1, ns) && c + 1 + |ns| - 1 == |comps| && v == ns[|ns| - 1];
      TrailMore(child, n, comps, c, next, ns);
    }
    if Stuck(child, n, comps, c) {
      var ns :| Trail(child, n, comps, c, ns) && c + |ns| - 1 < |comps|
                && child(ns[|ns| - 1], comps[c + |ns| - 1]) == None;
      TrailTail(child, n, comps, c, next, ns);
    }
    if Stuck(child, next, comps, c + 1) {
      var ns :| Trail(child, next, comps, c + 1, ns) && c + 1 + |ns| - 1 < |comps|
                && child(ns[|ns| - 1], comps[c + 1 + |ns| - 1]) == None;
      TrailMore(child, n, comps, c, next, ns);
    }
  }

  lemma TrailTail(child: (Node, Path) -> Option<Node>, n: Node, comps: seq<Path>, c: nat, next: Node, ns: seq<Node>)
    requires c < |comps| && child(n, comps[c]) == Some(next) && Trail(child, n, comps, c, ns) && |ns| > 1
    ensures Trail(child, next, comps, c + 1, ns[1..])
  {
    assert child(ns[0], comps[c + 0]) == Some(ns[1]);
    forall i | 0 <= i < |ns[1..]| - 1 ensures child(ns[1..][i], comps[c + 1 + i]) == Some(ns[1..][i + 1]) {
      assert child(ns[i + 1], comps[c + (i + 1)]) == Some(ns[i + 1 + 1]);
    }
  }

  lemma TrailMore(child: (Node, Path) -> Option<Node>, n: Node, comps: seq<Path>, c: nat, next: Node, ns: seq<Node>)
    requires c < |comps| && child(n, comps[c]) == Some(next) && Trail(child, next, comps, c + 1, ns)
    ensures Trail(child, n, comps, c, [n] + ns)
  {
    var all := [n] + ns;
    forall i | 0 <= i < |all| - 1 ensures child(all[i], comps[c + i]) == Some(all[i + 1]) {
      if i > 0 { assert child(ns[i - 1], comps[c + 1 + (i - 1)]) == Some(ns[i - 1 + 1]); }
    }
  }

  /** A path resolves to `v` exactly when its components, from the first one behind the longest mount, lead
      there from the root of that mount; it resolves to nothing exactly when no mount covers it or some node on
      the way lacks the child. */
  ghost predicate Resolves(m: map<Path, Node>, child: (Node, Path) -> Option<Node>, path: Path, r: Option<Node>) {
    && (forall v: Node :: r == Some(v) <==> Reaches(m, child, path, v))
    && (r.None? <==> (forall k :: k in m ==> !Covers(k, path)) || Fails(m, child, path))
  }

  ghost predicate Reaches(m: map<Path, Node>, child: (Node, Path) -> Option<Node>, path: Path, v: Node) {
    exists k :: Best(m, path, k) && Leads(child, m[k], Components(path), |Components(k)|, v)
  }

  ghost predicate Fails(m: map<Path, Node>, child: (Node, Path) -> Option<Node>, path: Path) {
    exists k :: Best(m, path, k) && Stuck(child, m[k], Components(path), |Components(k)|)
  }

  lemma ResolveIff(t: seq<Entry>, m: map<Path, Node>, child: (Node, Path) -> Option<Node>, path: Path)
    requires Ok(t) && Means(t, m)
    ensures Resolves(m, child, path, Resolve(t, child, path))
  {
    hide Covers, IsKey, Find, Remainder, Components, Leads, Stuck, Walk, Ok, Means;
    FindIsBest(t, m, path);
    match Find(t, path, 0)
    case None =>
    case Some(e) =>
      ResolveMeans(t, m, child, path, e.path);
      WalkIff(child, m[e.path], Components(path), |Components(e.path)|);
      forall k | Best(m, path, k) ensures k == e.path { OneBest(m, path, k, e.path); }
  }

  lemma OneBest(m: map<Path, Node>, path: Path, k: Path, o: Path)
    requires Best(m, path, k) && Best(m, path, o)
    ensures k == o
  {
    hide Covers;
  }

  /** The absolute path with these components. */
  function PathOf(parts: seq<Path>): Path { if parts == [] then "" else "/" + parts[0] + PathOf(parts[1..]) }

  predicate IsPart(s: Path) { s != [] && '/' !in s }

  /** The components of a path are its parts, in order. */
  lemma {:induction false} ComponentsBack(parts: seq<Path>)
    requires forall i :: 0 <= i < |parts| ==> IsPart(parts[i])
    ensures Components(PathOf(parts)) == parts
    decreases |parts|
  {
    if parts != [] {
      var rest := PathOf(parts[1..]);
      assert IsPart(parts[0]);
      assert ("/" + parts[0] + rest)[1..] == parts[0] + rest;
      ReadPart(parts[0], rest, []);
      ComponentsBack(parts[1..]);
      assert [] + parts[0] == parts[0];
      PartThen(parts[0], parts[1..]);
    }
  }

  /** Characters that are no slash join the component being read. */
  lemma {:induction false} ReadPart(s: Path, rest: Path, part: Path)
    requires '/' !in s
    ensures Split(s + rest, part) == Split(rest, part + s)
    decreases |s|
  {
    if s == [] {
      assert s + rest == rest && part + s == part;
    } else {
      assert (s + rest)[1..] == s[1..] + rest;
      ReadPart(s[1..], rest, part + [s[0]]);
      assert part + [s[0]] + s[1..] == part + s;
    }
  }

  lemma PartThen(part: Path, parts: seq<Path>)
    requires IsPart(part)
    ensures Split(PathOf(parts), part) == [part] + Split(PathOf(parts), [])
  {
    if parts != [] {
      var rest := PathOf(parts);
      assert rest[0] == '/';
    }
  }

  /** Components are never empty and hold no slash. */
  lemma {:induction false} PartsOnly(s: Path, part: Path)
    requires '/' !in part
    ensures forall c :: c in Split(s, part) ==> IsPart(c)
    decreases |s|
  {
    if s != [] {
      if s[0] == '/' { PartsOnly(s[1..], []); } else { PartsOnly(s[1..], part + [s[0]]); }
    }
  }

  lemma NormalizeBest(m: map<Path, Node>, p: Path)
    requires p != [] && p[0] == '/' && Normalize(p) in m && forall k :: k in m ==> IsKey(k)
    ensures Best(m, p, Normalize(p))
  {
    var k := Normalize(p);
    KeyStem(k);
    forall o | o in m && o != k && Covers(o, p) ensures |o| < |k| {
      KeyStem(o);
      if |o| > 1 && o <= p {
        assert p[|o| - 2] == o[|o| - 2];
      }
    }
  }

  lemma {:induction false} OnlySlashes(s: Path)
    requires forall i :: 0 <= i < |s| ==> s[i] == '/'
    ensures Split(s, []) == []
  {
    if s != [] { OnlySlashes(s[1..]); }
  }

  /** What was mounted last at an absolute path is what the path resolves to, whatever else is mounted. */
  lemma MountFound(t: seq<Entry>, m: map<Path, Node>, p: Path, root: Node, child: (Node, Path) -> Option<Node>)
    requires Ok(t) && Means(t, m[Normalize(p) := root]) && p != [] && p[0] == '/'
    ensures Resolve(t, child, p) == Some(root)
  {
    hide Covers, Find, Split, Normalize;
    var k, m2 := Normalize(p), m[Normalize(p) := root];
    NormalizeBest(m2, p);
    ResolveMeans(t, m2, child, p, k);
    ComponentsSplit(k, p);
    RestIsSlashes(k, p);
  }

  lemma RestIsSlashes(k: Path, p: Path)
    requires IsKey(k) && Covers(k, p) && k[..|k| - 1] <= p && forall i :: |k| - 1 <= i < |p| ==> p[i] == '/'
    ensures Components(Remainder(k, p)) == []
  {
    hide Split;
    if k == "/" {
      OnlySlashes(p);
      SplitTrim(p);
    } else if k <= p {
      OnlySlashes(p[|k|..]);
      SplitTrim(p[|k|..]);
    } else {
      NoParts();
    }
  }

  // ---------------------------------------------------------------- components and doubled slashes

  /** No doubled slash among the first `n` characters. */
  predicate Tidy(s: Path, n: nat) {
    forall i :: 0 < i < n && i < |s| ==> !(s[i - 1] == '/' && s[i] == '/')
  }

  predicate Absolute(s: Path) { s != [] && s[0] == '/' }

  /** A mount point given as an absolute path without doubled slashes. */
  predicate PlainKey(k: Path) { IsKey(k) && Absolute(k) && Tidy(k, |k|) }

  lemma {:induction false} FirstPart(s: Path, part: Path)
    requires part != []
    ensures Split(s, part) != [] && part <= Split(s, part)[0]
    decreases |s|
  {
    if s != [] && s[0] != '/' { FirstPart(s[1..], part + [s[0]]); }
  }

  lemma TidyTail(s: Path, n: nat)
    requires s != []
    ensures Tidy(s, n + 1) <==> Tidy(s[1..], n) && !(n > 0 && |s| > 1 && s[0] == '/' && s[1] == '/')
  {
    if Tidy(s[1..], n) && !(n > 0 && |s| > 1 && s[0] == '/' && s[1] == '/') {
      forall i | 0 < i < n + 1 && i < |s| ensures !(s[i - 1] == '/' && s[i] == '/') {
        if i > 1 { assert s[i] == s[1..][i - 1] && s[i - 1] == s[1..][i - 2]; }
      }
    }
    if Tidy(s, n + 1) {
      forall i | 0 < i < n && i < |s[1..]| ensures !(s[1..][i - 1] == '/' && s[1..][i] == '/') {
        assert s[i + 1] == s[1..][i] && s[i] == s[1..][i - 1];
      }
    }
  }

  predicate Ends(s: Path) { s != [] ==> s[|s| - 1] == '/' }

  /** `part` has been read of both: `a` starts `b` exactly when its components start those of `b` and no
      component of `b` is empty as far as `a` goes. */
  lemma {:induction false} PrefixIff(a: Path, b: Path, part: Path)
    requires Ends(a) && Ends(b) && (part != [] ==> a != [] && b != [])
    requires Tidy(a, |a|) && (part == [] && a != [] ==> a[0] != '/')
    ensures a <= b <==>
            Split(a, part) <= Split(b, part) && Tidy(b, |a|) && (part == [] && a != [] && b != [] ==> b[0] != '/')
    decreases |a|
  {
    if a != [] && b != [] {
      TidyTail(a, |a| - 1);
      TidyTail(b, |a| - 1);
      assert a <= b <==> a[0] == b[0] && a[1..] <= b[1..] by {
        if a[0] == b[0] && a[1..] <= b[1..] { assert a == [a[0]] + a[1..] && b == [b[0]] + b[1..]; }
      }
      if a[0] == b[0] == '/' {
        if part != [] {
          PrefixIff(a[1..], b[1..], []);
          ConsPrefix(part, Split(a[1..], []), Split(b[1..], []));
        }
      } else if a[0] == b[0] {
        PrefixIff(a[1..], b[1..], part + [a[0]]);
      } else {
        Differ(a, b, part);
      }
    } else if a != [] {
      SomePart(a, part);
    }
  }

  lemma ConsPrefix(x: Path, s: seq<Path>, t: seq<Path>)
    ensures [x] + s <= [x] + t <==> s <= t
  {
    if [x] + s <= [x] + t {
      assert s == ([x] + s)[1..] && t == ([x] + t)[1..];
    }
    if s <= t { assert t == s + t[|s|..] && [x] + t == [x] + s + t[|s|..]; }
  }

  lemma {:induction false} SomePart(a: Path, part: Path)
    requires a != [] && (part == [] ==> a[0] != '/')
    ensures Split(a, part) != []
  {
    if a[0] != '/' { FirstPart(a[1..], part + [a[0]]); }
  }

  /** Different next characters end in different components. */
  lemma Differ(a: Path, b: Path, part: Path)
    requires a != [] && b != [] && a[0] != b[0] && (part == [] ==> a[0] != '/')
    ensures !(Split(a, part) <= Split(b, part) && (part == [] ==> b[0] != '/'))
  {
    SomePart(a, part);
    if a[0] != '/' {
      FirstPart(a[1..], part + [a[0]]);
      assert Split(a, part)[0][|part|] == a[0];
    }
    if b[0] != '/' {
      FirstPart(b[1..], part + [b[0]]);
      assert Split(b, part)[0][|part|] == b[0];
    }
  }

  /** A mount covers a path exactly when its components start those of the path and no doubled slash comes
      before their end. */
  lemma CoversIff(k: Path, path: Path)
    requires PlainKey(k) && Absolute(path)
    ensures Covers(k, path) <==> Components(k) <= Components(path) && Tidy(path + "/", |k|)
  {
    hide Split, Covers, Tidy;
    var q := path + "/";
    SplitEnd(path, []);
    CoversPrefix(k, path);
    Lead(k);
    Lead(q);
    TidyTail(k, |k| - 1);
    TidyTail(q, |k| - 1);
    assert k <= q <==> k[1..] <= q[1..] by {
      if k[1..] <= q[1..] { assert k == "/" + k[1..] && q == "/" + q[1..]; }
    }
    PrefixIff(k[1..], q[1..], []);
  }

  lemma Lead(s: Path)
    requires Absolute(s)
    ensures Components(s) == Split(s[1..], [])
  {
  }

  lemma CoversPrefix(k: Path, path: Path)
    requires IsKey(k) && Absolute(path)
    ensures Covers(k, path) <==> k <= path + "/"
  {
    KeyStem(k);
    assert k == k[..|k| - 1] + "/";
    if k <= path + "/" && |k| <= |path| { assert k == (path + "/")[..|k|] == path[..|k|]; }
    if k <= path { assert path + "/" == k + (path[|k|..] + "/"); }
    if k <= path + "/" && |k| == |path| + 1 { assert k == path + "/"; }
  }

  /** Of two plain mounts, the one with fewer components has the shorter path. */
  lemma FewerShorter(o: Path, k: Path)
    requires PlainKey(o) && PlainKey(k) && Components(o) <= Components(k)
    ensures |o| <= |k| && (|o| == |k| ==> o == k)
  {
    hide Split;
    if |k| == 1 {
      assert k == "/";
      assert k[1..] == "";
      Lead(k);
      NoParts();
      Lead(o);
      if |o| > 1 { SomePart(o[1..], []); }
    } else {
      var stem := k[..|k| - 1];
      assert k == stem + "/";
      SplitEnd(stem, []);
      assert Tidy(stem + "/", |o|);
      CoversIff(o, stem);
      CoversIff(k, stem);
      CoversPrefix(o, stem);
      if |o| == |k| { SameLengthApart(o, k, stem); }
    }
  }

  /** The mount with the most components among those that start the path. */
  ghost predicate Deepest(m: map<Path, Node>, path: Path, k: Path) {
    && k in m && Components(k) <= Components(path)
    && forall o :: o in m && Components(o) <= Components(path) ==> |Components(o)| <= |Components(k)|
  }

  ghost predicate PlainKeys(m: map<Path, Node>) { forall k :: k in m ==> PlainKey(k) }

  /** Resolution starts at the deepest mount, by components, exactly when the path has no doubled slash before
      the end of that mount. */
  lemma DeepestIff(t: seq<Entry>, m: map<Path, Node>, path: Path, k: Path)
    requires Ok(t) && Means(t, m) && PlainKeys(m) && Absolute(path) && Deepest(m, path, k)
    ensures Find(t, path, 0) == Some(Entry(k, m[k])) <==> Tidy(path + "/", |k|)
  {
    hide Covers, Split, PlainKey, Tidy, Find, Ok, Means;
    FindIsBest(t, m, path);
    assert PlainKey(k);
    CoversIff(k, path);
    if Tidy(path + "/", |k|) {
      forall o | o in m && o != k && Covers(o, path) ensures |o| < |k| {
        assert PlainKey(o);
        CoversIff(o, path);
        assert Components(o) <= Components(k);
        FewerShorter(o, k);
      }
      BestUnique(m, path, k, Find(t, path, 0));
    }
  }

  lemma BestUnique(m: map<Path, Node>, path: Path, k: Path, r: Option<Entry>)
    requires Best(m, path, k)
    requires match r
             case None => forall o :: o in m ==> !Covers(o, path)
             case Some(e) => Best(m, path, e.path) && m[e.path] == e.root
    ensures r == Some(Entry(k, m[k]))
  {
    hide Covers;
  }

  lemma CoversTidy(k: Path, path: Path)
    requires PlainKey(k) && Absolute(path) && Tidy(path, |path|)
    ensures Covers(k, path) <==> Components(k) <= Components(path)
  {
    hide Split;
    CoversIff(k, path);
    if path[|path| - 1] != '/' || |path| == 1 {
      if |path| == 1 && Components(k) <= Components(path) { assert path == "/"; Root(k); }
    } else {
      var short := path[..|path| - 1];
      assert path == short + "/";
      SplitEnd(short, []);
      CoversIff(k, short);
      CoversPrefix(k, short);
      CoversPrefix(k, path);
      if Components(k) <= Components(path) { assert k <= path; assert path + "/" == k + (path[|k|..] + "/"); }
    }
  }

  lemma Root(k: Path)
    requires PlainKey(k) && Components(k) <= Components("/")
    ensures k == "/"
  {
    hide Split;
    assert IsKey("/") && Absolute("/") && Tidy("/", 1);
    FewerShorter(k, "/");
  }

  /** Without doubled slashes resolution depends on the components only. */
  lemma SameComponents(t: seq<Entry>, m: map<Path, Node>, child: (Node, Path) -> Option<Node>, p: Path, q: Path)
    requires Ok(t) && Means(t, m) && PlainKeys(m) && Components(p) == Components(q)
    requires Absolute(p) && Tidy(p, |p|) && Absolute(q) && Tidy(q, |q|)
    ensures Resolve(t, child, p) == Resolve(t, child, q)
  {
    hide Covers, Split, PlainKey, Tidy, Find, Ok, Means, Components, Remainder;
    FindIsBest(t, m, p);
    FindIsBest(t, m, q);
    forall k | k in m ensures Covers(k, p) == Covers(k, q) {
      assert PlainKey(k);
      CoversTidy(k, p);
      CoversTidy(k, q);
    }
    if Find(t, p, 0).Some? {
      var e := Find(t, p, 0).value;
      BestUnique(m, q, e.path, Find(t, q, 0));
      ResolveMeans(t, m, child, p, e.path);
      ResolveMeans(t, m, child, q, e.path);
    }
  }

  /** With "/" and "/dev" mounted, "/dev/x" is looked up below the second and "//dev/x", of the same components,
      below the first. */
  lemma DoubledSlash(t: seq<Entry>, m: map<Path, Node>, p: Path, q: Path)
    requires t == [Entry("/dev/", 1), Entry("/", 0)] && m == map["/dev/" := 1, "/" := 0]
    requires p == "/dev/x" && q == "//dev/x"
    ensures Ok(t) && Means(t, m) && PlainKeys(m) && Components(p) == Components(q)
    ensures Find(t, p, 0) == Some(t[0]) && Find(t, q, 0) == Some(t[1])
  {
    hide Split, TrimEnd, Covers, Tidy;
    var k := "/dev/";
    assert q == "/" + p && q[1..] == p;
    Lead(q);
    DevTidy(k);
    assert p + "/" == k + "x/" && k <= p + "/";
    assert (q + "/")[1] != k[1];
    CoversPrefix(k, p);
    CoversPrefix(k, q);
    CoversPrefix("/", q);
    assert !(k <= q + "/");
  }

  lemma DevTidy(k: Path)
    requires k == "/dev/"
    ensures Tidy(k, |k|) && Tidy("/", 1)
  {
  }

  // ---------------------------------------------------------------- the operations

  class Mounts {
    var table: seq<Entry>
    ghost var m: map<Path, Node>

    ghost predicate Valid()
      reads this
    {
      Ok(table) && Means(table, m)
    }

    constructor ()
      ensures Valid() && m == map[]
    {
      table, m := [], map[];
    }

    method Position(key: Path) returns (r: Option<nat>)
      ensures r.Some? ==> r.value < |table| && table[r.value].path == key
      ensures r.None? ==> forall i :: 0 <= i < |table| ==> table[i].path != key
    {
      var i := 0;
      while i < |table|
        invariant 0 <= i <= |table| && forall j :: 0 <= j < i ==> table[j].path != key
      {
        if table[i].path == key { return Some(i); }
        i := i + 1;
      }
      r := None;
    }

    /** mount: replaces the root of an existing mount, or adds one and sorts the table. */
    method Mount(path: Path, root: Node)
      requires Valid()
      modifies this
      ensures Valid() && m == old(m)[Normalize(path) := root]
    {
      hide IsKey, Normalize;
      var key := Normalize(path);
      var at := Position(key);
      m := m[key := root];
      if at.Some? {
        table := table[at.value := Entry(key, root)];
        Replaced(old(table), table, old(m), key, root, at.value);
      } else {
        table := SortedInsert(table, Entry(key, root));
        Added(old(table), table, old(m), key, root);
      }
    }

    /** umount. */
    method Umount(path: Path) returns (ok: bool)
      requires Valid()
      modifies this
      ensures Valid() && ok == (Normalize(path) in old(m)) && m == old(m) - {Normalize(path)}
    {
      hide IsKey, Normalize;
      var key := Normalize(path);
      var at := Position(key);
      if at.None? {
        assert key !in m;
        assert m - {key} == m;
        return false;
      }
      table := table[..at.value] + table[at.value + 1..];
      m := m - {key};
      Removed(old(table), table, old(m), key, at.value);
      ok := true;
    }

    /** Any run of mounts and unmounts. */
    method Run(ops: seq<Op>)
      requires Valid()
      modifies this
      ensures Valid() && m == After(old(m), ops)
    {
      hide Normalize, Ok, Means;
      var i := 0;
      assert ops[0..] == ops;
      while i < |ops|
        invariant 0 <= i <= |ops| && Valid() && After(m, ops[i..]) == After(old(m), ops)
      {
        assert ops[i..][1..] == ops[i + 1..];
        match ops[i] {
          case DoMount(p, root) => Mount(p, root);
          case DoUmount(p) => var _ := Umount(p);
        }
        i := i + 1;
      }
    }

    /** lookup_path, with the directory lookup of the file systems as a parameter. */
    method LookupPath(child: (Node, Path) -> Option<Node>, path: Path) returns (r: Option<Node>)
      requires Valid()
      ensures r == Resolve(table, child, path) && Resolves(m, child, path, r)
    {
      hide Covers, Remainder, Split, Resolves, Ok, Means;
      ResolveIff(table, m, child, path);
      var i := 0;
      while i < |table| && !Covers(table[i].path, path)
        invariant 0 <= i <= |table| && Find(table, path, i) == Find(table, path, 0)
      {
        i := i + 1;
      }
      if i == |table| { return None; }
      var parts := Components(Remainder(table[i].path, path));
      var node := table[i].root;
      var j := 0;
      assert parts[0..] == parts;
      while j < |parts|
        invariant 0 <= j <= |parts| && Walk(child, node, parts[j..]) == Walk(child, table[i].root, parts)
      {
        assert parts[j..][1..] == parts[j + 1..];
        var next := child(node, parts[j]);
        if next.None? { return None; }
        node := next.value;
        j := j + 1;
      }
      r := Some(node);
    }
  }

  /** The table with the entry added, longest paths first. Any such order would do. */
  method SortedInsert(t: seq<Entry>, e: Entry) returns (r: seq<Entry>)
    requires forall i, j :: 0 <= i < j < |t| ==> |t[i].path| >= |t[j].path|
    ensures forall i, j :: 0 <= i < j < |r| ==> |r[i].path| >= |r[j].path|
    ensures exists k :: 0 <= k <= |t| && r == t[..k] + [e] + t[k..]
  {
    var k := |t|;
    while k > 0 && |t[k - 1].path| < |e.path|
      invariant 0 <= k <= |t| && forall j :: k <= j < |t| ==> |t[j].path| < |e.path|
    {
      k := k - 1;
    }
    r := t[..k] + [e] + t[k..];
  }

  lemma Replaced(t: seq<Entry>, r: seq<Entry>, m: map<Path, Node>, key: Path, root: Node, at: nat)
    requires Ok(t) && Means(t, m) && at < |t| && t[at].path == key && r == t[at := Entry(key, root)]
    ensures Ok(r) && Means(r, m[key := root])
  {
    hide IsKey;
    ReplacedMeans(t, r, m, key, root, at);
  }

  lemma ReplacedMeans(t: seq<Entry>, r: seq<Entry>, m: map<Path, Node>, key: Path, root: Node, at: nat)
    requires Means(t, m) && at < |t| && t[at].path == key && r == t[at := Entry(key, root)]
    requires forall i :: 0 <= i < |t| && i != at ==> t[i].path != key
    ensures Means(r, m[key := root])
  {
    var m2 := m[key := root];
    assert r[at] == Entry(key, root);
    forall k | k in m2 ensures Entry(k, m2[k]) in r {
      if k != key {
        var i :| 0 <= i < |t| && t[i] == Entry(k, m[k]);
        assert r[i] == t[i];
      }
    }
    forall e | e in r ensures e.path in m2 && m2[e.path] == e.root {
      var i :| 0 <= i < |r| && r[i] == e;
      if i != at { assert t[i] == e && e in t; }
    }
  }

  lemma Added(t: seq<Entry>, r: seq<Entry>, m: map<Path, Node>, key: Path, root: Node)
    requires Ok(t) && Means(t, m) && IsKey(key) && (forall i :: 0 <= i < |t| ==> t[i].path != key)
    requires (forall i, j :: 0 <= i < j < |r| ==> |r[i].path| >= |r[j].path|)
             && exists k :: 0 <= k <= |t| && r == t[..k] + [Entry(key, root)] + t[k..]
    ensures Ok(r) && Means(r, m[key := root])
  {
    hide Ok, IsKey, Means;
    var k :| 0 <= k <= |t| && r == t[..k] + [Entry(key, root)] + t[k..];
    InsertOk(t, r, Entry(key, root), k);
    InsertMembers(t, r, Entry(key, root), k);
    MeansMore(t, r, m, key, root);
  }

  lemma InsertMembers(t: seq<Entry>, r: seq<Entry>, e: Entry, k: nat)
    requires k <= |t| && r == t[..k] + [e] + t[k..]
    ensures forall x :: x in r <==> x in t || x == e
  {
    assert t == t[..k] + t[k..];
  }

  lemma MeansMore(t: seq<Entry>, r: seq<Entry>, m: map<Path, Node>, key: Path, root: Node)
    requires Means(t, m) && (forall e :: e in r <==> e in t || e == Entry(key, root)) && forall i :: 0 <= i < |t| ==>
             t[i].path != key
    ensures Means(r, m[key := root])
  {
    var m2 := m[key := root];
    forall e | e in r ensures e.path in m2 && m2[e.path] == e.root {
      if e != Entry(key, root) { assert e in t && e.path != key; }
    }
    forall k | k in m2 ensures Entry(k, m2[k]) in r {
      if k != key { assert Entry(k, m[k]) in t; }
    }
  }

  lemma InsertOk(t: seq<Entry>, r: seq<Entry>, e: Entry, k: nat)
    requires Ok(t) && IsKey(e.path) && k <= |t| && r == t[..k] + [e] + t[k..]
             && (forall i :: 0 <= i < |t| ==> t[i].path != e.path)
    requires forall i, j :: 0 <= i < j < |r| ==> |r[i].path| >= |r[j].path|
    ensures Ok(r)
  {
    hide IsKey;
    forall i | 0 <= i < |r| ensures IsKey(r[i].path) {
      if i < k { assert r[i] == t[i]; } else if i > k { assert r[i] == t[i - 1]; }
    }
    forall i, j | 0 <= i < j < |r| ensures r[i].path != r[j].path {
      assert r[i] == if i < k then t[i] else if i == k then e else t[i - 1];
      assert r[j] == if j < k then t[j] else if j == k then e else t[j - 1];
    }
  }

  lemma Removed(t: seq<Entry>, r: seq<Entry>, m: map<Path, Node>, key: Path, at: nat)
    requires Ok(t) && Means(t, m) && at < |t| && t[at].path == key && r == t[..at] + t[at + 1..]
    ensures Ok(r) && Means(r, m - {key})
  {
    hide Ok, IsKey;
    RemoveOk(t, r, at);
    assert t == t[..at] + [t[at]] + t[at + 1..];
    assert forall e :: e in t <==> e in r || e == t[at];
    forall e | e in r ensures e.path != key { OnlyOnce(t, r, at, e); }
  }

  lemma RemoveOk(t: seq<Entry>, r: seq<Entry>, at: nat)
    requires Ok(t) && at < |t| && r == t[..at] + t[at + 1..]
    ensures Ok(r)
  {
    hide IsKey;
    forall i | 0 <= i < |r| ensures IsKey(r[i].path) {
      assert r[i] == if i < at then t[i] else t[i + 1];
    }
    forall i, j | 0 <= i < j < |r| ensures r[i].path != r[j].path && |r[i].path| >= |r[j].path| {
      assert r[i] == if i < at then t[i] else t[i + 1];
      assert r[j] == if j < at then t[j] else t[j + 1];
    }
  }

  lemma OnlyOnce(t: seq<Entry>, r: seq<Entry>, at: nat, e: Entry)
    requires Ok(t) && at < |t| && r == t[..at] + t[at + 1..] && e in r
    ensures e.path != t[at].path
  {
    hide IsKey;
    var i :| 0 <= i < |r| && r[i] == e;
    assert e == if i < at then t[i] else t[i + 1];
  }

  // ---------------------------------------------------------------- runs

  datatype Op = DoMount(path: Path, root: Node) | DoUmount(path: Path)

  /** The mounts a sequence of operations leads to. */
  function After(m: map<Path, Node>, ops: seq<Op>): map<Path, Node>
    decreases |ops|
  {
    if ops == [] then m
    else
      match ops[0]
      case DoMount(p, root) => After(m[Normalize(p) := root], ops[1..])
      case DoUmount(p) => After(m - {Normalize(p)}, ops[1..])
  }

  /** Mounting at two different points commutes, wherever in a run it happens: the tables of both runs resolve every
      path alike. */
  lemma MountsCommute(m: map<Path, Node>, p: Path, r: Node, q: Path, s: Node, ops: seq<Op>,
                      t: seq<Entry>, u: seq<Entry>, child: (Node, Path) -> Option<Node>, path: Path)
    requires Normalize(p) != Normalize(q)
    requires Ok(t) && Means(t, After(m, [DoMount(p, r), DoMount(q, s)] + ops))
    requires Ok(u) && Means(u, After(m, [DoMount(q, s), DoMount(p, r)] + ops))
    ensures Resolve(t, child, path) == Resolve(u, child, path)
  {
    hide Normalize, Ok, Means, Find;
    var a, b := DoMount(p, r), DoMount(q, s);
    assert ([a, b] + ops)[1..] == [b] + ops && ([b] + ops)[1..] == ops;
    assert ([b, a] + ops)[1..] == [a] + ops && ([a] + ops)[1..] == ops;
    assert m[Normalize(p) := r][Normalize(q) := s] == m[Normalize(q) := s][Normalize(p) := r];
    OrderIrrelevant(t, u, After(m, [a, b] + ops), path);
  }

  /** Unmounting what was freshly mounted restores every resolution. */
  lemma UmountRestores(t: seq<Entry>, u: seq<Entry>, m: map<Path, Node>, p: Path, root: Node,
      child: (Node, Path) -> Option<Node>, path: Path)
    requires Ok(t) && Means(t, m) && Normalize(p) !in m
    requires Ok(u) && Means(u, After(m, [DoMount(p, root), DoUmount(p)]))
    ensures Resolve(u, child, path) == Resolve(t, child, path)
  {
    hide Normalize, Find, Covers, IsKey;
    var a, b := DoMount(p, root), DoUmount(p);
    assert [a, b][1..] == [b] && [b][1..] == [];
    assert After(m, [a, b]) == After(m[Normalize(p) := root], [b]) == After(m[Normalize(p) := root] - {Normalize(p)},
           []);
    assert m[Normalize(p) := root] - {Normalize(p)} == m;
    OrderIrrelevant(t, u, m, path);
  }
}

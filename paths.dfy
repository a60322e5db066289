/**
 * Where a downloaded file is staged (rsub.py:47-52): pathlib paths, the
 * `/` join, `.parent`, `os.path.basename` and the staged-path derivation from
 * the `real-path` and `display-name` headers.
 */
module Paths {
  import opened Errors
  import opened Bytes

  const SLASH: byte := '/'

  /**
   * A POSIX pathlib path: whether it is absolute, and its parts between
   * slashes. pathlib drops empty parts and "." parts when it builds a path,
   * and keeps ".." as written (it never resolves it).
   */
  datatype Path = Path(absolute: bool, parts: seq<Bytes>)

  predicate IsComponent(c: Bytes)
  {
    c != [] && c != "." && SLASH !in c
  }

  predicate WellFormed(p: Path)
  {
    forall i :: 0 <= i < |p.parts| ==> IsComponent(p.parts[i])
  }

  /** Pieces joined back together with a slash between each two. */
  function Rejoin(segs: seq<Bytes>): Bytes
    requires |segs| > 0
  {
    if |segs| == 1 then segs[0] else segs[0] + [SLASH] + Rejoin(segs[1..])
  }

  /** The pieces of `s` between slashes, as `s.split("/")` gives them. */
  function Segments(s: Bytes): (r: seq<Bytes>)
    ensures |r| > 0
    ensures forall i :: 0 <= i < |r| ==> SLASH !in r[i]
    ensures Rejoin(r) == s
    decreases |s|
  {
    match SplitFirst(s, SLASH)
    case None => [s]
    case Some((head, tail)) =>
      var rest := Segments(tail);
      assert ([head] + rest)[1..] == rest;
      [head] + rest
  }

  /** The segments that pathlib keeps as parts, in their order. */
  function Components(segs: seq<Bytes>): (r: seq<Bytes>)
    requires forall i :: 0 <= i < |segs| ==> SLASH !in segs[i]
    ensures forall i :: 0 <= i < |r| ==> IsComponent(r[i])
    ensures |r| <= |segs|
  {
    if segs == [] then []
    else (if IsComponent(segs[0]) then [segs[0]] else []) + Components(segs[1..])
  }

  /** `pathlib.Path(s)`. */
  function ParsePath(s: Bytes): (p: Path)
    ensures WellFormed(p)
    ensures p.absolute <==> |s| > 0 && s[0] == SLASH
  {
    Path(|s| > 0 && s[0] == SLASH, Components(Segments(s)))
  }

  /** `p / q`: an absolute right-hand side replaces the left-hand side. */
  function Join(p: Path, q: Path): (r: Path)
    ensures r.absolute <==> p.absolute || q.absolute
    ensures |r.parts| == if q.absolute then |q.parts| else |p.parts| + |q.parts|
  {
    if q.absolute then q else Path(p.absolute, p.parts + q.parts)
  }

  /** `p.parent`: the last part removed; the root and "." are their own parents. */
  function Parent(p: Path): (r: Path)
    ensures r.absolute == p.absolute
    ensures |r.parts| == if p.parts == [] then 0 else |p.parts| - 1
  {
    if p.parts == [] then p else Path(p.absolute, p.parts[..|p.parts| - 1])
  }

  /** `(p / q) / r == p / (q / r)`. */
  lemma JoinAssociative(p: Path, q: Path, r: Path)
    ensures Join(Join(p, q), r) == Join(p, Join(q, r))
  {
    if !q.absolute && !r.absolute {
      assert (p.parts + q.parts) + r.parts == p.parts + (q.parts + r.parts);
    }
  }

  /** The parent of a path joined with one component is that path. */
  lemma ParentOfJoin(p: Path, c: Bytes)
    requires IsComponent(c)
    ensures Parent(Join(p, ParsePath(c))) == p
  {
    PlainPath(c);
    assert (p.parts + [c])[..|p.parts|] == p.parts;
  }

  /** `os.path.basename(s)`: everything after the last slash. */
  function Basename(s: Bytes): (r: Bytes)
    ensures |r| <= |s| && r == s[|s| - |r|..]
    ensures SLASH !in r
    ensures |r| < |s| ==> s[|s| - |r| - 1] == SLASH
  {
    if s == [] || s[|s| - 1] == SLASH then []
    else Basename(s[..|s| - 1]) + [s[|s| - 1]]
  }

  /** The staging directory `local_dir` and the staged file `local_path` of a session. */
  datatype Staging = Staging(dir: Path, file: Path)

  /**
   * rsub.py:47-52: `session_dir / remote / Path(real_path.lstrip("/")).parent`
   * and that directory `/ basename(name)`, where `remote, name` split the
   * `display-name` header at its first ':'. The lookups fail in the order the
   * source makes them.
   */
  function StagedPaths(root: Path, env: map<Bytes, Bytes>): (r: Result<Staging>)
    ensures "real-path" !in env ==> r == Err(MissingKey("real-path"))
    ensures "real-path" in env && "display-name" !in env ==> r == Err(MissingKey("display-name"))
    ensures "real-path" in env && "display-name" in env ==>
      (r == Err(Unpack) <==> ':' !in env["display-name"]) && (r.Ok? <==> ':' in env["display-name"])
  {
    if "real-path" !in env then Err(MissingKey("real-path"))
    else
      var realDir := Parent(ParsePath(LStrip(env["real-path"], SLASH)));
      if "display-name" !in env then Err(MissingKey("display-name"))
      else match SplitFirst(env["display-name"], ':')
        case None => Err(Unpack)
        case Some((remote, name)) =>
          var dir := Join(Join(root, ParsePath(remote)), realDir);
          Ok(Staging(dir, Join(dir, ParsePath(Basename(name)))))
  }

  lemma {:induction false} SegmentsOf(head: Bytes, tail: Bytes)
    requires SLASH !in head
    ensures Segments(head + [SLASH] + tail) == [head] + Segments(tail)
  {
    SplitFirstOf(head, SLASH, tail);
  }

  /** Slash-free pieces are the segments of their rejoined text: `Segments` splits uniquely. */
  lemma {:induction false} SegmentsOfRejoin(segs: seq<Bytes>)
    requires |segs| > 0 && forall i :: 0 <= i < |segs| ==> SLASH !in segs[i]
    ensures Segments(Rejoin(segs)) == segs
  {
    if |segs| == 1 {
      assert SplitFirst(segs[0], SLASH) == None;
    } else {
      SegmentsOf(segs[0], Rejoin(segs[1..]));
      SegmentsOfRejoin(segs[1..]);
      assert [segs[0]] + segs[1..] == segs;
    }
  }

  /**
   * pathlib's parts of a path written as slash-separated pieces are those
   * pieces, in order, without the empty ones and the "." ones.
   */
  lemma ParsePathParts(segs: seq<Bytes>)
    requires |segs| > 0 && forall i :: 0 <= i < |segs| ==> SLASH !in segs[i]
    ensures ParsePath(Rejoin(segs)).parts == Components(segs)
  {
    SegmentsOfRejoin(segs);
  }

  lemma {:induction false} BasenameOf(dir: Bytes, base: Bytes)
    requires SLASH !in base
    ensures Basename(dir + [SLASH] + base) == base
  {
    if base != [] {
      var init := base[..|base| - 1];
      assert (dir + [SLASH] + base)[..|dir + [SLASH] + base| - 1] == dir + [SLASH] + init;
      BasenameOf(dir, init);
      assert init + [base[|base| - 1]] == base;
    }
  }

  /** A single plain component is a relative path of one part. */
  lemma PlainPath(c: Bytes)
    requires IsComponent(c)
    ensures ParsePath(c) == Path(false, [c])
  {
    assert Segments(c) == [c];
    assert Components([c]) == [c] + Components([]);
  }

  lemma {:induction false} ComponentsAppend(a: seq<Bytes>, b: seq<Bytes>)
    requires forall i :: 0 <= i < |a| ==> SLASH !in a[i]
    requires forall i :: 0 <= i < |b| ==> SLASH !in b[i]
    ensures Components(a + b) == Components(a) + Components(b)
  {
    if a == [] {
      assert a + b == b;
    } else {
      assert (a + b)[0] == a[0];
      assert (a + b)[1..] == a[1..] + b;
      ComponentsAppend(a[1..], b);
    }
  }

  /** One piece is kept exactly when it is a component. */
  lemma ComponentsOne(c: Bytes)
    requires SLASH !in c
    ensures Components([c]) == if IsComponent(c) then [c] else []
  {
    assert [c][1..] == [];
  }

  /** The parts kept are exactly the pieces that are components. */
  lemma {:induction false} ComponentsMembers(segs: seq<Bytes>, c: Bytes)
    requires forall i :: 0 <= i < |segs| ==> SLASH !in segs[i]
    ensures c in Components(segs) <==> c in segs && IsComponent(c)
  {
    if segs != [] {
      ComponentsMembers(segs[1..], c);
      assert c in segs <==> c == segs[0] || c in segs[1..];
    }
  }

  /** The parent keeps every part but the last; the right-hand side of a join ends the result. */
  lemma ParentJoinParts(p: Path, q: Path)
    ensures Parent(p).parts == p.parts[..|Parent(p).parts|]
    ensures Join(p, q).parts[|Join(p, q).parts| - |q.parts|..] == q.parts
  {
    if !q.absolute {
      assert (p.parts + q.parts)[|p.parts|..] == q.parts;
    }
  }

  /** Joining and taking the parent keep a path well-formed. */
  lemma WellFormedJoinParent(p: Path, q: Path)
    requires WellFormed(p) && WellFormed(q)
    ensures WellFormed(Join(p, q)) && WellFormed(Parent(p))
  {
    if !q.absolute {
      var j := p.parts + q.parts;
      assert forall i :: 0 <= i < |j| ==> j[i] == if i < |p.parts| then p.parts[i] else q.parts[i - |p.parts|];
    }
  }

  /** Leading slashes only make a path absolute: its parts stay the same. */
  lemma {:induction false} LStripSlashParts(s: Bytes)
    ensures ParsePath(LStrip(s, SLASH)) == Path(false, ParsePath(s).parts)
    decreases |s|
  {
    if s != [] && s[0] == SLASH {
      assert s == [] + [SLASH] + s[1..];
      SegmentsOf([], s[1..]);
      LStripSlashParts(s[1..]);
      assert Segments(s)[1..] == Segments(s[1..]);
    }
  }

  /**
   * For a plain host label and a file name with a plain basename, the staged
   * file is root/remote/<directory parts of real-path>/<basename of name>.
   */
  lemma StagedPathShape(root: Path, env: map<Bytes, Bytes>, remote: Bytes, name: Bytes)
    requires "real-path" in env && "display-name" in env
    requires env["display-name"] == remote + [':'] + name && ':' !in remote
    requires IsComponent(remote) && IsComponent(Basename(name))
    ensures var realParts := ParsePath(env["real-path"]).parts;
      var dirParts := if realParts == [] then [] else realParts[..|realParts| - 1];
      StagedPaths(root, env) == Ok(Staging(
        Path(root.absolute, root.parts + [remote] + dirParts),
        Path(root.absolute, root.parts + [remote] + dirParts + [Basename(name)])))
  {
    SplitFirstOf(remote, ':', name);
    StagedPathsOf(root, env, remote, name);
    ShapeOf(root, remote, Basename(name), env["real-path"]);
  }

  lemma ShapeOf(root: Path, remote: Bytes, base: Bytes, realPath: Bytes)
    requires IsComponent(remote) && IsComponent(base)
    ensures var realParts := ParsePath(realPath).parts;
      var dirParts := if realParts == [] then [] else realParts[..|realParts| - 1];
      var dir := Join(Join(root, ParsePath(remote)), Parent(ParsePath(LStrip(realPath, SLASH))));
      && dir == Path(root.absolute, root.parts + [remote] + dirParts)
      && Join(dir, ParsePath(base)) == Path(root.absolute, root.parts + [remote] + dirParts + [base])
  {
    LStripSlashParts(realPath);
    PlainPath(remote);
    PlainPath(base);
    var realParts := ParsePath(realPath).parts;
    var dirParts := if realParts == [] then [] else realParts[..|realParts| - 1];
    assert Parent(ParsePath(LStrip(realPath, SLASH))) == Path(false, dirParts);
  }

  /**
   * Unless the host label is itself an absolute path, the staged file lies
   * under the staging root (lexically: ".." parts are kept, not resolved).
   */
  lemma StagedPathUnderRoot(root: Path, env: map<Bytes, Bytes>, remote: Bytes, name: Bytes)
    requires "real-path" in env && "display-name" in env
    requires SplitFirst(env["display-name"], ':') == Some((remote, name))
    requires remote == [] || remote[0] != SLASH
    ensures StagedPaths(root, env).Ok?
    ensures var st := StagedPaths(root, env).value;
      && st.dir.absolute == st.file.absolute == root.absolute
      && |root.parts| <= |st.dir.parts| <= |st.file.parts|
      && st.dir.parts[..|root.parts|] == root.parts
      && st.file.parts[..|st.dir.parts|] == st.dir.parts
  {
    StagedPathsOf(root, env, remote, name);
    LStripSlashParts(env["real-path"]);
    var realDir := Parent(ParsePath(LStrip(env["real-path"], SLASH)));
    var host := ParsePath(remote);
    var base := ParsePath(Basename(name));
    assert !host.absolute && !realDir.absolute && !base.absolute;
    JoinedUnderRoot(root, host, realDir, base);
  }

  /** Joining three relative paths onto the root keeps each left-hand side as a prefix. */
  lemma JoinedUnderRoot(root: Path, host: Path, realDir: Path, base: Path)
    requires !host.absolute && !realDir.absolute && !base.absolute
    ensures var dir := Join(Join(root, host), realDir); var file := Join(dir, base);
      && dir.absolute == file.absolute == root.absolute
      && |root.parts| <= |dir.parts| <= |file.parts|
      && dir.parts[..|root.parts|] == root.parts
      && file.parts[..|dir.parts|] == dir.parts
  {
    var inner := Join(root, host);
    JoinRelative(root, host);
    var dir := Join(inner, realDir);
    JoinRelative(inner, realDir);
    assert dir.parts[..|root.parts|] == dir.parts[..|inner.parts|][..|root.parts|];
    JoinRelative(dir, base);
  }

  /** Joining a relative path keeps the left-hand side as a prefix. */
  lemma JoinRelative(p: Path, q: Path)
    requires !q.absolute
    ensures var j := Join(p, q);
      j.absolute == p.absolute && |p.parts| <= |j.parts| && j.parts[..|p.parts|] == p.parts
  {
    assert (p.parts + q.parts)[..|p.parts|] == p.parts;
  }

  lemma AbsolutePathOf(c: Bytes)
    requires IsComponent(c)
    ensures ParsePath([SLASH] + c) == Path(true, [c])
  {
    assert [SLASH] + c == [] + [SLASH] + c;
    SegmentsOf([], c);
    PlainPath(c);
    ComponentsAppend([[]], [c]);
  }

  /** `StagedPaths` once the `display-name` header is known to split at its first ':'. */
  lemma StagedPathsOf(root: Path, env: map<Bytes, Bytes>, remote: Bytes, name: Bytes)
    requires "real-path" in env && "display-name" in env
    requires SplitFirst(env["display-name"], ':') == Some((remote, name))
    ensures var dir := Join(Join(root, ParsePath(remote)), Parent(ParsePath(LStrip(env["real-path"], SLASH))));
      StagedPaths(root, env) == Ok(Staging(dir, Join(dir, ParsePath(Basename(name)))))
  {
  }

  /**
   * A `display-name` whose basename is empty or "." (such as "h:" or "h:/a/")
   * stages the file at the directory itself, where `rename` cannot put it.
   */
  lemma EmptyBasenameStagesAtDir(root: Path, env: map<Bytes, Bytes>, remote: Bytes, name: Bytes)
    requires "real-path" in env && "display-name" in env
    requires SplitFirst(env["display-name"], ':') == Some((remote, name))
    requires Basename(name) == [] || Basename(name) == "."
    ensures StagedPaths(root, env).Ok? && StagedPaths(root, env).value.file == StagedPaths(root, env).value.dir
  {
    StagedPathsOf(root, env, remote, name);
    EmptyParse(Basename(name));
    var dir := Join(Join(root, ParsePath(remote)), Parent(ParsePath(LStrip(env["real-path"], SLASH))));
    JoinEmpty(dir);
  }

  lemma EmptyParse(base: Bytes)
    requires base == [] || base == "."
    ensures ParsePath(base) == Path(false, [])
  {
    if base == [] {
      assert SplitFirst(base, SLASH) == None;
    } else {
      assert SplitFirst(base, SLASH) == None by {
        assert SLASH !in base;
      }
    }
  }

  lemma JoinEmpty(p: Path)
    ensures Join(p, Path(false, [])) == p
  {
    assert p.parts + [] == p.parts;
  }

  /** An absolute host label replaces the staging root: "/etc:x/passwd" stages at /etc/passwd. */
  lemma AbsoluteRemoteEscapesRoot(root: Path, env: map<Bytes, Bytes>, host: Bytes, dir: Bytes, file: Bytes)
    requires IsComponent(host) && IsComponent(file) && ':' !in host && SLASH !in dir
    requires "real-path" in env && env["real-path"] == [SLASH] + file
    requires "display-name" in env && env["display-name"] == [SLASH] + host + [':'] + dir + [SLASH] + file
    ensures StagedPaths(root, env) == Ok(Staging(Path(true, [host]), Path(true, [host, file])))
  {
    var remote := [SLASH] + host;
    var name := dir + [SLASH] + file;
    DisplayNameSplit(env["display-name"], remote, name, host, dir, file);
    StagedPathsOf(root, env, remote, name);
    AbsoluteParts(root, env["real-path"], remote, name, host, dir, file);
  }

  lemma DisplayNameSplit(d: Bytes, remote: Bytes, name: Bytes, host: Bytes, dir: Bytes, file: Bytes)
    requires ':' !in host && remote == [SLASH] + host && name == dir + [SLASH] + file
    requires d == [SLASH] + host + [':'] + dir + [SLASH] + file
    ensures SplitFirst(d, ':') == Some((remote, name))
  {
    assert d == remote + [':'] + name;
    SplitFirstOf(remote, ':', name);
  }

  /** The paths an absolute host label and a one-part real path give. */
  lemma AbsoluteParts(root: Path, realPath: Bytes, remote: Bytes, name: Bytes, host: Bytes, dir: Bytes, file: Bytes)
    requires IsComponent(host) && IsComponent(file) && SLASH !in dir
    requires realPath == [SLASH] + file && remote == [SLASH] + host && name == dir + [SLASH] + file
    ensures var staged := Join(Join(root, ParsePath(remote)), Parent(ParsePath(LStrip(realPath, SLASH))));
      staged == Path(true, [host]) && Join(staged, ParsePath(Basename(name))) == Path(true, [host, file])
  {
    AbsolutePathOf(host);
    var hostPath := ParsePath(remote);
    AbsolutePathOf(file);
    LStripSlashParts(realPath);
    var realDir := Parent(ParsePath(LStrip(realPath, SLASH)));
    assert realDir == Path(false, []);
    BasenameOf(dir, file);
    PlainPath(file);
    var base := ParsePath(Basename(name));
    JoinAbsolute(root, hostPath, realDir, base, host, file);
  }

  lemma JoinAbsolute(root: Path, hostPath: Path, realDir: Path, base: Path, host: Bytes, file: Bytes)
    requires hostPath == Path(true, [host]) && realDir == Path(false, []) && base == Path(false, [file])
    ensures var staged := Join(Join(root, hostPath), realDir);
      staged == Path(true, [host]) && Join(staged, base) == Path(true, [host, file])
  {
    assert [host] + [] == [host] && [host] + [file] == [host, file];
  }

  lemma ComponentsCons(x: Bytes, rest: seq<Bytes>)
    requires SLASH !in x && forall i :: 0 <= i < |rest| ==> SLASH !in rest[i]
    ensures Components([x] + rest) == (if IsComponent(x) then [x] else []) + Components(rest)
  {
    assert ([x] + rest)[1..] == rest;
  }

  /** The parts of an absolute path with three plain components. */
  lemma ThreePartPath(a: Bytes, b: Bytes, c: Bytes)
    requires IsComponent(a) && IsComponent(b) && IsComponent(c)
    ensures ParsePath([SLASH] + a + [SLASH] + b + [SLASH] + c).parts == [a, b, c]
  {
    var t2 := b + [SLASH] + c;
    var t3 := a + [SLASH] + t2;
    var s := [SLASH] + a + [SLASH] + b + [SLASH] + c;
    assert s == [] + [SLASH] + t3;
    assert Segments(c) == [c];
    SegmentsOf(b, c);
    SegmentsOf(a, t2);
    SegmentsOf([], t3);
    assert Segments(s) == [[]] + ([a] + ([b] + [c]));
    ComponentsCons(c, []);
    ComponentsCons(b, [c]);
    ComponentsCons(a, [b] + [c]);
    ComponentsCons([], [a] + ([b] + [c]));
  }

  lemma ThreePartBasename(a: Bytes, b: Bytes, c: Bytes)
    requires SLASH !in c
    ensures Basename([SLASH] + a + [SLASH] + b + [SLASH] + c) == c
  {
    assert [SLASH] + a + [SLASH] + b + [SLASH] + c == ([SLASH] + a + [SLASH] + b) + [SLASH] + c;
    BasenameOf([SLASH] + a + [SLASH] + b, c);
  }

  /**
   * The worked example host1:/a/b/file.txt with real path /a/b/file.txt,
   * for any host label and any three plain components.
   */
  lemma StagedPathExample(root: Path, env: map<Bytes, Bytes>, host: Bytes, a: Bytes, b: Bytes, file: Bytes)
    requires IsComponent(host) && ':' !in host && IsComponent(a) && IsComponent(b) && IsComponent(file)
    requires var realPath := [SLASH] + a + [SLASH] + b + [SLASH] + file;
      && "display-name" in env && env["display-name"] == host + [':'] + realPath
      && "real-path" in env && env["real-path"] == realPath
    ensures StagedPaths(root, env) == Ok(Staging(
        Path(root.absolute, root.parts + [host, a, b]),
        Path(root.absolute, root.parts + [host, a, b, file])))
  {
    var realPath := env["real-path"];
    ThreePartPath(a, b, file);
    ThreePartBasename(a, b, file);
    var realParts := ParsePath(realPath).parts;
    assert realParts[..|realParts| - 1] == [a, b];
    StagedPathShape(root, env, host, realPath);
    PartsAppend(root.parts, host, a, b, file);
  }

  lemma PartsAppend(r: seq<Bytes>, host: Bytes, a: Bytes, b: Bytes, file: Bytes)
    ensures r + [host] + [a, b] == r + [host, a, b]
    ensures r + [host] + [a, b] + [file] == r + [host, a, b, file]
  {
  }

  lemma StagedPathExampleLiteral(root: Path)
    ensures var env := map["display-name" := "host1:/a/b/file.txt", "real-path" := "/a/b/file.txt"];
      StagedPaths(root, env) == Ok(Staging(
        Path(root.absolute, root.parts + ["host1", "a", "b"]),
        Path(root.absolute, root.parts + ["host1", "a", "b", "file.txt"])))
  {
    var env := map["display-name" := "host1:/a/b/file.txt", "real-path" := "/a/b/file.txt"];
    var host: Bytes, a: Bytes, b: Bytes, file: Bytes := "host1", "a", "b", "file.txt";
    ExampleParts(host, a, b, file);
    StagedPathExample(root, env, host, a, b, file);
  }

  lemma ExampleParts(host: Bytes, a: Bytes, b: Bytes, file: Bytes)
    requires host == "host1" && a == "a" && b == "b" && file == "file.txt"
    ensures IsComponent(host) && ':' !in host && IsComponent(a) && IsComponent(b) && IsComponent(file)
    ensures [SLASH] + a + [SLASH] + b + [SLASH] + file == "/a/b/file.txt"
    ensures host + [':'] + "/a/b/file.txt" == "host1:/a/b/file.txt"
  {
  }
}

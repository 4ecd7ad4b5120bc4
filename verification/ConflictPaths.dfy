// crdt_store.cpp, make_conflict_path: where a concurrent remote version is kept.
module ConflictPaths {
  import opened Basics

  // std::string::find_last_of('.')
  function LastDot(s: string): (r: Option<nat>)
    ensures r.None? ==> '.' !in s
    ensures r.Some? ==> r.value < |s| && s[r.value] == '.' && '.' !in s[r.value + 1..]
  {
    if s == "" then None
    else if s[|s| - 1] == '.' then Some(|s| - 1)
    else
      var rest := LastDot(s[..|s| - 1]);
      assert rest.Some? ==> s[rest.value + 1..] == s[..|s| - 1][rest.value + 1..] + [s[|s| - 1]];
      assert s == s[..|s| - 1] + [s[|s| - 1]];
      rest
  }

  const MARK: string := ".conflict-"

  function ConflictPath(path: string, node: string): string {
    match LastDot(path)
    case None => path + MARK + node
    case Some(dot) => path[..dot] + MARK + node + path[dot..]
  }

  predicate DotFree(node: string) {
    '.' !in node
  }

  // The text before and after the last dot is unique.
  lemma LastDotUnique(x: string, t: string, y: string, u: string)
    requires x + "." + t == y + "." + u
    requires DotFree(t) && DotFree(u)
    ensures x == y && t == u
  {
    var s := x + "." + t;
    assert s[|x|] == '.' && s[|y|] == '.';
    if |x| < |y| {
      assert false;
    } else if |y| < |x| {
      assert false;
    }
    assert x == s[..|x|] && y == s[..|y|];
    assert t == s[|x| + 1..] && u == s[|y| + 1..];
  }

  // The two shapes of a conflict path, cut at its last dot.
  lemma ConflictPathShape(path: string, node: string)
    ensures LastDot(path).None? ==> ConflictPath(path, node) == path + "." + ("conflict-" + node)
    ensures LastDot(path).Some? ==>
        var d := LastDot(path).value;
        ConflictPath(path, node) == (path[..d] + "." + ("conflict-" + node)) + "." + path[d + 1..]
  {
    assert MARK == "." + "conflict-";
    match LastDot(path) {
      case None =>
        assert path + MARK + node == path + "." + ("conflict-" + node);
      case Some(d) =>
        assert path[d..] == "." + path[d + 1..];
        assert path[..d] + MARK + node + path[d..] == (path[..d] + "." + ("conflict-" + node)) + "." + path[d + 1..];
    }
  }

  // The mark and the writer go before the extension, or to the end of a path that has none.
  lemma ConflictPathKeepsExtension(stem: string, ext: string, node: string)
    ensures '.' !in ext ==> ConflictPath(stem + "." + ext, node) == stem + ".conflict-" + node + "." + ext
    ensures '.' !in stem ==> ConflictPath(stem, node) == stem + ".conflict-" + node
  {
    if '.' !in ext {
      var path := stem + "." + ext;
      assert path[|stem|] == '.';
      var d := LastDot(path).value;
      assert path == path[..d] + "." + path[d + 1..];
      LastDotUnique(path[..d], path[d + 1..], stem, ext);
      assert path[d..] == "." + ext;
      assert stem + ".conflict-" + node + ("." + ext) == stem + ".conflict-" + node + "." + ext;
    }
  }

  // Forks of different paths, or of one path by different writers, never share a path.
  lemma ConflictPathInjective(p: string, n: string, q: string, m: string)
    requires DotFree(n) && DotFree(m)
    requires ConflictPath(p, n) == ConflictPath(q, m)
    ensures p == q && n == m
  {
    ConflictPathShape(p, n);
    ConflictPathShape(q, m);
    var tn, tm := "conflict-" + n, "conflict-" + m;
    assert DotFree(tn) && DotFree(tm);
    match (LastDot(p), LastDot(q)) {
      case (None, None) =>
        LastDotUnique(p, tn, q, tm);
      case (Some(d), Some(e)) =>
        LastDotUnique(p[..d] + "." + tn, p[d + 1..], q[..e] + "." + tm, q[e + 1..]);
        LastDotUnique(p[..d], tn, q[..e], tm);
        assert p == p[..d] + "." + p[d + 1..];
        assert q == q[..e] + "." + q[e + 1..];
      case (None, Some(e)) =>
        LastDotUnique(p, tn, q[..e] + "." + tm, q[e + 1..]);
      case (Some(d), None) =>
        LastDotUnique(p[..d] + "." + tn, p[d + 1..], q, tm);
    }
    assert n == tn[9..] && m == tm[9..];
  }

  // For one path no restriction on the ids is needed: different writers fork to different paths.
  lemma ConflictPathInjectiveInWriter(p: string, n: string, m: string)
    requires ConflictPath(p, n) == ConflictPath(p, m)
    ensures n == m
  {
    var s := ConflictPath(p, n);
    match LastDot(p) {
      case None =>
        assert n == s[|p| + 10..] && m == s[|p| + 10..];
      case Some(d) =>
        assert |n| == |m|;
        assert n == s[d + 10..d + 10 + |n|] && m == s[d + 10..d + 10 + |n|];
    }
  }

  // A fork never lands on the path it came from.
  lemma ConflictPathLonger(p: string, n: string)
    ensures |ConflictPath(p, n)| == |p| + |MARK| + |n|
    ensures ConflictPath(p, n) != p
  {
  }

  lemma DottedIdSplit(s: string, t: string)
    requires DotFree(t)
    ensures ConflictPath("", s + "." + t) == ConflictPath("." + t, s)
  {
    var q := "." + t;
    assert q[0] == '.';
    var e := LastDot(q).value;
    assert e == 0 by {
      if e > 0 { assert false; }
    }
    assert q[e..] == q && q[..e] == "";
    assert "" + MARK + (s + q) == "" + MARK + s + q;
    assert s + "." + t == s + q;
  }

  // Dot-free ids are needed: every id with a dot shares a conflict path with another path and id.
  lemma DottedIdCollides(n: string)
    requires !DotFree(n)
    ensures exists p, q, m :: (p, n) != (q, m) && ConflictPath(p, n) == ConflictPath(q, m)
  {
    var d := LastDot(n).value;
    DottedIdSplit(n[..d], n[d + 1..]);
    assert n == n[..d] + "." + n[d + 1..];
    assert (n[..0], n) != ("." + n[d + 1..], n[..d]);
  }
}

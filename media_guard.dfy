/** The `/api/media/<path>` handler: the requested path is joined onto the base directory, the
    result is normalised the way POSIX `path.join` does it, and a guard decides whether the
    file may be sent. The base directory is the server's own absolute, normalised directory. */
module MediaGuard {
  import opened Strings

  /** A segment of a normalised absolute path: non-empty, not `.` or `..`, without a slash. */
  predicate Clean(seg: string) {
    seg != "" && seg != "." && seg != ".." && '/' !in seg
  }

  predicate AllClean(segs: seq<string>) {
    forall i :: 0 <= i < |segs| ==> Clean(segs[i])
  }

  /** "/a/b/c" for the segments a, b, c; "" for none. */
  function PathString(segs: seq<string>): string {
    if segs == [] then "" else "/" + segs[0] + PathString(segs[1..])
  }

  /** The text of an absolute path: the root is "/", a trailing slash is kept elsewhere. */
  function Render(segs: seq<string>, trailing: bool): string {
    if segs == [] then "/" else PathString(segs) + (if trailing then "/" else "")
  }

  /** One segment of normalisation: empty and `.` segments vanish, `..` drops the last kept
      segment (and stays at the root when there is none), anything else is kept. */
  function Step(stack: seq<string>, seg: string): seq<string> {
    if seg == "" || seg == "." then stack
    else if seg == ".." then (if stack == [] then [] else stack[..|stack| - 1])
    else stack + [seg]
  }

  /** The kept segments after normalising `segs` on top of `stack`, left to right. */
  function Resolve(stack: seq<string>, segs: seq<string>): seq<string>
    decreases segs
  {
    if segs == [] then stack else Resolve(Step(stack, segs[0]), segs[1..])
  }

  /** `path.normalize` of an absolute path. */
  function Normalize(path: string): string {
    Render(Resolve([], Split(path, '/')), path != [] && Last(path) == '/')
  }

  /** `path.join(BASE_DIR, p)`: an empty `p` contributes nothing, otherwise the two are joined
      with a slash; the result is normalised. */
  function JoinPath(base: seq<string>, p: string): string {
    Normalize(if p == "" then PathString(base) else PathString(base) + "/" + p)
  }

  /** The guard as the handler writes it: `fullPath.startsWith(BASE_DIR)`. */
  predicate AcceptedAsWritten(base: seq<string>, p: string) {
    StartsWith(JoinPath(base, p), PathString(base))
  }

  /** The guard as intended: the full path is the base itself or lies below it. */
  predicate Accepted(base: seq<string>, p: string) {
    Below(JoinPath(base, p), PathString(base))
  }

  datatype MediaResponse = Forbidden(status: nat, error: string) | FileNotFound(status: nat, error: string) | Send(path: string)

  /** The handler as written: 403 when the guard refuses, 404 when no file exists there,
      otherwise the file. Whether a file exists is a parameter. */
  function ServeAsWritten(base: seq<string>, p: string, fileExists: string -> bool): (r: MediaResponse)
    ensures r.Forbidden? <==> !AcceptedAsWritten(base, p)
    ensures r.Forbidden? ==> r.status == 403 && r.error == "Forbidden"
    ensures r.FileNotFound? <==> AcceptedAsWritten(base, p) && !fileExists(JoinPath(base, p))
    ensures r.FileNotFound? ==> r.status == 404 && r.error == "File not found"
    ensures r.Send? ==> r.path == JoinPath(base, p) && fileExists(r.path)
  {
    var full := JoinPath(base, p);
    if !StartsWith(full, PathString(base)) then Forbidden(403, "Forbidden")
    else if !fileExists(full) then FileNotFound(404, "File not found")
    else Send(full)
  }

  /** The handler with the intended guard: a file is sent only from inside the base. */
  function Serve(base: seq<string>, p: string, fileExists: string -> bool): (r: MediaResponse)
    requires base != [] && AllClean(base)
    ensures r.Forbidden? <==> !Accepted(base, p)
    ensures r.Forbidden? ==> r.status == 403 && r.error == "Forbidden"
    ensures r.FileNotFound? <==> Accepted(base, p) && !fileExists(JoinPath(base, p))
    ensures r.FileNotFound? ==> r.status == 404 && r.error == "File not found"
    ensures r.Send? ==> r.path == JoinPath(base, p) && fileExists(r.path)
    ensures r.Send? ==> base <= Resolve(base, Split(p, '/'))
  {
    AcceptedIff(base, p);
    var full := JoinPath(base, p);
    if !Accepted(base, p) then Forbidden(403, "Forbidden")
    else if !fileExists(full) then FileNotFound(404, "File not found")
    else Send(full)
  }

  // ---------------------------------------------------------------------------------------------
  // Normalisation

  lemma {:induction false} ResolveConcat(stack: seq<string>, a: seq<string>, b: seq<string>)
    ensures Resolve(stack, a + b) == Resolve(Resolve(stack, a), b)
    decreases |a|
  {
    if a != [] {
      assert (a + b)[0] == a[0] && (a + b)[1..] == a[1..] + b;
      ResolveConcat(Step(stack, a[0]), a[1..], b);
    } else {
      assert a + b == b;
    }
  }

  /** Clean segments are kept as they are. */
  lemma {:induction false} ResolveClean(stack: seq<string>, segs: seq<string>)
    requires AllClean(segs)
    ensures Resolve(stack, segs) == stack + segs
    decreases |segs|
  {
    if segs != [] {
      ResolveClean(stack + [segs[0]], segs[1..]);
      assert stack + [segs[0]] + segs[1..] == stack + segs;
    }
  }

  /** Normalising slash-free segments keeps only clean ones. */
  lemma {:induction false} ResolveKeepsClean(stack: seq<string>, segs: seq<string>)
    requires AllClean(stack)
    requires forall i :: 0 <= i < |segs| ==> '/' !in segs[i]
    ensures AllClean(Resolve(stack, segs))
    decreases |segs|
  {
    if segs != [] {
      ResolveKeepsClean(Step(stack, segs[0]), segs[1..]);
    }
  }

  lemma SplitCons(x: string, t: string)
    requires '/' !in x
    ensures Split(x + "/" + t, '/') == [x] + Split(t, '/')
  {
    var s := x + "/" + t;
    assert s[|x|] == '/';
    var i := FirstIndex(s, '/');
    assert s[..i] == x && s[i + 1..] == t;
  }

  /** Splitting a base path followed by more text yields the base's segments first. */
  lemma {:induction false} SplitPathString(x: string, segs: seq<string>, t: string)
    requires '/' !in x && AllClean(segs)
    ensures Split(x + PathString(segs) + "/" + t, '/') == [x] + segs + Split(t, '/')
    decreases |segs|
  {
    var whole := x + PathString(segs) + "/" + t;
    if segs == [] {
      SplitPathStringNil(x, segs, t);
    } else {
      var y := segs[0];
      var ps := PathString(segs[1..]);
      var rest := y + ps + "/" + t;
      var tail := Split(t, '/');
      assert whole == x + "/" + rest by {
        assert PathString(segs) == "/" + y + ps;
        Regroup(x, y, ps, t);
      }
      assert Split(rest, '/') == [y] + segs[1..] + tail by {
        SplitPathString(y, segs[1..], t);
      }
      SplitCons(x, rest);
      ConsRegroup(x, segs, tail);
    }
  }

  lemma ConsRegroup<T>(x: T, segs: seq<T>, tail: seq<T>)
    requires segs != []
    ensures [x] + segs + tail == [x] + ([segs[0]] + segs[1..] + tail)
  {
    assert segs == [segs[0]] + segs[1..];
  }

  lemma SplitPathStringNil(x: string, segs: seq<string>, t: string)
    requires '/' !in x && segs == []
    ensures Split(x + PathString(segs) + "/" + t, '/') == [x] + segs + Split(t, '/')
  {
    assert x + PathString(segs) + "/" + t == x + "/" + t;
    SplitCons(x, t);
    assert [x] + segs == [x];
  }

  lemma SplitPathStringEndNil(x: string, segs: seq<string>)
    requires '/' !in x && segs == []
    ensures Split(x + PathString(segs), '/') == [x] + segs
  {
    assert x + PathString(segs) == x;
    assert [x] + segs == [x];
  }

  lemma {:induction false} SplitPathStringEnd(x: string, segs: seq<string>)
    requires '/' !in x && AllClean(segs)
    ensures Split(x + PathString(segs), '/') == [x] + segs
    decreases |segs|
  {
    var whole := x + PathString(segs);
    if segs == [] {
      SplitPathStringEndNil(x, segs);
    } else {
      var y := segs[0];
      var ps := PathString(segs[1..]);
      var rest := y + ps;
      assert whole == x + "/" + rest by {
        assert PathString(segs) == "/" + y + ps;
        RegroupEnd(x, y, ps);
      }
      assert Split(rest, '/') == [y] + segs[1..] by {
        SplitPathStringEnd(y, segs[1..]);
      }
      SplitCons(x, rest);
      assert segs == [y] + segs[1..];
    }
  }

  lemma RegroupEnd(x: string, y: string, p: string)
    ensures x + ("/" + y + p) == x + "/" + (y + p)
  {
  }

  /** The joined path names the base's segments with `p`'s segments resolved on top of them. */
  lemma JoinedSegments(base: seq<string>, p: string)
    requires AllClean(base)
    ensures Resolve([], Split(if p == "" then PathString(base) else PathString(base) + "/" + p, '/'))
      == Resolve(base, Split(p, '/'))
  {
    ResolveClean([], base);
    ResolveConcat([], [""], base);
    assert Resolve([], [""]) == [];
    if p == "" {
      BaseSegments(base);
    } else {
      PathSegments(base, p);
    }
  }

  lemma BaseSegments(base: seq<string>)
    requires AllClean(base) && Resolve([], [""] + base) == base
    ensures Resolve([], Split(PathString(base), '/')) == Resolve(base, Split("", '/'))
  {
    SplitPathStringEnd("", base);
    assert "" + PathString(base) == PathString(base);
    assert Split("", '/') == [""];
    assert Resolve(base, [""]) == base;
  }

  lemma PathSegments(base: seq<string>, p: string)
    requires AllClean(base) && Resolve([], [""] + base) == base
    ensures Resolve([], Split(PathString(base) + "/" + p, '/')) == Resolve(base, Split(p, '/'))
  {
    var q := PathString(base) + "/" + p;
    assert Split(q, '/') == [""] + base + Split(p, '/') by {
      SplitPathString("", base, p);
      assert "" + PathString(base) + "/" + p == q;
    }
    ResolveConcat([], [""] + base, Split(p, '/'));
  }

  // ---------------------------------------------------------------------------------------------
  // Path strings

  lemma {:induction false} PathStringConcat(a: seq<string>, b: seq<string>)
    ensures PathString(a + b) == PathString(a) + PathString(b)
    decreases |a|
  {
    if a != [] {
      assert (a + b)[0] == a[0] && (a + b)[1..] == a[1..] + b;
      PathStringConcat(a[1..], b);
    } else {
      assert a + b == b;
    }
  }

  lemma {:induction false} PathStringShape(segs: seq<string>)
    requires AllClean(segs) && segs != []
    ensures |PathString(segs)| >= 2 && PathString(segs)[0] == '/'
    ensures Last(PathString(segs)) != '/'
    decreases |segs|
  {
    if |segs| > 1 {
      PathStringShape(segs[1..]);
    } else {
      assert PathString(segs) == "/" + segs[0];
    }
  }

  /** Two slash-free segments, each followed by a slash: one such text starts the other only
      when the segments are equal. */
  lemma SlashPrefix(x: string, y: string, xr: string, yr: string)
    requires '/' !in x && '/' !in y && xr != [] && xr[0] == '/' && yr != [] && yr[0] == '/'
    requires StartsWith("/" + y + yr, "/" + x + xr)
    ensures x == y && StartsWith(yr, xr)
  {
    var lhs := "/" + x + xr;
    var rhs := "/" + y + yr;
    assert rhs[..|lhs|] == lhs;
    assert |x| >= |y| by {
      assert rhs[1 + |x|] == lhs[1 + |x|] == '/';
      assert forall k :: 0 <= k < |y| ==> rhs[1 + k] == y[k];
    }
    assert |y| >= |x| by {
      assert lhs[1 + |y|] == rhs[1 + |y|] == '/';
      assert forall k :: 0 <= k < |x| ==> lhs[1 + k] == x[k];
    }
    assert x == y by {
      forall k | 0 <= k < |x| ensures x[k] == y[k] {
        assert lhs[1 + k] == rhs[1 + k];
      }
    }
    assert yr[..|xr|] == xr by {
      forall k | 0 <= k < |xr| ensures yr[k] == xr[k] {
        assert lhs[1 + |x| + k] == rhs[1 + |x| + k];
      }
    }
  }

  /** With slash-free segments, one path string followed by a slash starts another only when
      its segments start the other's. */
  lemma {:induction false} PrefixSegments(xs: seq<string>, ys: seq<string>)
    requires AllClean(xs) && AllClean(ys)
    requires StartsWith(PathString(ys) + "/", PathString(xs) + "/")
    ensures xs <= ys
    decreases |xs|
  {
    if xs != [] {
      var x := xs[0];
      var lhs := PathString(xs) + "/";
      var rhs := PathString(ys) + "/";
      if ys == [] {
        assert false;
      } else {
        var y := ys[0];
        var xr := PathString(xs[1..]) + "/";
        var yr := PathString(ys[1..]) + "/";
        assert lhs == "/" + x + xr && rhs == "/" + y + yr;
        assert xr[0] == '/' by {
          if xs[1..] != [] { PathStringShape(xs[1..]); }
        }
        assert yr[0] == '/' by {
          if ys[1..] != [] { PathStringShape(ys[1..]); }
        }
        SlashPrefix(x, y, xr, yr);
        PrefixSegments(xs[1..], ys[1..]);
      }
    }
  }

  // ---------------------------------------------------------------------------------------------
  // The guards

  /** The guard's test on the text of a normalised path. */
  predicate Below(full: string, b: string) {
    full == b || StartsWith(full, b + "/")
  }

  lemma InsideBelow(base: seq<string>, segs: seq<string>, trailing: bool)
    requires base != [] && AllClean(base) && AllClean(segs) && base <= segs
    ensures Below(Render(segs, trailing), PathString(base))
  {
    var b := PathString(base);
    var rest := segs[|base|..];
    assert segs == base + rest;
    PathStringConcat(base, rest);
    var t := if trailing then "/" else "";
    assert Render(segs, trailing) == b + PathString(rest) + t;
    if rest != [] {
      assert AllClean(rest) by {
        forall k | 0 <= k < |rest| ensures Clean(rest[k]) {
          assert rest[k] == segs[|base| + k];
        }
      }
      PathStringShape(rest);
      SlashAfter(b, PathString(rest), t);
    } else if trailing {
      assert Render(segs, trailing) == b + "/";
    }
  }

  lemma SlashAfter(b: string, r: string, t: string)
    requires r != [] && r[0] == '/'
    ensures StartsWith(b + r + t, b + "/")
  {
    assert (b + r + t)[..|b| + 1] == b + "/";
  }

  lemma BelowInside(base: seq<string>, segs: seq<string>, trailing: bool)
    requires base != [] && AllClean(base) && AllClean(segs)
    requires Below(Render(segs, trailing), PathString(base))
    ensures base <= segs
  {
    var b := PathString(base);
    var full := Render(segs, trailing);
    PathStringShape(base);
    if segs == [] {
      assert false;
    }
    PathStringShape(segs);
    var f := PathString(segs);
    if trailing {
      assert full == f + "/";
      assert full != b by {
        assert Last(full) == '/';
      }
    } else {
      assert full == f;
      assert (f + "/")[..|b| + 1] == b + "/" by {
        if f != b {
          assert f[..|b| + 1] == b + "/";
        }
      }
    }
    assert StartsWith(f + "/", b + "/");
    PrefixSegments(base, segs);
  }

  /** The intended guard accepts exactly the requests whose path, resolved against the base,
      stays inside the base. */
  lemma AcceptedIff(base: seq<string>, p: string)
    requires base != [] && AllClean(base)
    ensures Accepted(base, p) <==> base <= Resolve(base, Split(p, '/'))
  {
    var joined := if p == "" then PathString(base) else PathString(base) + "/" + p;
    var segs := Resolve(base, Split(p, '/'));
    var trailing := joined != [] && Last(joined) == '/';
    JoinedSegments(base, p);
    ResolveKeepsClean(base, Split(p, '/'));
    assert Render(segs, trailing) == JoinPath(base, p);
    assert Accepted(base, p) == Below(Render(segs, trailing), PathString(base));
    if base <= segs {
      InsideBelow(base, segs, trailing);
    }
    if Accepted(base, p) {
      BelowInside(base, segs, trailing);
    }
  }

  /** Whatever the intended guard accepts, the guard as written accepts too. */
  lemma AcceptedAcceptedAsWritten(base: seq<string>, p: string)
    requires Accepted(base, p)
    ensures AcceptedAsWritten(base, p)
  {
    var full := JoinPath(base, p);
    var b := PathString(base);
    if full != b {
      assert full[..|b|] == full[..|b + "/"|][..|b|];
    }
  }

  /** The full path of a non-empty request: its segments resolved on top of the base, with its
      trailing slash kept. */
  lemma JoinPathShape(base: seq<string>, p: string)
    requires AllClean(base) && p != ""
    ensures JoinPath(base, p) == Render(Resolve(base, Split(p, '/')), Last(p) == '/')
  {
    JoinedSegments(base, p);
    var joined := PathString(base) + "/" + p;
    assert Last(joined) == Last(p);
  }

  /** Three slash-free segments joined by slashes split back into them. */
  lemma SplitThree(a: string, b: string, c: string)
    requires '/' !in a && '/' !in b && '/' !in c
    ensures Split(a + "/" + b + "/" + c, '/') == [a, b, c]
  {
    SplitCons(b, c);
    assert Split(c, '/') == [c];
    SplitCons(a, b + "/" + c);
    Regroup3(a, b, c);
  }

  lemma Regroup3(a: string, b: string, c: string)
    ensures a + "/" + b + "/" + c == a + "/" + (b + "/" + c)
  {
  }

  /** Moves the parentheses of a path text so that its first segment stands alone. */
  lemma Regroup(x: string, y: string, p: string, t: string)
    ensures x + ("/" + y + p) + "/" + t == x + "/" + (y + p + "/" + t)
  {
  }

  /** A `..` that stays inside the base is accepted, not refused: `d/../f` serves `f` from the
      base directory itself. */
  lemma ParentInsideAccepted(base: seq<string>, d: string, f: string)
    requires base != [] && AllClean(base) && Clean(d) && Clean(f)
    ensures ".." in Split(d + "/../" + f, '/')
    ensures Accepted(base, d + "/../" + f)
    ensures JoinPath(base, d + "/../" + f) == PathString(base + [f])
    ensures AcceptedAsWritten(base, d + "/../" + f)
  {
    var p := d + "/../" + f;
    ParentSegments(base, d, f, p);
    AcceptedIff(base, p);
    AcceptedAcceptedAsWritten(base, p);
  }

  lemma ParentSegments(base: seq<string>, d: string, f: string, p: string)
    requires AllClean(base) && Clean(d) && Clean(f) && p == d + "/../" + f
    ensures Split(p, '/') == [d, "..", f]
    ensures Resolve(base, Split(p, '/')) == base + [f]
    ensures JoinPath(base, p) == PathString(base + [f])
  {
    ParentSplit(d, f, p);
    ResolveParent(base, d, f);
    JoinPathShape(base, p);
    RenderPlain(base + [f]);
  }

  lemma ParentSplit(d: string, f: string, p: string)
    requires Clean(d) && Clean(f) && p == d + "/../" + f
    ensures p != "" && Split(p, '/') == [d, "..", f] && Last(p) != '/'
  {
    assert p == d + "/" + ".." + "/" + f;
    SplitThree(d, "..", f);
    LastOfSuffix(d + "/../", f);
  }

  lemma ResolveParent(base: seq<string>, d: string, f: string)
    requires Clean(d) && Clean(f)
    ensures Resolve(base, [d, "..", f]) == base + [f]
  {
    assert [d, "..", f][1..] == ["..", f] && ["..", f][1..] == [f];
    assert Step(base, d) == base + [d];
    assert (base + [d])[..|base|] == base;
    ResolveClean(base, [f]);
  }

  /** The guard as written lets a request out of the base into a sibling directory whose name
      starts with the base's last segment: with the base `/srv/app`, the request
      `../app-data/x` resolves to `/srv/app-data/x`, which starts with "/srv/app". */
  lemma SiblingPrefixAccepted(dirs: seq<string>, name: string, sibling: string, f: string)
    requires AllClean(dirs + [name]) && Clean(sibling) && Clean(f)
    requires StartsWith(sibling, name) && sibling != name
    ensures JoinPath(dirs + [name], "../" + sibling + "/" + f) == PathString(dirs + [sibling, f])
    ensures AcceptedAsWritten(dirs + [name], "../" + sibling + "/" + f)
    ensures !Accepted(dirs + [name], "../" + sibling + "/" + f)
  {
    var base := dirs + [name];
    var p := "../" + sibling + "/" + f;
    var segs := dirs + [sibling, f];
    SiblingSegments(dirs, name, sibling, f);
    SiblingText(dirs, name, sibling, f);
    AcceptedIff(base, p);
    assert !(base <= segs) by {
      assert segs[|dirs|] == sibling;
    }
  }

  lemma SiblingSegments(dirs: seq<string>, name: string, sibling: string, f: string)
    requires AllClean(dirs + [name]) && Clean(sibling) && Clean(f)
    ensures Resolve(dirs + [name], Split("../" + sibling + "/" + f, '/')) == dirs + [sibling, f]
    ensures JoinPath(dirs + [name], "../" + sibling + "/" + f) == PathString(dirs + [sibling, f])
  {
    var base := dirs + [name];
    var p := "../" + sibling + "/" + f;
    SiblingSplit(sibling, f, p);
    SiblingResolve(dirs, name, sibling, f);
    JoinPathShape(base, p);
    RenderPlain(dirs + [sibling, f]);
  }

  lemma SiblingSplit(sibling: string, f: string, p: string)
    requires Clean(sibling) && Clean(f) && p == "../" + sibling + "/" + f
    ensures p != "" && Split(p, '/') == ["..", sibling, f] && Last(p) != '/'
  {
    assert "../" == ".." + "/";
    SplitThree("..", sibling, f);
    LastOfSuffix("../" + sibling + "/", f);
  }

  lemma LastOfSuffix(a: string, f: string)
    requires f != "" && '/' !in f
    ensures Last(a + f) != '/'
  {
    assert Last(a + f) == Last(f) && Last(f) in f;
  }

  lemma SiblingResolve(dirs: seq<string>, name: string, sibling: string, f: string)
    requires Clean(sibling) && Clean(f)
    ensures Resolve(dirs + [name], ["..", sibling, f]) == dirs + [sibling, f]
  {
    var base := dirs + [name];
    assert base[..|base| - 1] == dirs;
    assert ["..", sibling, f][1..] == [sibling, f];
    ResolveClean(dirs, [sibling, f]);
  }

  lemma RenderPlain(segs: seq<string>)
    requires segs != []
    ensures Render(segs, false) == PathString(segs)
  {
    assert PathString(segs) + "" == PathString(segs);
  }

  lemma SiblingText(dirs: seq<string>, name: string, sibling: string, f: string)
    requires StartsWith(sibling, name)
    ensures StartsWith(PathString(dirs + [sibling, f]), PathString(dirs + [name]))
  {
    PathStringConcat(dirs, [name]);
    PathStringConcat(dirs, [sibling, f]);
    assert PathString([sibling, f]) == "/" + sibling + "/" + f by {
      assert [sibling, f][1..] == [f] && [f][1..] == [];
    }
    assert PathString([name]) == "/" + name;
    var x := PathString(dirs) + "/";
    assert PathString(dirs + [sibling, f]) == x + sibling + ("/" + f);
    assert PathString(dirs + [name]) == x + name;
    StartsWithConcat(x, sibling, "/" + f, name);
  }

  /** A prefix of the middle part, kept after the same first part, starts the whole. */
  lemma StartsWithConcat(x: string, s: string, rest: string, n: string)
    requires StartsWith(s, n)
    ensures StartsWith(x + s + rest, x + n)
  {
    var u := x + s + rest;
    forall i | 0 <= i < |x| + |n| ensures u[i] == (x + n)[i] {
      if i >= |x| {
        assert u[i] == s[i - |x|] && s[i - |x|] == s[..|n|][i - |x|];
      }
    }
    assert u[..|x| + |n|] == x + n;
  }

  /** A concrete instance: base `/srv/app`, request `../app-data/x`. */
  lemma SiblingExample()
    ensures AcceptedAsWritten(["srv", "app"], "../app-data/x")
    ensures !Accepted(["srv", "app"], "../app-data/x")
  {
    SiblingInstance(["srv", "app"], "../app-data/x", ["srv"], "app", "app-data", "x");
  }

  lemma SiblingInstance(base: seq<string>, p: string, dirs: seq<string>, name: string, sibling: string, f: string)
    requires base == dirs + [name] && p == "../" + sibling + "/" + f
    requires AllClean(base) && Clean(sibling) && Clean(f)
    requires StartsWith(sibling, name) && sibling != name
    ensures AcceptedAsWritten(base, p) && !Accepted(base, p)
  {
    SiblingPrefixAccepted(dirs, name, sibling, f);
  }
}

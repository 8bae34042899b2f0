/** POSIX path names as plano handles them: os.path.normpath, split, join and
    splitext with '/' as the separator, and the helpers plano builds on them
    (parent_dir, file_name, name_stem, name_extension, program_name). */
module Paths {
  import opened Wrappers
  import Text

  /** The index of the last occurrence of c in s, or -1 (str.rfind). */
  function LastIndex(s: string, c: char): (i: int)
    ensures -1 <= i < |s|
    ensures i >= 0 ==> s[i] == c
    ensures forall k :: i < k < |s| ==> s[k] != c
  {
    if s == [] then -1
    else if s[|s| - 1] == c then |s| - 1
    else LastIndex(s[..|s| - 1], c)
  }

  lemma LastIndexAt(s: string, c: char, k: nat)
    requires k < |s| && s[k] == c
    requires forall j :: k < j < |s| ==> s[j] != c
    ensures LastIndex(s, c) == k
  {
  }

  lemma LastIndexNone(s: string, c: char)
    requires c !in s
    ensures LastIndex(s, c) == -1
  {
  }

  predicate AllSlashes(s: string) {
    forall k :: 0 <= k < |s| ==> s[k] == '/'
  }

  predicate IsAbsolute(p: string) {
    p != [] && p[0] == '/'
  }

  function Slashes(n: nat): (s: string)
    ensures |s| == n && AllSlashes(s)
  {
    seq(n, _ => '/')
  }

  /** str.rstrip('/'). */
  function StripTrailingSlashes(s: string): (r: string)
    ensures |r| <= |s| && r == s[..|r|]
    ensures forall k :: |r| <= k < |s| ==> s[k] == '/'
    ensures r == [] || r[|r| - 1] != '/'
  {
    if s != [] && s[|s| - 1] == '/' then StripTrailingSlashes(s[..|s| - 1]) else s
  }

  /** os.path.split: the tail is what follows the last slash; the head is what
      precedes it, with its trailing slashes removed unless it is nothing but slashes. */
  function SplitPath(p: string): (ht: (string, string))
    // the tail is everything after the last slash
    ensures '/' !in ht.1
    ensures |ht.1| <= |p| && ht.1 == p[|p| - |ht.1|..]
    ensures |ht.1| == |p| || p[|p| - |ht.1| - 1] == '/'
    // the head is what comes before it, less the slashes that end it
    ensures |ht.0| <= |p| - |ht.1| && ht.0 == p[..|ht.0|]
    ensures forall k :: |ht.0| <= k < |p| - |ht.1| ==> p[k] == '/'
    ensures ht.0 == [] || ht.0[|ht.0| - 1] != '/' || AllSlashes(ht.0)
    // unless it is nothing but slashes, which are kept
    ensures AllSlashes(ht.0) ==> |ht.0| == |p| - |ht.1|
  {
    var i := LastIndex(p, '/') + 1;
    var head := p[..i];
    var tail := p[i..];
    if head != [] && !AllSlashes(head) then
      (StripTrailingSlashes(head), tail)
    else (head, tail)
  }

  /** os.path.join with two arguments. */
  function Join(a: string, b: string): (r: string)
    ensures IsAbsolute(b) ==> r == b
    ensures !IsAbsolute(b) ==> |b| <= |r| && r[|r| - |b|..] == b
    ensures !IsAbsolute(b) ==> |a| <= |r| && r[..|a|] == a
    // a separator goes between the two parts exactly when a does not already end with one
    ensures !IsAbsolute(b) ==>
      |r| == |a| + |b| + (if a == [] || a[|a| - 1] == '/' then 0 else 1)
    ensures !IsAbsolute(b) && a != [] && a[|a| - 1] != '/' ==> r[|a|] == '/'
    ensures IsAbsolute(a) ==> IsAbsolute(r)
  {
    if IsAbsolute(b) then b
    else if a == [] || a[|a| - 1] == '/' then a + b
    else a + "/" + b
  }

  /** Splitting a path made by joining a directory and a plain name gives the name back. */
  lemma JoinThenSplit(dir: string, name: string)
    requires name != [] && '/' !in name
    ensures SplitPath(Join(dir, name)).1 == name
  {
    var p := Join(dir, name);
    if dir == [] {
      assert p == name;
      LastIndexNone(p, '/');
    } else {
      var k := if dir[|dir| - 1] == '/' then |dir| - 1 else |dir|;
      assert k == |p| - |name| - 1 && p[k] == '/' by {
        if dir[|dir| - 1] == '/' {
          assert p == dir + name && p[k] == dir[k];
        } else {
          assert p == dir + "/" + name;
        }
      }
      assert forall j :: k < j < |p| ==> p[j] != '/' by {
        forall j | k < j < |p|
          ensures p[j] != '/'
        {
          assert p[j] == p[|p| - |name|..][j - k - 1];
        }
      }
      LastIndexAt(p, '/', k);
    }
  }

  /** Splitting a path made by joining a directory, as split leaves heads, and
      a plain name gives both back. */
  lemma JoinThenSplitHead(dir: string, name: string)
    requires name != [] && '/' !in name
    requires dir == [] || dir[|dir| - 1] != '/' || AllSlashes(dir)
    ensures SplitPath(Join(dir, name)) == (dir, name)
  {
    JoinThenSplit(dir, name);
    var p := Join(dir, name);
    var h := SplitPath(p).0;
    if dir == [] {
      assert |h| <= |p| - |name| == 0;
    } else if AllSlashes(dir) {
      assert p == dir + name;
      assert AllSlashes(h) by {
        forall k | 0 <= k < |h|
          ensures h[k] == '/'
        {
          assert h[k] == p[k] == dir[k];
        }
      }
      assert h == p[..|dir|] == dir;
    } else {
      assert p == dir + "/" + name;
      if |h| != |dir| {
        // a shorter head would leave dir's last character, not a slash, before
        // the tail; a longer one would end with the separator
        assert false;
      }
      assert h == p[..|dir|] == dir;
    }
  }

  /** str.split(c): the pieces between the occurrences of c. */
  function SplitOn(s: string, c: char): (parts: seq<string>)
    ensures |parts| >= 1
    ensures forall i :: 0 <= i < |parts| ==> c !in parts[i]
  {
    if s == [] then [""]
    else
      var rest := SplitOn(s[1..], c);
      if s[0] == c then [""] + rest
      else [[s[0]] + rest[0]] + rest[1..]
  }

  /** c.join(parts). */
  function JoinWith(parts: seq<string>, c: char): string {
    if parts == [] then ""
    else if |parts| == 1 then parts[0]
    else parts[0] + [c] + JoinWith(parts[1..], c)
  }

  /** Joining the pieces of a split gives the string back. */
  lemma {:induction false} SplitOnThenJoin(s: string, c: char)
    ensures JoinWith(SplitOn(s, c), c) == s
  {
    if s != [] {
      SplitOnThenJoin(s[1..], c);
      var rest := SplitOn(s[1..], c);
      if s[0] == c {
        assert s == [c] + s[1..];
      } else if |rest| == 1 {
        assert s == [s[0]] + s[1..];
      } else {
        assert JoinWith(rest, c) == rest[0] + [c] + JoinWith(rest[1..], c);
        assert s == [s[0]] + s[1..];
      }
    }
  }

  /** Path components as normpath keeps them: non-empty and free of slashes. */
  ghost predicate Components(parts: seq<string>) {
    forall i :: 0 <= i < |parts| ==> parts[i] != [] && '/' !in parts[i]
  }

  predicate NoDoubleSlash(s: string) {
    forall k :: 0 <= k < |s| - 1 ==> !(s[k] == '/' && s[k + 1] == '/')
  }

  lemma {:induction false} JoinComponents(parts: seq<string>)
    requires Components(parts)
    ensures var j := JoinWith(parts, '/');
      && NoDoubleSlash(j)
      && (j == [] <==> parts == [])
      && (j != [] ==> j[0] != '/' && j[|j| - 1] != '/')
  {
    if |parts| > 1 {
      JoinComponents(parts[1..]);
      var rest := JoinWith(parts[1..], '/');
      var j := parts[0] + "/" + rest;
      assert j == JoinWith(parts, '/');
      forall k | 0 <= k < |j| - 1
        ensures !(j[k] == '/' && j[k + 1] == '/')
      {
        if k < |parts[0]| - 1 {
          assert j[k] == parts[0][k];
          assert j[k + 1] == parts[0][k + 1];
        } else if k == |parts[0]| - 1 {
          assert j[k] == parts[0][k];
        } else if k == |parts[0]| {
          assert j[k + 1] == rest[0];
        } else {
          assert j[k] == rest[k - |parts[0]| - 1];
          assert j[k + 1] == rest[k + 1 - |parts[0]| - 1];
        }
      }
      assert j[0] == parts[0][0];
      assert j[|j| - 1] == rest[|rest| - 1];
    } else if |parts| == 1 {
      assert parts[0] != [] && '/' !in parts[0];
    }
  }

  /** One component of normpath's loop: skip "" and ".", let ".." remove the
      previous component where there is one to remove, keep everything else. */
  function Step(acc: seq<string>, comp: string, rooted: bool): seq<string> {
    if comp == "" || comp == "." then acc
    else if comp != ".." || (!rooted && acc == []) || (acc != [] && acc[|acc| - 1] == "..") then acc + [comp]
    else if acc != [] then acc[..|acc| - 1]
    else acc
  }

  function Resolve(acc: seq<string>, comps: seq<string>, rooted: bool): seq<string>
    decreases |comps|
  {
    if comps == [] then acc else Resolve(Step(acc, comps[0], rooted), comps[1..], rooted)
  }

  /** Components as normpath's loop leaves them: none empty or ".", and ".." only
      in a leading run, which a path from the root does not have. */
  ghost predicate Resolved(comps: seq<string>, rooted: bool) {
    && Components(comps)
    && (forall i :: 0 <= i < |comps| ==> comps[i] != ".")
    && (forall i, j :: 0 <= j <= i < |comps| && comps[i] == ".." ==> !rooted && comps[j] == "..")
  }

  /** normpath's loop keeps its components resolved. */
  lemma {:induction false} ResolveComponents(acc: seq<string>, comps: seq<string>, rooted: bool)
    requires Resolved(acc, rooted)
    requires forall i :: 0 <= i < |comps| ==> '/' !in comps[i]
    ensures Resolved(Resolve(acc, comps, rooted), rooted)
    decreases |comps|
  {
    if comps != [] {
      StepResolved(acc, comps[0], rooted);
      ResolveComponents(Step(acc, comps[0], rooted), comps[1..], rooted);
    }
  }

  lemma StepResolved(acc: seq<string>, comp: string, rooted: bool)
    requires Resolved(acc, rooted) && '/' !in comp
    ensures Resolved(Step(acc, comp, rooted), rooted)
  {
    if comp == "" || comp == "." {
    } else if comp != ".." || (!rooted && acc == []) || (acc != [] && acc[|acc| - 1] == "..") {
      var next := acc + [comp];
      forall i, j | 0 <= j <= i < |next| && next[i] == ".."
        ensures !rooted && next[j] == ".."
      {
        if i == |acc| {
          assert acc != [] ==> acc[|acc| - 1] == "..";
          if j < |acc| {
            assert next[j] == acc[j];
          }
        } else {
          assert next[i] == acc[i] && next[j] == acc[j];
        }
      }
    } else if acc != [] {
      var next := acc[..|acc| - 1];
      assert forall i :: 0 <= i < |next| ==> next[i] == acc[i];
    }
  }

  /** Resolved components go through normpath's loop unchanged. */
  lemma {:induction false} ResolveResolved(acc: seq<string>, comps: seq<string>, rooted: bool)
    requires Resolved(acc + comps, rooted)
    ensures Resolve(acc, comps, rooted) == acc + comps
    decreases |comps|
  {
    if comps != [] {
      var all := acc + comps;
      var c := comps[0];
      assert all[|acc|] == c;
      if c == ".." && acc != [] {
        assert all[|acc| - 1] == acc[|acc| - 1];
      }
      assert Step(acc, c, rooted) == acc + [c];
      assert (acc + [c]) + comps[1..] == all;
      ResolveResolved(acc + [c], comps[1..], rooted);
    } else {
      assert acc + comps == acc;
    }
  }

  /** n empty strings. */
  function Empties(n: nat): (e: seq<string>)
    ensures |e| == n
  {
    if n == 0 then [] else [""] + Empties(n - 1)
  }

  /** Empty components are skipped. */
  lemma {:induction false} ResolveSkipsEmpty(acc: seq<string>, n: nat, rest: seq<string>, rooted: bool)
    ensures Resolve(acc, Empties(n) + rest, rooted) == Resolve(acc, rest, rooted)
  {
    if n > 0 {
      var x := Empties(n) + rest;
      assert x[0] == "" && x[1..] == Empties(n - 1) + rest;
      ResolveSkipsEmpty(acc, n - 1, rest, rooted);
    } else {
      assert Empties(n) + rest == rest;
    }
  }

  /** Splitting at the first separator. */
  lemma {:induction false} SplitOnAfter(a: string, b: string, c: char)
    requires c !in a
    ensures SplitOn(a + [c] + b, c) == [a] + SplitOn(b, c)
  {
    var s := a + [c] + b;
    if a == [] {
      assert s[1..] == b;
    } else {
      assert s[0] == a[0];
      assert s[1..] == a[1..] + [c] + b;
      SplitOnAfter(a[1..], b, c);
      assert [a[0]] + a[1..] == a;
    }
  }

  lemma {:induction false} SplitOnWithout(a: string, c: char)
    requires c !in a
    ensures SplitOn(a, c) == [a]
  {
    if a != [] {
      SplitOnWithout(a[1..], c);
      assert [a[0]] + a[1..] == a;
    }
  }

  /** Splitting joined components gives them back. */
  lemma {:induction false} SplitJoinComponents(comps: seq<string>)
    requires Components(comps) && comps != []
    ensures SplitOn(JoinWith(comps, '/'), '/') == comps
  {
    if |comps| == 1 {
      SplitOnWithout(comps[0], '/');
    } else {
      SplitOnAfter(comps[0], JoinWith(comps[1..], '/'), '/');
      SplitJoinComponents(comps[1..]);
      assert comps == [comps[0]] + comps[1..];
    }
  }

  /** Each leading slash splits off an empty piece. */
  lemma {:induction false} SplitOnAfterSlashes(n: nat, b: string)
    ensures SplitOn(Slashes(n) + b, '/') == Empties(n) + SplitOn(b, '/')
  {
    if n > 0 {
      assert Slashes(n) + b == [] + ['/'] + (Slashes(n - 1) + b);
      SplitOnAfter([], Slashes(n - 1) + b, '/');
      SplitOnAfterSlashes(n - 1, b);
    } else {
      assert Slashes(n) + b == b;
    }
  }

  /** normpath keeps one or two leading slashes as written; three or more become one. */
  function InitialSlashes(p: string): (n: nat)
    ensures n <= 2 && (n > 0 <==> IsAbsolute(p))
  {
    if IsAbsolute(p) then
      if |p| >= 2 && p[1] == '/' && !(|p| >= 3 && p[2] == '/') then 2 else 1
    else 0
  }

  /** A path name as normpath returns it: never empty, and two slashes in a row
      only inside the run of leading slashes. */
  ghost predicate Normal(q: string) {
    && q != []
    && forall k :: 0 <= k < |q| - 1 && q[k] == '/' && q[k + 1] == '/' ==> AllSlashes(q[..k + 2])
  }

  /** os.path.normpath (POSIX). */
  function NormPath(p: string): (q: string)
    ensures Normal(q)
    ensures IsAbsolute(q) <==> IsAbsolute(p)
  {
    if p == "" then "."
    else
      var n := InitialSlashes(p);
      var comps := Resolve([], SplitOn(p, '/'), n > 0);
      ResolveComponents([], SplitOn(p, '/'), n > 0);
      JoinComponents(comps);
      var body := JoinWith(comps, '/');
      var q := Slashes(n) + body;
      if q == "" then "."
      else
        NormalShape(n, body);
        q
  }

  lemma NormalShape(n: nat, body: string)
    requires NoDoubleSlash(body) && (body != [] ==> body[0] != '/')
    requires n > 0 || body != []
    ensures Normal(Slashes(n) + body)
  {
    var q := Slashes(n) + body;
    assert forall k :: 0 <= k < |q| ==> q[k] == if k < n then '/' else body[k - n];
    forall k | 0 <= k < |q| - 1 && q[k] == '/' && q[k + 1] == '/'
      ensures AllSlashes(q[..k + 2])
    {
      assert k + 1 < n;
      assert q[..k + 2] == Slashes(n)[..k + 2];
    }
  }

  /** The components normpath keeps of p. */
  ghost function NormComponents(p: string): seq<string> {
    Resolve([], SplitOn(p, '/'), InitialSlashes(p) > 0)
  }

  /** normpath's result is its leading slashes and its resolved components, or "." when there are neither. */
  lemma NormPathParts(p: string)
    ensures var n, comps := InitialSlashes(p), NormComponents(p);
      && Resolved(comps, n > 0)
      && NormPath(p) == if n == 0 && comps == [] then "." else Slashes(n) + JoinWith(comps, '/')
  {
    var n, comps := InitialSlashes(p), NormComponents(p);
    ResolveComponents([], SplitOn(p, '/'), n > 0);
    JoinComponents(comps);
  }

  /** A path with n <= 2 leading slashes before a body that does not start with one. */
  lemma InitialSlashesOf(n: nat, body: string)
    requires n <= 2 && (body == [] || body[0] != '/') && (n > 0 || body != [])
    ensures InitialSlashes(Slashes(n) + body) == n
  {
    var q := Slashes(n) + body;
    if n < |q| {
      assert q[n] == body[0];
    }
  }

  /** What normpath returns is ".", one or two slashes, or a path with one or
      two leading slashes when absolute and none otherwise, and then components
      none of which is empty or ".", with ".." only leading a relative path, and
      no slash at the end. */
  lemma NormPathResolved(p: string)
    ensures var q := NormPath(p); var n := InitialSlashes(q);
      || q == "."
      || (q == Slashes(n) && n > 0)
      || (q[|q| - 1] != '/' && Resolved(SplitOn(q[n..], '/'), n > 0))
  {
    NormPathParts(p);
    var n, comps := InitialSlashes(p), NormComponents(p);
    var q := NormPath(p);
    if q != "." {
      var body := JoinWith(comps, '/');
      JoinComponents(comps);
      InitialSlashesOf(n, body);
      if comps != [] {
        assert q[n..] == body;
        SplitJoinComponents(comps);
      } else {
        assert q == Slashes(n);
      }
    }
  }

  /** A path already in normal form, its leading slashes and then resolved
      components, is its own normalisation. */
  lemma NormPathOfNormal(n: nat, comps: seq<string>)
    requires n <= 2 && Resolved(comps, n > 0) && (n > 0 || comps != [])
    ensures var q := Slashes(n) + JoinWith(comps, '/'); NormPath(q) == q
  {
    var body := JoinWith(comps, '/');
    var q := Slashes(n) + body;
    JoinComponents(comps);
    InitialSlashesOf(n, body);
    SplitOnAfterSlashes(n, body);
    ResolveSkipsEmpty([], n, SplitOn(body, '/'), n > 0);
    if comps != [] {
      SplitJoinComponents(comps);
      ResolveResolved([], comps, n > 0);
      assert [] + comps == comps;
    } else {
      assert SplitOn(body, '/') == [""];
    }
    assert NormComponents(q) == comps;
    NormPathParts(q);
  }

  /** Normalising twice is normalising once. */
  lemma NormPathIdempotent(p: string)
    ensures NormPath(NormPath(p)) == NormPath(p)
  {
    NormPathParts(p);
    var n, comps := InitialSlashes(p), NormComponents(p);
    if n == 0 && comps == [] {
      SplitOnWithout(".", '/');
      assert NormComponents(".") == [];
      NormPathParts(".");
    } else {
      NormPathOfNormal(n, comps);
    }
  }

  /** In normpath's loop a component followed by ".." cancels out, unless it
      is itself "..". */
  lemma ResolveCancels(acc: seq<string>, x: string, rest: seq<string>, rooted: bool)
    requires x != "" && x != "." && x != ".."
    ensures Resolve(acc, [x, ".."] + rest, rooted) == Resolve(acc, rest, rooted)
  {
    var comps := [x, ".."] + rest;
    assert comps[0] == x && comps[1..] == [".."] + rest;
    assert Step(acc, x, rooted) == acc + [x];
    assert ([".."] + rest)[1..] == rest;
    assert Step(acc + [x], "..", rooted) == acc;
  }

  /** Splitting at a separator splits the two sides separately. */
  lemma {:induction false} SplitOnConcat(u: string, v: string, c: char)
    ensures SplitOn(u + [c] + v, c) == SplitOn(u, c) + SplitOn(v, c)
  {
    var s := u + [c] + v;
    if u == [] {
      assert s[1..] == v;
    } else {
      assert s[0] == u[0] && s[1..] == u[1..] + [c] + v;
      SplitOnConcat(u[1..], v, c);
    }
  }

  /** normpath's loop over two runs of components is the loop over the
      second, started from what the first left. */
  lemma {:induction false} ResolveAppend(acc: seq<string>, s1: seq<string>, s2: seq<string>, rooted: bool)
    ensures Resolve(acc, s1 + s2, rooted) == Resolve(Resolve(acc, s1, rooted), s2, rooted)
    decreases |s1|
  {
    if s1 != [] {
      assert (s1 + s2)[0] == s1[0] && (s1 + s2)[1..] == s1[1..] + s2;
      ResolveAppend(Step(acc, s1[0], rooted), s1[1..], s2, rooted);
    } else {
      assert s1 + s2 == s2;
    }
  }

  /** Only the first three characters decide normpath's leading slashes, and
      only whether each is a slash. */
  lemma InitialSlashesAgree(w: string, u: string, v: string)
    requires u == [] || u[0] != '/'
    requires v == [] || v[0] != '/'
    ensures InitialSlashes(w + u) == InitialSlashes(w + v)
  {
    var p1, p2 := w + u, w + v;
    assert forall k :: 0 <= k < |w| ==> p1[k] == w[k] == p2[k];
    assert |w| < |p1| ==> p1[|w|] == u[0];
    assert |w| < |p2| ==> p2[|w|] == v[0];
  }

  /** normpath lets "x/.." cancel anywhere in a path, for a plain name x. */
  lemma NormPathCancels(pre: string, x: string, rest: string)
    requires x != "" && x != "." && x != ".." && '/' !in x
    requires rest == [] || rest[0] != '/'
    ensures NormPath(pre + "/" + x + "/../" + rest) == NormPath(pre + "/" + rest)
  {
    var p1 := pre + "/" + x + "/../" + rest;
    var p2 := pre + "/" + rest;
    assert InitialSlashes(p1) == InitialSlashes(p2) by {
      assert p1 == (pre + "/") + (x + "/../" + rest);
      assert p2 == (pre + "/") + rest;
      InitialSlashesAgree(pre + "/", x + "/../" + rest, rest);
    }
    var rooted := InitialSlashes(p1) > 0;
    var head, tail := SplitOn(pre, '/'), SplitOn(rest, '/');
    SplitCancelled(pre, x, rest);
    assert NormComponents(p1) == NormComponents(p2) by {
      ResolveAppend([], head, [x, ".."] + tail, rooted);
      ResolveCancels(Resolve([], head, rooted), x, tail, rooted);
      ResolveAppend([], head, tail, rooted);
    }
    NormPathParts(p1);
    NormPathParts(p2);
  }

  lemma SplitCancelled(pre: string, x: string, rest: string)
    requires '/' !in x
    ensures SplitOn(pre + "/" + x + "/../" + rest, '/') == SplitOn(pre, '/') + ([x, ".."] + SplitOn(rest, '/'))
    ensures SplitOn(pre + "/" + rest, '/') == SplitOn(pre, '/') + SplitOn(rest, '/')
  {
    var dots := ".." + ['/'] + rest;
    var after := x + ['/'] + dots;
    assert pre + "/" + x + "/../" + rest == pre + ['/'] + after;
    SplitOnConcat(pre, after, '/');
    SplitOnConcat(x, dots, '/');
    SplitOnConcat("..", rest, '/');
    SplitOnWithout(x, '/');
    SplitOnWithout("..", '/');
    assert [x] + ([".."] + SplitOn(rest, '/')) == [x, ".."] + SplitOn(rest, '/');
    SplitOnConcat(pre, rest, '/');
  }

  /** normpath drops a "." component after any prefix. */
  lemma NormPathSkipsDot(pre: string, rest: string)
    requires rest == [] || rest[0] != '/'
    ensures NormPath(pre + "/./" + rest) == NormPath(pre + "/" + rest)
  {
    var p1 := pre + "/./" + rest;
    var p2 := pre + "/" + rest;
    assert InitialSlashes(p1) == InitialSlashes(p2) by {
      assert p1 == (pre + "/") + ("./" + rest);
      assert p2 == (pre + "/") + rest;
      InitialSlashesAgree(pre + "/", "./" + rest, rest);
    }
    var rooted := InitialSlashes(p1) > 0;
    var head, tail := SplitOn(pre, '/'), SplitOn(rest, '/');
    assert SplitOn(p1, '/') == head + (["."] + tail) by {
      assert p1 == pre + ['/'] + ("." + ['/'] + rest);
      SplitOnConcat(pre, "." + ['/'] + rest, '/');
      SplitOnConcat(".", rest, '/');
      SplitOnWithout(".", '/');
    }
    assert SplitOn(p2, '/') == head + tail by {
      SplitOnConcat(pre, rest, '/');
    }
    assert NormComponents(p1) == NormComponents(p2) by {
      ResolveAppend([], head, ["."] + tail, rooted);
      assert (["."] + tail)[1..] == tail;
      ResolveAppend([], head, tail, rooted);
    }
    NormPathParts(p1);
    NormPathParts(p2);
  }

  /** normpath collapses a doubled slash after a relative prefix. */
  lemma NormPathCollapses(pre: string, rest: string)
    requires pre != [] && pre[0] != '/'
    requires rest == [] || rest[0] != '/'
    ensures NormPath(pre + "//" + rest) == NormPath(pre + "/" + rest)
  {
    var p1 := pre + "//" + rest;
    var p2 := pre + "/" + rest;
    assert InitialSlashes(p1) == 0 == InitialSlashes(p2) by {
      assert p1[0] == pre[0] && p2[0] == pre[0];
    }
    var head, tail := SplitOn(pre, '/'), SplitOn(rest, '/');
    assert SplitOn(p1, '/') == head + ([""] + tail) by {
      assert p1 == pre + ['/'] + ([] + ['/'] + rest);
      SplitOnConcat(pre, [] + ['/'] + rest, '/');
      SplitOnConcat([], rest, '/');
    }
    assert SplitOn(p2, '/') == head + tail by {
      SplitOnConcat(pre, rest, '/');
    }
    assert NormComponents(p1) == NormComponents(p2) by {
      ResolveAppend([], head, [""] + tail, false);
      assert ([""] + tail)[1..] == tail;
      ResolveAppend([], head, tail, false);
    }
    NormPathParts(p1);
    NormPathParts(p2);
  }

  /** normpath drops a trailing slash from a path that is not all slashes. */
  lemma NormPathTrailingSlash(p: string)
    requires !AllSlashes(p)
    ensures NormPath(p + "/") == NormPath(p)
  {
    var p1 := p + "/";
    assert InitialSlashes(p1) == InitialSlashes(p) by {
      assert forall k :: 0 <= k < |p| ==> p1[k] == p[k];
      var k :| 0 <= k < |p| && p[k] != '/';
      if |p| < 3 {
        assert p1[|p|] == '/';
      }
    }
    var rooted := InitialSlashes(p) > 0;
    var comps := SplitOn(p, '/');
    assert SplitOn(p1, '/') == comps + [""] by {
      assert p1 == p + ['/'] + [];
      SplitOnConcat(p, [], '/');
    }
    assert NormComponents(p1) == NormComponents(p) by {
      ResolveAppend([], comps, [""], rooted);
    }
    NormPathParts(p1);
    NormPathParts(p);
  }

  /** A relative path of two plain names normalises to itself: its parent is
      the first name and its file name the second. */
  lemma ParentAndFileNameOfPair(a: string, b: string)
    requires Resolved([a, b], false) && a != ".." && b != ".."
    ensures ParentDir(a + "/" + b) == a && FileName(a + "/" + b) == b
  {
    var q := a + "/" + b;
    assert a != [] && '/' !in a && b != [] && '/' !in b by {
      assert [a, b][0] == a && [a, b][1] == b;
    }
    assert NormPath(q) == q by {
      var comps := [a, b];
      assert comps[1..] == [b];
      assert Slashes(0) + JoinWith(comps, '/') == q;
      NormPathOfNormal(0, comps);
    }
    assert SplitPath(q) == (a, b) by {
      assert Join(a, b) == q;
      JoinThenSplitHead(a, b);
    }
  }

  /** plano.parent_dir: the normalised path up to its last component, without
      the slashes that separate them unless those are all there is. */
  function ParentDir(path: string): (parent: string)
    ensures var q := NormPath(path);
      && |parent| + |FileName(path)| <= |q| && parent == q[..|parent|]
      && (parent == [] || parent[|parent| - 1] != '/' || AllSlashes(parent))
  {
    SplitPath(NormPath(path)).0
  }

  /** plano.file_name: never contains a separator. */
  function FileName(file: string): (name: string)
    ensures '/' !in name
  {
    SplitPath(NormPath(file)).1
  }

  /** Joining the parent directory and the file name rebuilds the normalised path. */
  lemma ParentJoinsFileName(path: string)
    ensures Join(ParentDir(path), FileName(path)) == NormPath(path)
  {
    SplitThenJoin(NormPath(path));
  }

  /** Splitting a normal path and joining the halves gives it back. */
  lemma SplitThenJoin(q: string)
    requires Normal(q)
    ensures Join(SplitPath(q).0, SplitPath(q).1) == q
  {
    var i := LastIndex(q, '/') + 1;
    var head, tail := q[..i], q[i..];
    assert q == head + tail;
    assert !IsAbsolute(tail);
    if head != [] && !AllSlashes(head) {
      assert i >= 2;
      assert q[i - 2] != '/';
      StripOneSlash(head);
      assert q == head[..i - 1] + "/" + tail;
    }
  }

  /** A single trailing slash after a non-slash is all rstrip('/') removes. */
  lemma StripOneSlash(h: string)
    requires |h| >= 2 && h[|h| - 1] == '/' && h[|h| - 2] != '/'
    ensures StripTrailingSlashes(h) == h[..|h| - 1]
  {
    assert StripTrailingSlashes(h[..|h| - 1]) == h[..|h| - 1];
  }

  /** Whether s holds a character other than '.'. */
  predicate HasNonDot(s: string) {
    exists k | 0 <= k < |s| :: s[k] != '.'
  }

  /** os.path.splitext: the extension runs from the last dot of the final
      component, unless everything before that dot in the component is dots. */
  function SplitExt(p: string): (se: (string, string))
    ensures se.0 + se.1 == p
    ensures se.1 == [] || (se.1[0] == '.' && '.' !in se.1[1..] && '/' !in se.1)
    ensures se.1 != [] <==> exists k :: ExtensionDot(p, k)
  {
    var sep := LastIndex(p, '/');
    var dot := LastIndex(p, '.');
    ExtensionAtLastDot(p);
    if dot > sep && HasNonDot(p[sep + 1..dot]) then
      ExtensionTail(p, dot);
      (p[..dot], p[dot..])
    else (p, "")
  }

  /** Whether the dot at k can start an extension: it is in the final component,
      and that component has something other than dots before it. */
  predicate ExtensionDot(p: string, k: int) {
    var sep := LastIndex(p, '/');
    sep < k < |p| && p[k] == '.' && HasNonDot(p[sep + 1..k])
  }

  /** Some dot can start an extension exactly when the last one can. */
  lemma ExtensionAtLastDot(p: string)
    ensures var sep, dot := LastIndex(p, '/'), LastIndex(p, '.');
      (exists k :: ExtensionDot(p, k)) <==> dot > sep && HasNonDot(p[sep + 1..dot])
  {
    var sep, dot := LastIndex(p, '/'), LastIndex(p, '.');
    if dot > sep && HasNonDot(p[sep + 1..dot]) {
      assert ExtensionDot(p, dot);
    } else {
      NoExtensionDot(p);
    }
  }

  /** When the last dot of the final component has only dots before it, so has every dot there. */
  lemma NoExtensionDot(p: string)
    requires var sep, dot := LastIndex(p, '/'), LastIndex(p, '.');
      !(dot > sep && HasNonDot(p[sep + 1..dot]))
    ensures forall k :: !ExtensionDot(p, k)
  {
    var sep, dot := LastIndex(p, '/'), LastIndex(p, '.');
    forall k | sep < k < |p| && p[k] == '.'
      ensures !HasNonDot(p[sep + 1..k])
    {
      assert k <= dot;
      var before, all := p[sep + 1..k], p[sep + 1..dot];
      forall j | 0 <= j < |before|
        ensures before[j] == '.'
      {
        assert before[j] == all[j];
      }
    }
  }

  lemma ExtensionTail(p: string, dot: nat)
    requires dot < |p| && p[dot] == '.' && LastIndex(p, '/') < dot
    requires forall k :: dot < k < |p| ==> p[k] != '.'
    ensures p[..dot] + p[dot..] == p
    ensures p[dot..][0] == '.' && '.' !in p[dot..][1..] && '/' !in p[dot..]
  {
    var e := p[dot..];
    forall k | 0 <= k < |e|
      ensures e[k] != '/' && (k > 0 ==> e[k] != '.')
    {
      assert e[k] == p[dot + k];
    }
    assert e[1..] == p[dot + 1..];
  }

  predicate EndsWith(s: string, suffix: string) {
    |suffix| <= |s| && s[|s| - |suffix|..] == suffix
  }

  /** plano.name_stem: a ".tar.gz" name loses both suffixes. */
  function NameStem(file: string): (stem: string)
    ensures |stem| <= |FileName(file)| && stem == FileName(file)[..|stem|]
  {
    StemOf(FileName(file))
  }

  /** name_stem's work on the file name itself: a prefix of the name. */
  function StemOf(name: string): (stem: string)
    ensures |stem| <= |name| && stem == name[..|stem|]
  {
    var name' := if EndsWith(name, ".tar.gz") then name[..|name| - 3] else name;
    var se := SplitExt(name');
    assert name' == se.0 + se.1;
    se.0
  }

  /** plano.name_extension: the file name's last dot and what follows it, or
      nothing when that dot has only dots before it. */
  function NameExtension(file: string): (ext: string)
    ensures EndsWith(FileName(file), ext)
    ensures ext == [] || (ext[0] == '.' && '.' !in ext[1..])
    ensures ext != [] <==> exists k :: ExtensionDot(FileName(file), k)
  {
    SplitExt(FileName(file)).1
  }

  /** Outside the ".tar.gz" case, stem and extension put together give the file name. */
  lemma StemAndExtension(file: string)
    requires !EndsWith(FileName(file), ".tar.gz")
    ensures NameStem(file) + NameExtension(file) == FileName(file)
  {
  }

  /** For "x.tar.gz" the extension is ".gz" and the stem is x: the whole ".tar.gz"
      goes, unless x is nothing but dots, where only ".gz" goes. */
  lemma TarGzName(file: string, x: string)
    requires FileName(file) == x + ".tar.gz"
    ensures NameExtension(file) == ".gz"
    ensures NameStem(file) == if HasNonDot(x) then x else x + ".tar"
  {
    var name := FileName(file);
    TarGzStem(name, x);
  }

  lemma TarGzStem(name: string, x: string)
    requires name == x + ".tar.gz" && '/' !in name
    ensures SplitExt(name).1 == ".gz"
    ensures StemOf(name) == if HasNonDot(x) then x else x + ".tar"
  {
    assert '/' !in x by {
      assert forall k :: 0 <= k < |x| ==> name[k] == x[k];
    }
    assert StemOf(name) == SplitExt(x + ".tar").0 by {
      assert EndsWith(name, ".tar.gz") by {
        assert name[|name| - 7..] == ".tar.gz";
      }
      assert name[..|name| - 3] == x + ".tar";
    }
    SplitTarGz(x);
  }

  lemma SplitTarGz(x: string)
    requires '/' !in x
    ensures SplitExt(x + ".tar.gz").1 == ".gz"
    ensures SplitExt(x + ".tar").0 == if HasNonDot(x) then x else x + ".tar"
  {
    ExtensionOfTarGz(x);
    StemOfTar(x);
  }

  lemma ExtensionOfTarGz(x: string)
    requires '/' !in x
    ensures SplitExt(x + ".tar.gz").1 == ".gz"
  {
    var name := x + ".tar.gz";
    assert '/' !in name by {
      assert forall k :: 0 <= k < |x| ==> name[k] == x[k];
    }
    LastIndexNone(name, '/');
    LastIndexAt(name, '.', |x| + 4);
    SplitExtNamed(name, |x| + 4);
    assert name[..|x| + 4][|x| + 1] == 't';
    assert name[|x| + 4..] == ".gz";
  }

  lemma StemOfTar(x: string)
    requires '/' !in x
    ensures SplitExt(x + ".tar").0 == if HasNonDot(x) then x else x + ".tar"
  {
    var name := x + ".tar";
    assert name[..|x|] == x;
    assert '/' !in name by {
      assert forall k :: 0 <= k < |x| ==> name[k] == x[k];
    }
    LastIndexNone(name, '/');
    LastIndexAt(name, '.', |x|);
    SplitExtNamed(name, |x|);
  }

  /** splitext of a name without slashes, once its last dot is known. */
  lemma SplitExtNamed(p: string, dot: nat)
    requires LastIndex(p, '/') == -1 && LastIndex(p, '.') == dot
    ensures SplitExt(p) == if HasNonDot(p[..dot]) then (p[..dot], p[dot..]) else (p, "")
  {
    assert p[0..dot] == p[..dot];
  }

  /** The index of the first argument without an '=', if any. */
  function FirstWithoutEquals(args: seq<string>): (r: Option<nat>)
    ensures r.Some? ==> r.value < |args| && '=' !in args[r.value]
    ensures r.Some? ==> forall j :: 0 <= j < r.value ==> '=' in args[j]
    ensures r.None? ==> forall j :: 0 <= j < |args| ==> '=' in args[j]
  {
    if args == [] then None
    else if '=' !in args[0] then Some(0)
    else match FirstWithoutEquals(args[1..])
      case None => None
      case Some(i) => Some(i + 1)
  }

  /** plano.program_name: the file name of the first word without an '=', taken
      from the command when one is given and from the process arguments otherwise;
      nothing when every word has an '='. */
  function ProgramName(command: Option<string>, argv: seq<string>): (r: Option<string>)
    ensures var args := if command.None? then argv else Text.Words(command.value);
      && (r.None? <==> forall j :: 0 <= j < |args| ==> '=' in args[j])
      && (r.Some? ==>
            exists i :: 0 <= i < |args| && '=' !in args[i] && r.value == FileName(args[i])
                        && forall j :: 0 <= j < i ==> '=' in args[j])
  {
    var args := if command.None? then argv else Text.Words(command.value);
    match FirstWithoutEquals(args)
    case None => None
    case Some(i) => Some(FileName(args[i]))
  }
}

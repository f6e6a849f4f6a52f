/** The parts of Node's POSIX `path` module the file service and the
    responders use: `resolve` and `join` (which normalise `.`, `..` and
    repeated slashes) and `extname`. A path is handled as the list of its
    segments between slashes. The working directory is absolute, so every
    path here is absolute. */
module PosixPath {
  import opened Common

  /** A segment that names a directory entry. */
  predicate Plain(seg: string) {
    seg != [] && seg != "." && seg != ".." && '/' !in seg
  }

  predicate AllPlain(segs: seq<string>) {
    forall i :: 0 <= i < |segs| ==> Plain(segs[i])
  }

  /** One step of the normalisation: empty and `.` segments vanish, `..`
      drops the last kept segment (and nothing at the root). */
  function Step(stack: seq<string>, seg: string): seq<string> {
    if seg == [] || seg == "." then stack
    else if seg == ".." then (if stack == [] then [] else stack[..|stack| - 1])
    else stack + [seg]
  }

  /** The segments left after stepping through `segs` from `stack`. */
  function Walk(stack: seq<string>, segs: seq<string>): seq<string>
    decreases |segs|
  {
    if segs == [] then stack else Walk(Step(stack, segs[0]), segs[1..])
  }

  /** Walking keeps only plain segments. */
  lemma {:induction false} WalkPlain(stack: seq<string>, segs: seq<string>)
    requires AllPlain(stack)
    requires forall i :: 0 <= i < |segs| ==> '/' !in segs[i]
    ensures AllPlain(Walk(stack, segs))
    decreases |segs|
  {
    if segs != [] {
      WalkPlain(Step(stack, segs[0]), segs[1..]);
    }
  }

  /** Walking plain segments only appends them. */
  lemma {:induction false} WalkAppends(stack: seq<string>, segs: seq<string>)
    requires AllPlain(segs)
    ensures Walk(stack, segs) == stack + segs
    decreases |segs|
  {
    if segs != [] {
      WalkAppends(stack + [segs[0]], segs[1..]);
      assert stack + [segs[0]] + segs[1..] == stack + segs;
    }
  }

  /** The absolute path with these segments. */
  function PathOf(segs: seq<string>): string {
    "/" + Join(segs, "/")
  }

  /** The segments of `path.resolve(from, to)`: `to` alone when it is
      absolute, else `to` read from `from`. */
  function ResolvedSegments(from: string, to: string): (segs: seq<string>)
    ensures AllPlain(segs)
  {
    var base := if StartsWith(to, "/") then [] else Walk([], Split(from, '/'));
    WalkPlain([], Split(from, '/'));
    WalkPlain(base, Split(to, '/'));
    Walk(base, Split(to, '/'))
  }

  /** `path.resolve(from, to)` */
  function Resolve(from: string, to: string): (r: string)
    ensures StartsWith(r, "/")
  {
    PathOf(ResolvedSegments(from, to))
  }

  /** `path.normalize(p)` for an absolute `p`: a trailing slash is kept. */
  function Normalize(p: string): (r: string)
    ensures StartsWith(r, "/")
  {
    var segs := Walk([], Split(p, '/'));
    if segs == [] then "/" else PathOf(segs) + (if EndsWith(p, "/") then "/" else "")
  }

  /** `path.join(a, b)` for an absolute `a`. */
  function JoinPath(a: string, b: string): (r: string)
    ensures StartsWith(r, "/")
  {
    if b == [] then Normalize(a) else Normalize(a + "/" + b)
  }

  /** `path.extname(p)`: from the last `.` of the last segment, or empty
      when that segment has no `.`, starts with its only `.`, or is `..`. */
  function Extname(p: string): string
  {
    var base := AfterLast(p, '/');
    if '.' !in base then []
    else
      var r := AfterLast(base, '.');
      var i := |base| - |r| - 1;
      if i == 0 || base == ".." then [] else base[i..]
  }

  /** The extension of a name `stem.ext` is `.ext`, unless the stem is
      empty or a single dot (`.env` and `..` have none). */
  lemma ExtnameOf(stem: string, ext: string)
    requires stem != [] && stem != "." && '/' !in stem
    requires '.' !in ext && '/' !in ext
    ensures Extname(stem + "." + ext) == "." + ext
  {
    var base := stem + "." + ext;
    var k := |stem|;
    assert base[k] == '.' && base[k + 1..] == ext && base[k..] == "." + ext;
    assert base != ".." by {
      if |base| == 2 {
        assert stem == [base[0]];
      }
    }
    ExtnameAt(base, k);
  }

  /** The extension of a name whose last `.` sits at `k > 0`. */
  lemma ExtnameAt(base: string, k: nat)
    requires '/' !in base && base != ".."
    requires 0 < k < |base| && base[k] == '.' && '.' !in base[k + 1..]
    ensures Extname(base) == base[k..]
  {
    var stem, ext := base[..k], base[k + 1..];
    assert base == stem + ['.'] + ext;
    AfterLastOf(stem, '.', ext);
    AfterLastNone(base, '/');
    assert '.' in base by { assert base[k] == '.'; }
    assert |base| - |ext| - 1 == k;
  }

  /** A name without a `.` after its first character has no extension. */
  lemma NoDotNoExtname(name: string)
    requires '/' !in name && (name == [] || '.' !in name[1..])
    ensures Extname(name) == []
  {
    forall k | 1 <= k < |name|
      ensures name[k] != '.'
    {
      assert name[k] == name[1..][k - 1];
    }
  }

  /** Joining a list of segments onto another puts one `/` between them. */
  lemma {:induction false} JoinAppend(a: seq<string>, b: seq<string>)
    requires |a| >= 1 && |b| >= 1
    ensures Join(a + b, "/") == Join(a, "/") + "/" + Join(b, "/")
    decreases |a|
  {
    if |a| == 1 {
      assert (a + b)[1..] == b;
    } else {
      JoinAppend(a[1..], b);
      assert (a + b)[1..] == a[1..] + b;
    }
  }

  /** Splitting `join(r) + "/" + x` gives the segments of `r` and then those
      of `x`. */
  lemma {:induction false} SplitAfterJoin(r: seq<string>, x: string)
    requires |r| >= 1 && forall i :: 0 <= i < |r| ==> '/' !in r[i]
    ensures Split(Join(r, "/") + "/" + x, '/') == r + Split(x, '/')
    decreases |r|
  {
    if |r| == 1 {
      assert Join(r, "/") == r[0];
      SplitFirstPart(r[0], x, '/');
    } else {
      var tail := Join(r[1..], "/");
      var rest := tail + "/" + x;
      assert Join(r, "/") + "/" + x == r[0] + "/" + rest by {
        assert Join(r, "/") == r[0] + "/" + tail;
      }
      calc {
        Split(r[0] + "/" + rest, '/');
        == { SplitFirstPart(r[0], rest, '/'); }
        [r[0]] + Split(rest, '/');
        == { SplitAfterJoin(r[1..], x); }
        [r[0]] + (r[1..] + Split(x, '/'));
        == { assert r == [r[0]] + r[1..]; }
        r + Split(x, '/');
      }
    }
  }

  /** The check the code evidently means: `p` is `root` or lies below it. */
  predicate Within(p: string, root: string) {
    p == root || StartsWith(p, root + "/")
  }

  /** For normalised paths, lying within a root is having the root's
      segments as a prefix. */
  lemma WithinIffPrefix(rs: seq<string>, ss: seq<string>)
    requires AllPlain(rs) && AllPlain(ss) && |rs| >= 1
    ensures Within(PathOf(ss), PathOf(rs)) <==> |rs| <= |ss| && ss[..|rs|] == rs
  {
    if |rs| <= |ss| && ss[..|rs|] == rs {
      PrefixWithin(rs, ss);
    }
    if Within(PathOf(ss), PathOf(rs)) {
      WithinPrefix(rs, ss);
    }
  }

  lemma PrefixWithin(rs: seq<string>, ss: seq<string>)
    requires |rs| >= 1 && |rs| <= |ss| && ss[..|rs|] == rs
    ensures Within(PathOf(ss), PathOf(rs))
  {
    if |ss| > |rs| {
      var t := ss[|rs|..];
      assert ss == rs + t;
      JoinAppend(rs, t);
      assert PathOf(ss) == PathOf(rs) + "/" + Join(t, "/");
    } else {
      assert ss == rs;
    }
  }

  lemma WithinPrefix(rs: seq<string>, ss: seq<string>)
    requires AllPlain(rs) && AllPlain(ss) && |rs| >= 1
    requires Within(PathOf(ss), PathOf(rs))
    ensures |rs| <= |ss| && ss[..|rs|] == rs
  {
    var jr := Join(rs, "/");
    var js := Join(ss, "/");
    assert |jr| >= 1 by {
      if |rs| > 1 {
        assert jr == rs[0] + "/" + Join(rs[1..], "/");
      }
    }
    assert js == PathOf(ss)[1..] && jr == PathOf(rs)[1..];
    assert ss != [];
    SplitJoin(ss, '/');
    if PathOf(ss) == PathOf(rs) {
      SplitJoin(rs, '/');
    } else {
      var n := |jr| + 1;
      var x := js[n..];
      assert js[..n] == jr + "/" by {
        forall k | 0 <= k < n
          ensures js[k] == (jr + "/")[k]
        {
          assert js[k] == PathOf(ss)[k + 1];
          assert (PathOf(rs) + "/")[k + 1] == (jr + "/")[k];
        }
      }
      assert js == jr + "/" + x by {
        assert js == js[..n] + x;
      }
      SplitAfterJoin(rs, x);
    }
  }
}

/** An abstract absolute URI, the part of `System.Uri` the crawler looks at. */
module Uris {
  import opened Wrappers
  import opened Text

  /** An absolute URI: scheme, host, port (`None` when it is the scheme's default),
      path (`AbsolutePath`, starting with `/`) and query (`Query`, either empty
      or starting with `?`). Fragments and user information are not modelled. */
  datatype Uri = Uri(scheme: string, host: string, port: Option<nat>, path: string, query: string)

  /** `Uri.PathAndQuery`. */
  function PathAndQuery(u: Uri): string {
    u.path + u.query
  }

  /** `Uri.AbsoluteUri`: the canonical string of the URI. */
  function AbsoluteUri(u: Uri): string {
    u.scheme + "://" + u.host
    + (match u.port case None => "" case Some(p) => ":" + NatToString(p))
    + u.path + u.query
  }

  /** One element of `Uri.Segments`: non-empty, with a `/` at most in last position. */
  predicate IsSegment(seg: string) {
    seg != "" && '/' !in seg[..|seg| - 1]
  }

  /** A segment that ends with `/`, i.e. a directory step. */
  predicate IsClosedSegment(seg: string) {
    IsSegment(seg) && seg[|seg| - 1] == '/'
  }

  /** `Uri.Segments`: the path cut after every `/`, so `/a/b/c` gives
      `["/", "a/", "b/", "c"]` and `/a/` gives `["/", "a/"]`. */
  function Segments(path: string): (segs: seq<string>)
    ensures forall k :: 0 <= k < |segs| ==> IsSegment(segs[k])
    ensures forall k :: 0 <= k < |segs| - 1 ==> IsClosedSegment(segs[k])
    ensures |segs| == 0 <==> path == ""
  {
    if path == "" then []
    else
      var rest := Segments(path[1..]);
      if path[0] == '/' then ["/"] + rest
      else if rest == [] then [[path[0]]]
      else
        assert ([path[0]] + rest[0])[..|rest[0]|] == [path[0]] + rest[0][..|rest[0]| - 1];
        [[path[0]] + rest[0]] + rest[1..]
  }

  /** `string.Join("", segs)`. */
  function Concat(segs: seq<string>): string {
    if segs == [] then "" else segs[0] + Concat(segs[1..])
  }

  lemma {:induction false} ConcatAppend(a: seq<string>, b: seq<string>)
    ensures Concat(a + b) == Concat(a) + Concat(b)
  {
    if a != [] {
      assert (a + b)[1..] == a[1..] + b;
      ConcatAppend(a[1..], b);
    } else {
      assert a + b == b;
    }
  }

  /** The segments of a path are a partition of it: joining them gives the path back. */
  lemma {:induction false} ConcatSegments(path: string)
    ensures Concat(Segments(path)) == path
  {
    if path != "" {
      var rest := Segments(path[1..]);
      ConcatSegments(path[1..]);
      if path[0] == '/' {
        assert Segments(path) == ["/"] + rest;
        assert (["/"] + rest)[1..] == rest;
      } else if rest == [] {
      } else {
        var segs := Segments(path);
        assert segs[1..] == rest[1..];
        assert Concat(rest) == rest[0] + Concat(rest[1..]);
      }
    }
  }

  /** A directory step followed by anything is cut exactly after that step. */
  lemma {:induction false} SegmentsAfterClosed(seg: string, rest: string)
    requires IsClosedSegment(seg)
    ensures Segments(seg + rest) == [seg] + Segments(rest)
    decreases |seg|
  {
    if |seg| == 1 {
      assert seg == "/";
      assert (seg + rest)[1..] == rest;
    } else {
      assert seg[0] != '/' by { assert seg[0] == seg[..|seg| - 1][0]; }
      var tail := seg[1..];
      assert tail[..|tail| - 1] == seg[..|seg| - 1][1..];
      assert IsClosedSegment(tail);
      assert (seg + rest)[1..] == tail + rest;
      SegmentsAfterClosed(tail, rest);
      assert [seg[0]] + tail == seg;
    }
  }

  /** Cutting a concatenation of directory steps gives those steps back. */
  lemma {:induction false} SegmentsOfClosedConcat(segs: seq<string>)
    requires forall k :: 0 <= k < |segs| ==> IsClosedSegment(segs[k])
    ensures Segments(Concat(segs)) == segs
  {
    if segs != [] {
      SegmentsOfClosedConcat(segs[1..]);
      SegmentsAfterClosed(segs[0], Concat(segs[1..]));
    }
  }
}

/** `UriExtensions.GetParentUriString`: the "directory" of a page. */
module UriExtensions {
  import opened Wrappers
  import opened Uris

  /** `new Uri(u.GetParentUriString())`: the URI with its last path segment and its
      query removed. A path of at most one segment gives the authority root `/`. */
  function GetParentUri(u: Uri): (r: Uri)
    ensures r.scheme == u.scheme && r.host == u.host && r.port == u.port
    ensures r.query == ""
    ensures |Segments(u.path)| <= 1 ==> r.path == "/"
    ensures |Segments(u.path)| > 1 ==>
      var segs := Segments(u.path);
      && Segments(r.path) == segs[..|segs| - 1]
      && r.path + segs[|segs| - 1] == u.path
      && r.path < u.path
  {
    var segs := Segments(u.path);
    if |segs| <= 1 then
      Uri(u.scheme, u.host, u.port, "/", "")
    else
      var parentPath := Concat(segs[..|segs| - 1]);
      SegmentsOfClosedConcat(segs[..|segs| - 1]);
      ConcatSegments(u.path);
      ConcatAppend(segs[..|segs| - 1], [segs[|segs| - 1]]);
      assert segs[..|segs| - 1] + [segs[|segs| - 1]] == segs;
      Uri(u.scheme, u.host, u.port, parentPath, "")
  }

  lemma ParentOfFile()
    ensures GetParentUri(Uri("https", "example.com", None, "/a/b/c", "?q=1")).path == "/a/b/"
  {
    assert IsClosedSegment("/") && IsClosedSegment("a/") && IsClosedSegment("b/");
    assert Segments("c") == ["c"];
    SegmentsAfterClosed("b/", "c");
    assert "b/" + "c" == "b/c";
    SegmentsAfterClosed("a/", "b/c");
    assert "a/" + "b/c" == "a/b/c";
    SegmentsAfterClosed("/", "a/b/c");
    assert "/" + "a/b/c" == "/a/b/c";
    assert Segments("/a/b/c") == ["/", "a/", "b/", "c"];
  }

  lemma ParentOfDirectory()
    ensures GetParentUri(Uri("https", "example.com", None, "/a/b/", "")).path == "/a/"
  {
    assert IsClosedSegment("/") && IsClosedSegment("a/") && IsClosedSegment("b/");
    SegmentsAfterClosed("b/", "");
    assert "b/" + "" == "b/";
    SegmentsAfterClosed("a/", "b/");
    assert "a/" + "b/" == "a/b/";
    SegmentsAfterClosed("/", "a/b/");
    assert "/" + "a/b/" == "/a/b/";
    assert Segments("/a/b/") == ["/", "a/", "b/"];
  }

  lemma ParentOfRoot()
    ensures GetParentUri(Uri("https", "example.com", None, "/", "?x")) == Uri("https", "example.com", None, "/", "")
  {
    assert "/"[1..] == "" && Segments("/") == ["/"];
  }
}

/** `UriExtractorService.ExtractValidUrls`: the admissible links of one page. */
module UriExtractorService {
  import opened Wrappers
  import opened Seqs
  import opened Uris
  import opened UriValidator

  /** `IHtmlParser.GetLinks`: raw href values of a page, supplied by the environment. */
  type HtmlParser = string -> seq<string>

  /** The URIs the validator accepts for some raw link. */
  ghost function AcceptedUris(links: seq<string>, parent: Uri, parse: Parser): set<Uri> {
    set i | 0 <= i < |links| && IsValidUri(Some(links[i]), parent, parse).Accepted?
      :: IsValidUri(Some(links[i]), parent, parse).uri
  }

  /** The set the loop builds, in order of first acceptance. */
  function ValidUrls(links: seq<string>, parent: Uri, parse: Parser): (urls: seq<Uri>)
    ensures Distinct(urls)
    ensures |urls| <= |links|
    ensures Elements(urls) == AcceptedUris(links, parent, parse)
  {
    if links == [] then []
    else
      var prefix := links[..|links| - 1];
      var prev := ValidUrls(prefix, parent, parse);
      var v := IsValidUri(Some(links[|links| - 1]), parent, parse);
      AcceptedUrisSnoc(links, parent, parse);
      if v.Accepted? && v.uri !in prev then
        assert Elements(prev + [v.uri]) == Elements(prev) + {v.uri};
        prev + [v.uri]
      else
        prev
  }

  lemma AcceptedUrisSnoc(links: seq<string>, parent: Uri, parse: Parser)
    requires links != []
    ensures var v := IsValidUri(Some(links[|links| - 1]), parent, parse);
      AcceptedUris(links, parent, parse)
      == AcceptedUris(links[..|links| - 1], parent, parse) + (if v.Accepted? then {v.uri} else {})
  {
    var prefix := links[..|links| - 1];
    var n := |links| - 1;
    var v := IsValidUri(Some(links[n]), parent, parse);
    forall u | u in AcceptedUris(links, parent, parse)
      ensures u in AcceptedUris(prefix, parent, parse) + (if v.Accepted? then {v.uri} else {})
    {
      var i :| 0 <= i < |links| && IsValidUri(Some(links[i]), parent, parse).Accepted?
               && IsValidUri(Some(links[i]), parent, parse).uri == u;
      if i < n {
        assert prefix[i] == links[i];
      }
    }
    forall u | u in AcceptedUris(prefix, parent, parse)
      ensures u in AcceptedUris(links, parent, parse)
    {
      var i :| 0 <= i < |prefix| && IsValidUri(Some(prefix[i]), parent, parse).Accepted?
               && IsValidUri(Some(prefix[i]), parent, parse).uri == u;
      assert links[i] == prefix[i];
    }
  }

  /** Two identical accepted hrefs on one page give a single entry. */
  lemma DuplicateHrefCollapses(link: string, parent: Uri, parse: Parser)
    requires IsValidUri(Some(link), parent, parse).Accepted?
    ensures ValidUrls([link, link], parent, parse) == [IsValidUri(Some(link), parent, parse).uri]
  {
    assert [link, link][..1] == [link];
    assert [link][..0] == [];
  }

  /** `ExtractValidUrls(pageContent, parentUri)`, with the calls it makes to its
      collaborators counted: the parser is asked once, the validator once per raw
      link (duplicates included), and the duplicate-link log line never runs because
      `Add` is only reached after `Contains` was false. */
  method ExtractValidUrls(pageContent: string, parent: Uri, getLinks: HtmlParser, parse: Parser)
    returns (urls: seq<Uri>, parserCalls: nat, validatorCalls: nat, duplicateLogs: nat)
    ensures urls == ValidUrls(getLinks(pageContent), parent, parse)
    ensures Elements(urls) == AcceptedUris(getLinks(pageContent), parent, parse)
    ensures parserCalls == 1
    ensures validatorCalls == |getLinks(pageContent)|
    ensures duplicateLogs == 0
  {
    urls := [];
    duplicateLogs := 0;
    var links := getLinks(pageContent);
    parserCalls := 1;
    validatorCalls := 0;
    var i := 0;
    while i < |links|
      invariant 0 <= i <= |links|
      invariant urls == ValidUrls(links[..i], parent, parse)
      invariant validatorCalls == i
      invariant duplicateLogs == 0
    {
      var v := IsValidUri(Some(links[i]), parent, parse);
      validatorCalls := validatorCalls + 1;
      assert links[..i + 1][..i] == links[..i];
      if v.Accepted? && v.uri !in urls {
        // the result of `HashSet.Add`; always true, since the guard already ruled out
        // a duplicate, so the duplicate log never fires
        var added := v.uri !in urls;
        urls := urls + [v.uri];
        duplicateLogs := duplicateLogs + (if added then 0 else 1);
      }
      i := i + 1;
    }
    assert links[..i] == links;
  }
}

/** `UriValidator.IsValidUri`: the ordered rule chain that admits a raw href
    found on a parent page. */
module UriValidator {
  import opened Wrappers
  import opened Text
  import opened Uris
  import opened UriExtensions

  /** The rules of the chain, in the order they run. */
  datatype Rule =
    | BlankOrBookmark     // null, empty, white space only, or starting with `#`
    | Unresolvable        // not turned into an absolute URI
    | UnsupportedScheme   // scheme other than http or https
    | ForeignHost         // host differs from the parent's
    | SamePage            // same path and query as the parent

  /** The boolean result together with the `out Uri` argument. */
  datatype Verdict = Accepted(uri: Uri) | Rejected(rule: Rule, out: Option<Uri>)

  /** `Uri.TryCreate(string, UriKind.Absolute, out Uri)`: a partial parser supplied
      by the environment. */
  type Parser = string -> Option<Uri>

  /** The target of an absolute-path reference (section 5.2.2 of RFC 3986): scheme
      and authority come from the base; path and query come from the reference,
      and its fragment is dropped. Dot segments and percent-encoding are not
      normalised. */
  function ResolveAbsolutePath(base: Uri, link: string): (r: Uri)
    requires StartsWith(link, "/")
    ensures r.scheme == base.scheme && r.host == base.host && r.port == base.port
    ensures PathAndQuery(r) == Before(link, '#')
    ensures StartsWith(r.path, "/") && '?' !in r.path
  {
    var reference := Before(link, '#');
    assert link[0] == '/';
    BeforeKeepsHead(link, '#');
    var path := Before(reference, '?');
    BeforeKeepsHead(reference, '?');
    assert path + reference[|path|..] == reference;
    Uri(base.scheme, base.host, base.port, path, reference[|path|..])
  }

  /** The resolution step of the chain. A link starting with `/` is resolved against
      the parent's directory (`GetParentUriString`); a `//` link is a network-path
      reference, which takes only the scheme of that base. Anything else must parse
      as an absolute URI by itself. */
  function Resolve(link: string, parent: Uri, parse: Parser): Option<Uri> {
    if StartsWith(link, "/") then
      var base := GetParentUri(parent);
      if StartsWith(link, "//") then parse(base.scheme + ":" + link)
      else Some(ResolveAbsolutePath(base, link))
    else
      parse(link)
  }

  /** Rule 5's condition: an http(s) URI on the parent's host whose path and query
      equal the parent's, ignoring case. */
  predicate SamePageOf(u: Uri, parent: Uri) {
    && (u.scheme == "http" || u.scheme == "https") && u.host == parent.host
    && EqualsIgnoreCase(PathAndQuery(u), PathAndQuery(parent))
  }

  /** `IsValidUri(link, parentUri, out uri)`. The rules run in order and the first
      one that fails decides. */
  function IsValidUri(link: Option<string>, parent: Uri, parse: Parser): (v: Verdict)
    // rule 1: blank links and bookmarks
    ensures IsNullOrWhiteSpace(link) || StartsWith(link.value, "#") ==> v == Rejected(BlankOrBookmark, None)
    // rule 2: a link that does not resolve
    ensures v == Rejected(Unresolvable, None) <==>
      !IsNullOrWhiteSpace(link) && !StartsWith(link.value, "#") && Resolve(link.value, parent, parse).None?
    // every later verdict is about the resolved URI, which is kept in `out` past the scheme rule
    ensures v.Accepted? || (v.Rejected? && v.rule in {UnsupportedScheme, ForeignHost, SamePage}) ==>
      && !IsNullOrWhiteSpace(link) && !StartsWith(link.value, "#")
      && Resolve(link.value, parent, parse).Some?
    ensures v.Rejected? ==> (v.out.None? <==> v.rule in {BlankOrBookmark, Unresolvable, UnsupportedScheme})
    ensures v.Rejected? && v.rule in {ForeignHost, SamePage} ==> v.out == Resolve(link.value, parent, parse)
    // rule 3: scheme
    ensures v == Rejected(UnsupportedScheme, None) ==>
      var u := Resolve(link.value, parent, parse).value; u.scheme != "http" && u.scheme != "https"
    // rule 4: host
    ensures v.Rejected? && v.rule == ForeignHost ==>
      var u := v.out.value; (u.scheme == "http" || u.scheme == "https") && u.host != parent.host
    // rule 5: same page
    ensures v.Rejected? && v.rule == SamePage ==>
      var u := v.out.value;
      && (u.scheme == "http" || u.scheme == "https") && u.host == parent.host
      && EqualsIgnoreCase(PathAndQuery(u), PathAndQuery(parent))
    // rules 3-5 in the other direction: the first failing rule decides the label and `out`
    ensures !IsNullOrWhiteSpace(link) && !StartsWith(link.value, "#") && Resolve(link.value, parent, parse).Some? ==>
      var u := Resolve(link.value, parent, parse).value;
      && (u.scheme != "http" && u.scheme != "https" ==> v == Rejected(UnsupportedScheme, None))
      && ((u.scheme == "http" || u.scheme == "https") && u.host != parent.host ==> v == Rejected(ForeignHost, Some(u)))
      && (SamePageOf(u, parent) ==> v == Rejected(SamePage, Some(u)))
    // acceptance, in both directions
    ensures PassesAllRules(link, parent, parse) ==> v.Accepted?
    ensures v.Accepted? ==>
      && Resolve(link.value, parent, parse) == Some(v.uri)
      && (v.uri.scheme == "http" || v.uri.scheme == "https")
      && v.uri.host == parent.host
      && !EqualsIgnoreCase(PathAndQuery(v.uri), PathAndQuery(parent))
  {
    if IsNullOrWhiteSpace(link) || StartsWith(link.value, "#") then
      Rejected(BlankOrBookmark, None)
    else
      match Resolve(link.value, parent, parse)
      case None => Rejected(Unresolvable, None)
      case Some(uri) =>
        if uri.scheme != "http" && uri.scheme != "https" then
          Rejected(UnsupportedScheme, None)
        else if uri.host != parent.host then
          Rejected(ForeignHost, Some(uri))
        else if EqualsIgnoreCase(uri.host, parent.host)
             && EqualsIgnoreCase(PathAndQuery(uri), PathAndQuery(parent)) then
          Rejected(SamePage, Some(uri))
        else
          Accepted(uri)
  }

  /** The conjunction of all five rules, stated independently of their order. */
  predicate PassesAllRules(link: Option<string>, parent: Uri, parse: Parser) {
    && !IsNullOrWhiteSpace(link)
    && !StartsWith(link.value, "#")
    && Resolve(link.value, parent, parse).Some?
    && var u := Resolve(link.value, parent, parse).value;
    && (u.scheme == "http" || u.scheme == "https")
    && u.host == parent.host
    && !EqualsIgnoreCase(PathAndQuery(u), PathAndQuery(parent))
  }

  /** The result is true exactly when every rule passes. */
  lemma ValidIffAllRulesPass(link: Option<string>, parent: Uri, parse: Parser)
    ensures IsValidUri(link, parent, parse).Accepted? <==> PassesAllRules(link, parent, parse)
  {
  }

  /** A `/` link that is not a network-path reference resolves to the parent's scheme
      and authority with the link's own path and query; the parent's path and query
      play no part in it. */
  lemma AbsolutePathIgnoresParentPath(link: string, p1: Uri, p2: Uri, parse: Parser)
    requires StartsWith(link, "/") && !StartsWith(link, "//")
    requires p1.scheme == p2.scheme && p1.host == p2.host && p1.port == p2.port
    ensures Resolve(link, p1, parse) == Resolve(link, p2, parse)
    ensures Resolve(link, p1, parse).Some?
    ensures var u := Resolve(link, p1, parse).value;
      u.scheme == p1.scheme && u.host == p1.host && u.port == p1.port && PathAndQuery(u) == Before(link, '#')
  {
    var b1 := GetParentUri(p1);
    var b2 := GetParentUri(p2);
    assert ResolveAbsolutePath(b1, link) == ResolveAbsolutePath(b2, link);
  }

  /** An absolute same-host http(s) link to another page is returned unchanged. */
  lemma AbsoluteLinkReturnedUnchanged(link: string, parent: Uri, parse: Parser, u: Uri)
    requires link != "" && link[0] != '/' && link[0] != '#' && !IsWhiteSpace(link[0])
    requires parse(link) == Some(u)
    requires u.scheme == "http" || u.scheme == "https"
    requires u.host == parent.host
    requires !EqualsIgnoreCase(PathAndQuery(u), PathAndQuery(parent))
    ensures IsValidUri(Some(link), parent, parse) == Accepted(u)
  {
    assert !IsWhiteSpace(link[0]);
    assert !StartsWith(link, "/") && !StartsWith(link, "#") by {
      assert link[..1] == [link[0]];
    }
  }

  const ExampleRoot := Uri("https", "example.com", None, "/", "")

  /** An absolute-path link with no query and no fragment keeps its path, on the
      parent's scheme, host and port, whatever the parent's own path. */
  lemma PlainAbsolutePathResolves(link: string, parent: Uri, parse: Parser)
    requires StartsWith(link, "/") && !StartsWith(link, "//")
    requires '#' !in link && '?' !in link
    ensures Resolve(link, parent, parse) == Some(Uri(parent.scheme, parent.host, parent.port, link, ""))
  {
    BeforeAbsent(link, '#');
    BeforeAbsent(link, '?');
    var r := ResolveAbsolutePath(GetParentUri(parent), link);
    assert r.path + r.query == link;
  }

  /** The facts about the literal `/resource` that the two examples below use. */
  lemma ResourceLinkIsNotBlank()
    ensures !IsNullOrWhiteSpace(Some("/resource")) && !StartsWith("/resource", "#")
  {
    assert !IsWhiteSpace("/resource"[0]);
    assert "/resource"[..1] == "/";
  }

  lemma ResourceLinkIsPlainAbsolutePath()
    ensures StartsWith("/resource", "/") && !StartsWith("/resource", "//")
    ensures '#' !in "/resource" && '?' !in "/resource"
  {
    assert "/resource"[..1] == "/" && "/resource"[1] == 'r';
  }

  lemma ResourceLinkFacts(parent: Uri, parse: Parser)
    ensures !IsNullOrWhiteSpace(Some("/resource")) && !StartsWith("/resource", "#")
    ensures Resolve("/resource", parent, parse)
         == Some(Uri(parent.scheme, parent.host, parent.port, "/resource", ""))
  {
    ResourceLinkIsNotBlank();
    ResourceLinkIsPlainAbsolutePath();
    PlainAbsolutePathResolves("/resource", parent, parse);
  }

  /** `/resource` found on `https://example.com` is admitted as `https://example.com/resource`. */
  lemma RelativeLinkOnRootAccepted(parse: Parser)
    ensures IsValidUri(Some("/resource"), ExampleRoot, parse)
         == Accepted(Uri("https", "example.com", None, "/resource", ""))
  {
    ResourceLinkFacts(ExampleRoot, parse);
    assert |ToLower("/resource")| != |ToLower("/")|;
  }

  /** `/resource` found on `https://example.com/resource` is the page itself: rejected,
      with the resolved URI left in `out`. */
  lemma RelativeLinkToSelfRejected(parse: Parser)
    ensures var parent := Uri("https", "example.com", None, "/resource", "");
      IsValidUri(Some("/resource"), parent, parse) == Rejected(SamePage, Some(parent))
  {
    var parent := Uri("https", "example.com", None, "/resource", "");
    ResourceLinkFacts(parent, parse);
  }
}

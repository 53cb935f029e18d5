/** `DownloadedContentHandlerFactory.CreateHandler`: content-type dispatch of the
    first generation. */
module DownloadedContentHandlerFactory {
  import opened Wrappers
  import opened Text

  const HtmlContentType := "text/html"

  /** The handlers the container can supply: only the HTML one is registered. */
  datatype DownloadedContentHandler = HtmlContentHandler

  /** `CreateHandler(contentType)`: the HTML handler when the content type contains
      `text/html` (ordinal, case-sensitive); `NotSupportedException` otherwise. */
  function CreateHandler(contentType: string): (r: Outcome<DownloadedContentHandler>)
    ensures r.Returned? <==> Contains(contentType, HtmlContentType)
    ensures r.Returned? ==> r.value == HtmlContentHandler
    ensures r.Threw? ==> r.error == NotSupported
  {
    if Contains(contentType, HtmlContentType) then Returned(HtmlContentHandler)
    else Threw(NotSupported)
  }

  /** Text around an accepted content type does not matter: whatever precedes or
      follows it, the HTML handler is still chosen. */
  lemma {:induction false} AcceptedInAnyContext(before: string, contentType: string, after: string)
    requires CreateHandler(contentType).Returned?
    ensures CreateHandler(before + contentType + after) == Returned(HtmlContentHandler)
  {
    var i :| 0 <= i <= |contentType| - |HtmlContentType| && OccursAt(contentType, HtmlContentType, i);
    var s := before + contentType + after;
    assert s[|before| + i..|before| + i + |HtmlContentType|] == contentType[i..i + |HtmlContentType|];
    assert OccursAt(s, HtmlContentType, |before| + i);
  }

  /** A parameterised HTML type is accepted: the test is a substring test. */
  lemma ParameterisedHtmlAccepted()
    ensures CreateHandler("text/html; charset=utf-8") == Returned(HtmlContentHandler)
  {
    assert OccursAt("text/html; charset=utf-8", HtmlContentType, 0);
  }

  /** Matching is case-sensitive: `TEXT/HTML` is refused. */
  lemma UpperCaseHtmlRefused()
    ensures CreateHandler("TEXT/HTML") == Threw(NotSupported)
  {
    assert !OccursAt("TEXT/HTML", HtmlContentType, 0) by {
      assert "TEXT/HTML"[0] != HtmlContentType[0];
    }
  }

  /** Any other type is refused, e.g. `application/json`. */
  lemma JsonRefused()
    ensures CreateHandler("application/json") == Threw(NotSupported)
  {
    var s := "application/json";
    forall i | 0 <= i <= |s| - |HtmlContentType|
      ensures !OccursAt(s, HtmlContentType, i)
    {
      assert s[i..i + |HtmlContentType|][0] == s[i] && s[i..i + |HtmlContentType|][1] == s[i + 1];
      assert s[i] != 't' || s[i + 1] != 'e' by {
        assert i <= 7;
      }
    }
  }
}

/** `WebContentHandlerFactory.CreateHandler` and `HtmlContentHandler`: content-type
    dispatch of the second generation. */
module WebContentHandlerFactory {
  import opened Wrappers
  import opened Seqs
  import opened Text
  import opened Uris
  import opened Http
  import opened UriValidator
  import opened UriExtractorService
  import DownloadedContentHandlerFactory

  /** The handlers the container can supply: only the HTML one is registered. */
  datatype WebContentHandler = HtmlContentHandler

  /** `CreateHandler(contentType)`: the HTML handler when the content type contains
      `text/html`; `NotSupportedException` otherwise. The outcome depends on the
      content-type string alone. */
  function CreateHandler(contentType: string): (r: Outcome<WebContentHandler>)
    ensures r.Returned? <==> Contains(contentType, DownloadedContentHandlerFactory.HtmlContentType)
    ensures r.Returned? ==> r.value == HtmlContentHandler
    ensures r.Threw? ==> r.error == NotSupported
  {
    if Contains(contentType, DownloadedContentHandlerFactory.HtmlContentType) then Returned(HtmlContentHandler)
    else Threw(NotSupported)
  }

  /** Both generations of factory accept exactly the same content types. */
  lemma GenerationsAgree(contentType: string)
    ensures CreateHandler(contentType).Returned?
        <==> DownloadedContentHandlerFactory.CreateHandler(contentType).Returned?
  {
  }

  /** `HtmlContentHandler.HandleContentAsync(content, baseUri)`: always a success,
      carrying the extractor's links for the body. */
  function HandleContentAsync(handler: WebContentHandler, content: WebContent, base: Uri,
                              getLinks: HtmlParser, parse: Parser): (r: (bool, seq<Uri>))
    ensures r.0
    ensures Distinct(r.1)
    ensures Elements(r.1) == AcceptedUris(getLinks(content.content), base, parse)
  {
    (true, ValidUrls(getLinks(content.content), base, parse))
  }
}

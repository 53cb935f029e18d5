/** `CrawlResultsHandlerFactory.GetHandler`: output format to results handler. */
module CrawlResultsHandlerFactory {
  import opened Wrappers
  import opened Seqs

  /** The kinds of results handler that can be registered. */
  datatype CrawlResultsHandler = CsvCrawlResultsHandler | JsonCrawlResultsHandler

  /** `_handlers.OfType<T>().FirstOrDefault()`. */
  function FirstOfKind(handlers: seq<CrawlResultsHandler>, kind: CrawlResultsHandler): (r: Option<CrawlResultsHandler>)
    ensures r.Some? <==> kind in handlers
    ensures r.Some? ==> r.value == kind
  {
    if kind in handlers then Some(kind) else None
  }

  /** `GetHandler(handlerType)`: exactly `"csv"` selects the CSV handler, every other
      value (null included) the JSON one; null when no handler of that kind is
      registered. It never throws. */
  function GetHandler(handlerType: Option<string>, handlers: seq<CrawlResultsHandler>): (r: Option<CrawlResultsHandler>)
    ensures handlerType == Some("csv") ==>
      (r.Some? <==> CsvCrawlResultsHandler in handlers) && (r.Some? ==> r.value == CsvCrawlResultsHandler)
    ensures handlerType != Some("csv") ==>
      (r.Some? <==> JsonCrawlResultsHandler in handlers) && (r.Some? ==> r.value == JsonCrawlResultsHandler)
  {
    match handlerType
    case Some("csv") => FirstOfKind(handlers, CsvCrawlResultsHandler)
    case _ => FirstOfKind(handlers, JsonCrawlResultsHandler)
  }

  /** Upper-case `CSV`, `json` and the empty string all fall back to JSON. */
  lemma OtherFormatsSelectJson(handlers: seq<CrawlResultsHandler>)
    requires JsonCrawlResultsHandler in handlers
    ensures GetHandler(Some("CSV"), handlers) == Some(JsonCrawlResultsHandler)
    ensures GetHandler(Some("json"), handlers) == Some(JsonCrawlResultsHandler)
    ensures GetHandler(Some(""), handlers) == Some(JsonCrawlResultsHandler)
    ensures GetHandler(None, handlers) == Some(JsonCrawlResultsHandler)
  {
    assert "CSV" != "csv" by { assert "CSV"[0] != "csv"[0]; }
  }

  /** The choice depends only on the format string and on which kinds are
      registered, not on the order or number of registrations; a handler it returns
      is one of those registered. */
  lemma {:induction false} GetHandlerDependsOnRegisteredSet(
    handlerType: Option<string>, h1: seq<CrawlResultsHandler>, h2: seq<CrawlResultsHandler>)
    requires Elements(h1) == Elements(h2)
    ensures GetHandler(handlerType, h1) == GetHandler(handlerType, h2)
    ensures GetHandler(handlerType, h1).Some? ==> GetHandler(handlerType, h1).value in h1
  {
    assert CsvCrawlResultsHandler in h1 <==> CsvCrawlResultsHandler in Elements(h1);
    assert CsvCrawlResultsHandler in h2 <==> CsvCrawlResultsHandler in Elements(h2);
    assert JsonCrawlResultsHandler in h1 <==> JsonCrawlResultsHandler in Elements(h1);
    assert JsonCrawlResultsHandler in h2 <==> JsonCrawlResultsHandler in Elements(h2);
  }
}

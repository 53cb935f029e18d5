/** `CrawlTask`, its status, and `CrawlResult` without its timing. */
module CrawlModels {
  import opened Wrappers
  import opened Uris

  /** `CrawlTaskStatus`: exactly these four members; there is no `LimitReached`. */
  datatype CrawlTaskStatus = Pending | Processing | Completed | Failed

  /** A unit of crawl work. The depth is a C# `int` that only ever counts up from 0. */
  datatype CrawlTask = CrawlTask(
    uri: Uri, parentUri: Option<Uri>, status: CrawlTaskStatus, depthLevel: nat, outputFilePath: string)

  /** `new CrawlTask(uri, outputFilePath, parentUri = null, depthLevel = 0)`. */
  function NewCrawlTask(uri: Uri, outputFilePath: string, parentUri: Option<Uri> := None, depthLevel: nat := 0)
    : (t: CrawlTask)
    ensures t.status == Pending
    ensures t.uri == uri && t.outputFilePath == outputFilePath
    ensures t.parentUri == parentUri && t.depthLevel == depthLevel
  {
    CrawlTask(uri, parentUri, Pending, depthLevel, outputFilePath)
  }

  /** A seed built with the defaults is a parentless, pending task at depth 0. */
  lemma DefaultsAreSeed(uri: Uri, path: string)
    ensures NewCrawlTask(uri, path) == CrawlTask(uri, None, Pending, 0, path)
  {
  }

  /** `CrawlResult` (its `CrawlTime` is not modelled). */
  datatype CrawlResult = CrawlResult(uri: Uri, parentUri: Option<Uri>, links: seq<Uri>, level: nat)

  /** The URIs of a sequence of tasks, in order. */
  function TaskUris(tasks: seq<CrawlTask>): (us: seq<Uri>)
    ensures |us| == |tasks|
    ensures forall k :: 0 <= k < |tasks| ==> us[k] == tasks[k].uri
  {
    seq(|tasks|, k requires 0 <= k < |tasks| => tasks[k].uri)
  }
}

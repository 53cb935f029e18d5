/** `UriProcessorService.ProcessUri`: download one page, admit its links to the
    visited set, enqueue the new ones and write the page's result. */
module UriProcessorService {
  import opened Wrappers
  import opened Seqs
  import opened Uris
  import opened CrawlModels
  import opened Collaborators
  import opened CrawlResultsHandlerFactory
  import UriExtractorService
  import WebPageRepository
  import WebPageDownloaderService

  /** Where a result goes: a results handler, or the older results formatter. */
  datatype Sink = ResultsHandler(handler: CrawlResultsHandler) | ResultsFormatter

  /** One `WriteResults(filePath, results)` call. */
  datatype ResultWrite = ResultWrite(filePath: string, sink: Sink, results: seq<CrawlResult>)

  /** The child task a link of `parent` becomes. */
  predicate IsChildOf(child: CrawlTask, parent: CrawlTask) {
    child == NewCrawlTask(child.uri, parent.outputFilePath, Some(parent.uri), parent.depthLevel + 1)
  }

  /** The visited set after a batch of links, and the tasks enqueued for them. */
  datatype Admission = Admission(processed: set<Uri>, children: seq<CrawlTask>)

  /** Each link in turn is inserted into the visited set; a link whose insertion
      succeeds becomes a child task. */
  function AdmitLinks(links: seq<Uri>, processed: set<Uri>, parent: CrawlTask): (r: Admission)
    ensures r.processed == processed + Elements(links)
    ensures Distinct(TaskUris(r.children))
    ensures Elements(TaskUris(r.children)) == Elements(links) - processed
    ensures forall k :: 0 <= k < |r.children| ==> IsChildOf(r.children[k], parent)
    decreases |links|
  {
    if links == [] then Admission(processed, [])
    else
      var prev := AdmitLinks(links[..|links| - 1], processed, parent);
      var link := links[|links| - 1];
      assert links == links[..|links| - 1] + [link];
      if link in prev.processed then
        assert Elements(links) == Elements(links[..|links| - 1]) + {link};
        prev
      else
        var child := NewCrawlTask(link, parent.outputFilePath, Some(parent.uri), parent.depthLevel + 1);
        assert TaskUris(prev.children + [child]) == TaskUris(prev.children) + [link];
        DistinctAppend(TaskUris(prev.children), [link]);
        assert Elements(TaskUris(prev.children) + [link]) == Elements(TaskUris(prev.children)) + {link};
        assert Elements(links) == Elements(links[..|links| - 1]) + {link};
        Admission(prev.processed + {link}, prev.children + [child])
  }

  /** A link is enqueued exactly when it was not visited before: no URI is enqueued
      twice, and one already visited is never enqueued. */
  lemma EnqueuedIffNotVisited(links: seq<Uri>, processed: set<Uri>, parent: CrawlTask, u: Uri)
    requires u in links
    ensures u in TaskUris(AdmitLinks(links, processed, parent).children) <==> u !in processed
  {
    var children := AdmitLinks(links, processed, parent).children;
    assert u in Elements(links);
    assert u in TaskUris(children) <==> u in Elements(TaskUris(children));
  }

  /** What one `ProcessUri` call did. `statusTrail` lists the statuses assigned to the
      task, in order; `task` is the task as it ends. */
  datatype ProcessOutcome = ProcessOutcome(
    task: CrawlTask,
    statusTrail: seq<CrawlTaskStatus>,
    cache: WebPageRepository.PageCache,
    processed: set<Uri>,
    enqueued: seq<CrawlTask>,
    writes: seq<ResultWrite>,
    politenessDelays: nat,
    repositoryCalls: nat)

  /** The result a successful task writes. */
  function ResultOf(task: CrawlTask, links: seq<Uri>): (r: CrawlResult)
    ensures r.uri == task.uri && r.parentUri == task.parentUri
    ensures r.links == links && r.level == task.depthLevel
  {
    CrawlResult(task.uri, task.parentUri, links, task.depthLevel)
  }

  /** The one-second delay is taken for every task below the seeds. */
  function PolitenessDelays(task: CrawlTask): (n: nat)
    ensures n <= 1
    ensures n == 1 <==> task.depthLevel > 0
  {
    if task.depthLevel > 0 then 1 else 0
  }

  /** `ProcessUri(task)`. A null download fails the task. Otherwise the task's URI and
      then each extracted link is admitted to the visited set, new links are enqueued,
      and the result is written through the handler for the configured format;
      awaiting the missing handler when none is registered throws, which fails the
      task after its children were enqueued. */
  function ProcessUri(task: CrawlTask, cache: WebPageRepository.PageCache, processed: set<Uri>, env: Env)
    : (o: ProcessOutcome)
    ensures o.task == task.(status := o.task.status)
    ensures |o.statusTrail| == 2 && o.statusTrail[0] == Processing && o.statusTrail[1] == o.task.status
    ensures o.task.status == Completed || o.task.status == Failed
    ensures o.politenessDelays == PolitenessDelays(task)
    ensures o.repositoryCalls <= 1
    ensures var d := WebPageDownloaderService.DownloadPage(cache, task.uri, env.infrastructure, env.network(task.uri));
      && o.cache == d.cache && o.repositoryCalls == d.repositoryCalls
      && (d.content.None? ==>
            o.task.status == Failed && o.processed == processed && o.enqueued == [] && o.writes == [])
      && (d.content.Some? ==>
            var links := UriExtractorService.ValidUrls(env.getLinks(d.content.value), task.uri, env.parse);
            && o.processed == processed + {task.uri} + Elements(links)
            && Distinct(TaskUris(o.enqueued))
            && Elements(TaskUris(o.enqueued)) == Elements(links) - (processed + {task.uri})
            && (forall k :: 0 <= k < |o.enqueued| ==> IsChildOf(o.enqueued[k], task))
            && var handler := GetHandler(env.crawl.outputFormat, env.resultsHandlers);
            && (handler.None? ==> o.task.status == Failed && o.writes == [])
            && (handler.Some? ==>
                  o.task.status == Completed
                  && o.writes == [ResultWrite(task.outputFilePath, ResultsHandler(handler.value), [ResultOf(task, links)])]))
  {
    var delays := PolitenessDelays(task);
    var d := WebPageDownloaderService.DownloadPage(cache, task.uri, env.infrastructure, env.network(task.uri));
    match d.content
    case None =>
      ProcessOutcome(task.(status := Failed), [Processing, Failed], d.cache, processed, [], [], delays, d.repositoryCalls)
    case Some(html) =>
      var links := UriExtractorService.ValidUrls(env.getLinks(html), task.uri, env.parse);
      var admission := AdmitLinks(links, processed + {task.uri}, task);
      match GetHandler(env.crawl.outputFormat, env.resultsHandlers)
      case None =>
        ProcessOutcome(task.(status := Failed), [Processing, Failed], d.cache, admission.processed,
                       admission.children, [], delays, d.repositoryCalls)
      case Some(handler) =>
        ProcessOutcome(task.(status := Completed), [Processing, Completed], d.cache, admission.processed,
                       admission.children, [ResultWrite(task.outputFilePath, ResultsHandler(handler), [ResultOf(task, links)])],
                       delays, d.repositoryCalls)
  }

  /** A task completes exactly when its page arrives and a results handler for the
      configured format is registered; exactly a completed task writes, and it writes
      once. */
  lemma CompletedIffDownloadedAndHandled(task: CrawlTask, cache: WebPageRepository.PageCache, processed: set<Uri>, env: Env)
    ensures var o := ProcessUri(task, cache, processed, env);
      var d := WebPageDownloaderService.DownloadPage(cache, task.uri, env.infrastructure, env.network(task.uri));
      && (o.task.status == Completed <==> d.content.Some? && GetHandler(env.crawl.outputFormat, env.resultsHandlers).Some?)
      && (o.task.status == Completed <==> |o.writes| == 1)
      && (o.task.status == Failed <==> o.writes == [])
  {
  }

  /** What a crawl loop relies on from one processed task: the depth is kept, the
      visited set only grows, the enqueued URIs are new, distinct and visited
      afterwards, each child is one level deeper, and results are at the task's depth. */
  predicate KeepsCrawlFacts(o: ProcessOutcome, task: CrawlTask, processed: set<Uri>) {
    && o.task.depthLevel == task.depthLevel
    && processed <= o.processed
    && Distinct(TaskUris(o.enqueued))
    && Elements(TaskUris(o.enqueued)) <= o.processed
    && Elements(TaskUris(o.enqueued)) !! processed
    && (forall k :: 0 <= k < |o.enqueued| ==> IsChildOf(o.enqueued[k], task))
    && (forall k, j :: 0 <= k < |o.writes| && 0 <= j < |o.writes[k].results| ==>
          o.writes[k].results[j].level == task.depthLevel)
  }

  lemma ProcessUriKeepsCrawlFacts(task: CrawlTask, cache: WebPageRepository.PageCache, processed: set<Uri>, env: Env)
    ensures KeepsCrawlFacts(ProcessUri(task, cache, processed, env), task, processed)
  {
  }
}

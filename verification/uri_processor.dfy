/** `UriProcessor.ProcessUri`: the earlier, sequential generation of the per-task
    state machine, writing through the results formatter and without a politeness
    delay. */
module UriProcessor {
  import opened Wrappers
  import opened Seqs
  import opened Uris
  import opened CrawlModels
  import opened Collaborators
  import opened CrawlResultsHandlerFactory
  import opened UriProcessorService
  import UriExtractorService
  import WebPageRepository
  import WebPageDownloaderService

  /** `ProcessUri(task)`: a null download fails the task; otherwise the task's URI and
      then each link in order is admitted, new links are enqueued, and the one result
      is handed to the formatter. */
  function ProcessUri(task: CrawlTask, cache: WebPageRepository.PageCache, processed: set<Uri>, env: Env)
    : (o: ProcessOutcome)
    ensures o.task == task.(status := o.task.status)
    ensures |o.statusTrail| == 2 && o.statusTrail[0] == Processing && o.statusTrail[1] == o.task.status
    ensures o.politenessDelays == 0
    ensures var d := WebPageDownloaderService.DownloadPage(cache, task.uri, env.infrastructure, env.network(task.uri));
      && o.cache == d.cache && o.repositoryCalls == d.repositoryCalls
      && (d.content.None? ==>
            o.task.status == Failed && o.processed == processed && o.enqueued == [] && o.writes == [])
      && (d.content.Some? ==>
            var links := UriExtractorService.ValidUrls(env.getLinks(d.content.value), task.uri, env.parse);
            && o.task.status == Completed
            && o.processed == processed + {task.uri} + Elements(links)
            && Distinct(TaskUris(o.enqueued))
            && Elements(TaskUris(o.enqueued)) == Elements(links) - (processed + {task.uri})
            && (forall k :: 0 <= k < |o.enqueued| ==> IsChildOf(o.enqueued[k], task))
            && o.writes == [ResultWrite(task.outputFilePath, ResultsFormatter, [ResultOf(task, links)])])
  {
    var d := WebPageDownloaderService.DownloadPage(cache, task.uri, env.infrastructure, env.network(task.uri));
    match d.content
    case None =>
      ProcessOutcome(task.(status := Failed), [Processing, Failed], d.cache, processed, [], [], 0, d.repositoryCalls)
    case Some(html) =>
      var links := UriExtractorService.ValidUrls(env.getLinks(html), task.uri, env.parse);
      var admission := AdmitLinks(links, processed + {task.uri}, task);
      ProcessOutcome(task.(status := Completed), [Processing, Completed], d.cache, admission.processed,
                     admission.children, [ResultWrite(task.outputFilePath, ResultsFormatter, [ResultOf(task, links)])],
                     0, d.repositoryCalls)
  }

  /** The two generations agree on the task, the cache, the visited set and the
      enqueued children; they differ only in the delay, in where the result goes, and
      in the newer one failing when no results handler is registered. */
  lemma GenerationsAgree(task: CrawlTask, cache: WebPageRepository.PageCache, processed: set<Uri>, env: Env)
    ensures var legacy := ProcessUri(task, cache, processed, env);
      var current := UriProcessorService.ProcessUri(task, cache, processed, env);
      && legacy.cache == current.cache
      && legacy.processed == current.processed
      && legacy.enqueued == current.enqueued
      && legacy.repositoryCalls == current.repositoryCalls
      && |legacy.writes| == |current.writes| + (if GetHandler(env.crawl.outputFormat, env.resultsHandlers).None?
                                                   && legacy.task.status == Completed then 1 else 0)
      && (GetHandler(env.crawl.outputFormat, env.resultsHandlers).Some? ==>
            legacy.task == current.task
            && (forall k :: 0 <= k < |legacy.writes| ==> legacy.writes[k].results == current.writes[k].results))
  {
  }
}

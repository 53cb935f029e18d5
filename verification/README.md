# A verified model of the WebCrawler crawl engine

This project models, in Dafny, the per-link and per-task decision logic of
WebCrawler, a .NET same-host web crawler. The modelled parts are:

- **Link admission.** `UriValidator.IsValidUri` runs an ordered chain of rules on a raw href. `UriExtensions.GetParentUriString` cuts the last path segment. `UriExtractorService.ExtractValidUrls` turns a page's hrefs into a set of admissible URIs.
- **Read-through caches.** `WebPageRepository` and `WebContentRepository` put a key→value cache in front of the download clients.
- **Downloading.** The scheme gate of the two downloader services. The two download clients: the Polly retry schedule (the retry predicate, the configured count, a wait of 2^k seconds) and how responses are classified.
- **Dispatch tables.** The two content-type handler factories, and `CrawlResultsHandlerFactory`, which picks a handler from the output format.
- **Option merging.** `StartupConfiguration.MergeSettings`.
- **Crawl scheduling.**
  - The `CrawlTask` record and its status enum.
  - Seeding and the depth gate of `CrawlerBackgroundService`.
  - The per-task state machine of `UriProcessorService.ProcessUri` and of its older twin `UriProcessor.ProcessUri`.

Everything is a pure function over immutable values:

- **Uri.** A .NET `Uri` is the record `Uris.Uri`, with fields scheme, host, optional port, path and query. `Uris.Segments` computes `Uri.Segments` from the path.
- **Parsing.** `Uri.TryCreate` with `UriKind.Absolute` is the parameter `parse`.
- **HTML.** `IHtmlParser.GetLinks` is the parameter `getLinks`.
- **Network.** HTTP is an oracle `Responses = nat -> Attempt`: attempt `k` of a request gets a response, an `HttpRequestException`, or some other exception.
- **Cache.** The distributed cache is a `map` from key to entry, with no clock.
- **Visited set and queue.** The `ConcurrentDictionary` visited set is a `set<Uri>`, and `TryAdd` inserts a URI when it is not already present. The `BlockingCollection` is a FIFO `seq<CrawlTask>`.
- **The loop.** The crawl is a sequential worklist. `Step` takes one task, and `Monitor` repeats it for `fuel` takes, which stands for cancellation.
- **Exceptions.** A thrown exception is a value of `Wrappers.Outcome` or `Option`.

The main proved properties:

- **Link admission.**
  - Every accepted URI is http or https, is on the parent's host, and is not the parent page.
  - The verdict is "accepted" exactly when every rule passes.
  - The first failing rule decides the rejection, and the out URI is cleared exactly for the first three rejections.
  - A `/` link is resolved as an absolute-path reference in the sense of section 5.2.2 of RFC 3986.
- **Extraction.** The result is duplicate-free and is exactly the set of accepted URIs. The parser is called once, and the validator once per href.
- **Caches.** A hit never downloads. A miss downloads once and stores non-null content. After a miss that stored something, the next call is a hit.
- **Retries.** A retry count of `n` means at most `n + 1` attempts. Retrying stops at the first attempt that needs no retry. The wait before retry `k` is `2^k` seconds.
- **Merging.** Each field is overridden exactly when the override supplies it. The merge is idempotent and associative, and an empty override is the identity.
- **Processing one task.** The visited set only grows, the enqueued children are new and distinct, and every child is exactly one level deeper than its parent.
- **Crawl invariant.** The invariant holds between takes and is preserved by every step of the sequential worklist:
  - no URI is enqueued as a child twice;
  - no task past `MaxDepth` is handed to the processor, and no result past it is written;
  - tasks are taken in breadth-first order. This holds only because each dispatched task is processed before the next take (see "Concurrency" under "Left out").

### Behaviour of the code worth knowing

- **Retry count.** A retry count of 3 gives 4 attempts against an endpoint that always fails: 1 try plus 3 retries (`RetryPolicy.AlwaysFailingEndpoint`).
- **Seeds and the visited set.** Seeds are not inserted into the visited set. So a seed that another page links to is enqueued again as a child, and repeated seed strings each become a task, in the order of the configured list.
- **`MaxDepth` 0.** Children of depth-0 pages are still enqueued. They are dropped only when they are taken, by the depth gate.
- **Stopping early.** Only a missing `InitialCrawlUris` stops the run. A list of seeds that all fail to parse leaves an empty queue, and the loop then waits for cancellation.
- **Unsupported content.** `UriProcessorService` downloads through the page client, whose `text/html` filter turns other content into null. So a non-HTML page fails its task at the download step, not in a handler factory.
- **Politeness delay.** The delay comes after the download, and it is taken on failure as well.
- **Missing results handler.** When no handler for the configured format is registered, awaiting the null task throws. The task becomes `Failed` after its children were already enqueued.

### Signatures that do not line up in the code, modelled as each class behaves

- `UriProcessor.cs:88` reads `task.Level`, and `UriProcessorService.cs:112` sets `DepthLevel` on a `CrawlResult`. The actual names are `CrawlTask.DepthLevel` and `CrawlResult.Level`. Both are modelled as the task's depth.
- `CrawlerBackgroundService.cs:86` assigns `CrawlTaskStatus.LimitReached`, which the enum does not have. A task past the limit is dropped and keeps its `Pending` status.
- `WebContentRepository.cs:25,36` calls `GetWebContentAsync` and `SetWebContentAsync`, which the cache wrapper interface lacks. They are modelled as a plain read and a plain store of the content object.
- `IWebPageDownloaderService` does not match `WebPageDownloaderService.DownloadPage(uri, token)`, and `UriProcessor.cs:71` calls it with one argument. The cancellation token is not modelled, so both callers use the same `DownloadPage`.

## Model

| member | source | states |
|---|---|---|
| `UriExtensions.GetParentUri` | WebCrawler.Domain/Helpers/UriExtensions.cs:5-27 | Scheme, host and port are kept and the query is dropped. A path of at most one segment becomes `/`. Otherwise the segments of the result are the input's segments without the last one, the cut segment appended to the result gives the input path back, and the result is a proper prefix of the input. |
| `UriExtensions.ParentOfFile` | WebCrawler.Domain/Helpers/UriExtensions.cs:17-24 | `/a/b/c?q=1` has the parent directory `/a/b/`. |
| `UriExtensions.ParentOfDirectory` | WebCrawler.Domain/Helpers/UriExtensions.cs:17 | A trailing-slash path also loses its last segment: `/a/b/` gives `/a/`. |
| `UriExtensions.ParentOfRoot` | WebCrawler.Domain/Helpers/UriExtensions.cs:11-14 | The root keeps the path `/` and loses its query. |
| `Uris.Segments` | WebCrawler.Domain/Helpers/UriExtensions.cs:8 | Every piece of `Uri.Segments` is non-empty with no `/` before its last character, and every piece but the last is closed by a `/`. |
| `Uris.ConcatSegments` | WebCrawler.Domain/Helpers/UriExtensions.cs:17 | Joining all the segments gives the path back. |
| `Uris.SegmentsOfClosedConcat` | WebCrawler.Domain/Helpers/UriExtensions.cs:17 | A path built from closed segments splits back into exactly those segments. |
| `UriValidator.ResolveAbsolutePath` | WebCrawler.Domain/Validators/UriValidator.cs:33-34 | Resolving a `/` reference takes scheme, host and port from the base. Path plus query is the reference up to its fragment, and the path starts with `/`. |
| `UriValidator.Resolve` | WebCrawler.Domain/Validators/UriValidator.cs:27-49 | The resolution step: a `/` link is resolved against the parent's directory, a `//` link through the parser with the base's scheme, and any other link must parse as an absolute URI on its own. Its properties are stated by `AbsolutePathIgnoresParentPath` and `PlainAbsolutePathResolves`. |
| `UriValidator.IsValidUri` | WebCrawler.Domain/Validators/UriValidator.cs:15-73 | The rules apply in order. (1) A null, blank or `#` link is rejected with no out URI. (2) A link that does not resolve is rejected with no out URI, in both directions. (3) A scheme other than http/https is rejected and the out URI cleared. (4) A foreign host is rejected with the resolved URI kept. (5) The parent page itself (same host, path and query equal ignoring case) is rejected with the resolved URI kept. Otherwise the resolved URI is accepted. |
| `UriValidator.ValidIffAllRulesPass` | WebCrawler.Domain/Validators/UriValidator.cs:15-73 | A link is accepted exactly when every rule passes. |
| `UriValidator.AbsolutePathIgnoresParentPath` | WebCrawler.Domain/Validators/UriValidator.cs:27-40 | A `/` link resolves to the same URI under any two parents that share scheme, host and port. |
| `UriValidator.AbsoluteLinkReturnedUnchanged` | WebCrawler.Domain/Validators/UriValidator.cs:41-49 | A link that does not start with `/`, parses to an http/https URI on the parent's host and is not the parent page is accepted as exactly that parsed URI, unchanged. |
| `UriValidator.PlainAbsolutePathResolves` | WebCrawler.Domain/Validators/UriValidator.cs:27-40 | A `/` link with no query and no fragment resolves to the parent's scheme, host and port with the link as its path. |
| `UriValidator.RelativeLinkOnRootAccepted` | WebCrawler.Domain/Validators/UriValidator.cs:27-73 | `/resource` found on `https://example.com/` is accepted as `https://example.com/resource`. |
| `UriValidator.RelativeLinkToSelfRejected` | WebCrawler.Domain/Validators/UriValidator.cs:65-71 | `/resource` found on `https://example.com/resource` is rejected as the same page, with the resolved URI kept. |
| `UriExtractorService.ValidUrls` | WebCrawler.Domain/Services/UriExtractorService.cs:22-36 | The collected URIs have no duplicates. There are at most as many as there are raw links. As a set they are exactly the URIs the validator accepted for some raw link. |
| `UriExtractorService.ExtractValidUrls` | WebCrawler.Domain/Services/UriExtractorService.cs:20-37 | The loop builds that set. It calls the parser once and the validator once per raw link, duplicates included, and never writes the duplicate log. |
| `UriExtractorService.DuplicateHrefCollapses` | WebCrawler.Domain/Services/UriExtractorService.cs:28-30 | Two identical accepted hrefs give one entry. |
| `RetryPolicy.Execute` | WebCrawler.Infrastructure/Clients/WebPageDownloaderClient.cs:24-27 | There are between 1 and retryCount + 1 attempts, and every attempt before the last needed a retry. If the limit was not reached, the last attempt did not need one. The result is the last attempt, and the wait before retry `k` is `2^k` seconds. |
| `RetryPolicy.ShouldRetry` | WebCrawler.Infrastructure/Clients/WebPageDownloaderClient.cs:25-26 | The policy retries exactly a response with a non-success status and an `HttpRequestException`; `Execute` states how the attempts follow from it. |
| `RetryPolicy.Pow2Add` | WebCrawler.Infrastructure/Clients/WebPageDownloaderClient.cs:27 | `2^(a+b) = 2^a * 2^b` for the integer powers of two that stand for `Math.Pow(2, k)`. |
| `RetryPolicy.WaitsDouble` | WebCrawler.Infrastructure/Clients/WebPageDownloaderClient.cs:27 | The back-off is exponential: each wait is twice the one before it. |
| `RetryPolicy.ExecuteStopsAtFirstSettled` | WebCrawler.Infrastructure/Clients/WebPageDownloaderClient.cs:25-27 | When the first `n` attempts need a retry and attempt `n` does not (or `n` is the limit), exactly `n + 1` attempts are made. |
| `RetryPolicy.AlwaysFailingEndpoint` | WebCrawler.Infrastructure/Clients/WebPageDownloaderClient.cs:27 | With retry count 3 against a constant 500 there are 4 attempts, with waits of 2, 4 and 8 seconds. |
| `WebPageDownloaderClient.DownloadPageAsync` | WebCrawler.Infrastructure/Clients/WebPageDownloaderClient.cs:34-68 | The page comes back, as the body of the final response, exactly when that response has a success status and a media type containing `text/html`. Otherwise, including any exception, the result is null. |
| `WebPageDownloaderClient.HandleFailureCases` | WebCrawler.Infrastructure/Clients/WebPageDownloaderClient.cs:51-68 | A final response is discarded when its status is not a success or its media type is missing or does not contain `text/html`. `DownloadPageAsync` states what the client returns because of it. |
| `WebPageDownloaderClient.AlwaysServerErrorYieldsNull` | WebCrawler.Infrastructure/Clients/WebPageDownloaderClient.cs:40-57 | An endpoint that always answers 500 yields null. |
| `WebContentDownloaderClient.DownloadAsync` | WebCrawler.Infrastructure/Clients/WebContentDownloaderClient.cs:35-66 | Content comes back exactly when the final response has a success status. It carries the body and the media type, whatever the type. Otherwise, including any exception, the result is null. |
| `WebContentDownloaderClient.HandleFailureCases` | WebCrawler.Infrastructure/Clients/WebContentDownloaderClient.cs:58-66 | A final response is discarded only when its status is not a success. |
| `WebContentDownloaderClient.PageClientDiscardsMore` | WebCrawler.Infrastructure/Clients/WebContentDownloaderClient.cs:58-66 | The page client discards every response the content client discards, and beyond those exactly the successful responses whose media type is missing or not HTML. |
| `WebContentDownloaderClient.PageClientFiltersContentClient` | WebCrawler.Infrastructure/Clients/WebContentDownloaderClient.cs:58-66 | The page client's result is the content client's result filtered by the `text/html` media-type test, and nothing else. |
| `WebContentDownloaderClient.NonHtmlContentReturned` | WebCrawler.Infrastructure/Clients/WebContentDownloaderClient.cs:43-49 | A successful JSON response is returned with its content type. |
| `WebPageRepository.CacheKey` | WebCrawler.Infrastructure/Repository/WebPageRepository.cs:27 | The key is `WebPage_` followed by the absolute URI. |
| `WebPageRepository.GetWebPageAsync` | WebCrawler.Infrastructure/Repository/WebPageRepository.cs:25-46 | The cache is read once per call. A non-empty cached value is returned with no download. A null or empty value is a miss with exactly one download. A null download leaves the cache unchanged and returns null. A non-null download is stored with the configured TTL and returned. A missing or non-positive TTL throws, with the cache unchanged. |
| `WebPageRepository.SecondCallServedFromCache` | WebCrawler.Infrastructure/Repository/WebPageRepository.cs:30-42 | After a call that returned non-empty content, the next call for the same URI downloads nothing and returns the same content, with the same cache. |
| `WebPageRepository.EmptyPageDownloadedAgain` | WebCrawler.Infrastructure/Repository/WebPageRepository.cs:30-42 | An empty page is stored but still counts as a miss, so the next call downloads again. |
| `WebContentRepository.GetWebPageAsync` | WebCrawler.Infrastructure/Repository/WebContentRepository.cs:22-40 | Any cached object is a hit with no download. A miss downloads exactly once. A non-null download is stored under the key and returned, and a null one leaves the cache unchanged. |
| `WebContentRepository.HitAfterSuccessfulMiss` | WebCrawler.Infrastructure/Repository/WebContentRepository.cs:27-37 | After a miss that downloaded content, the next call for the same URI is a hit with no download. |
| `WebPageDownloaderService.DownloadPage` | WebCrawler.Domain/Services/WebPageDownloaderService.cs:18-34 | A scheme other than http/https, compared after lower-casing, gives null without calling the repository. Otherwise the repository is called once and its result returned, with an exception turned into null. |
| `WebPageDownloaderService.FtpRefused` | WebCrawler.Domain/Services/WebPageDownloaderService.cs:22-25 | An `ftp` URI gives null with no repository call and the cache unchanged. |
| `WebPageDownloaderService.UpperCaseSchemeAccepted` | WebCrawler.Domain/Services/WebPageDownloaderService.cs:22 | The scheme is lower-cased before the test, so `HTTP` passes the gate. |
| `WebContentDownloaderService.DownloadContent` | WebCrawler.Domain/Services/WebContentDownloaderService.cs:19-35 | The same scheme gate in front of the content repository. It makes at most one repository call, and an exception gives null. |
| `WebContentDownloaderService.SecondCallRepeatsFirst` | WebCrawler.Domain/Services/WebContentDownloaderService.cs:19-35 | After a call that returned content, a second call for the same URI returns the same content and leaves the cache as it was. |
| `WebContentDownloaderService.ServicesAgreeOnColdCache` | WebCrawler.Domain/Services/WebContentDownloaderService.cs:19-35 | On empty caches with a positive TTL, the page service returns a page exactly when the content service returns content with an HTML media type, and then the page is that content's body. |
| `DownloadedContentHandlerFactory.CreateHandler` | WebCrawler.Domain/Services/DownloadedContentHandlerFactory.cs:17-26 | The HTML handler comes back exactly when the content type contains `text/html` as an ordinal substring. Otherwise `NotSupportedException` is thrown. |
| `DownloadedContentHandlerFactory.AcceptedInAnyContext` | WebCrawler.Domain/Services/DownloadedContentHandlerFactory.cs:19 | An accepted content type stays accepted whatever text is put before or after it, since the test is a substring test. |
| `DownloadedContentHandlerFactory.ParameterisedHtmlAccepted` | WebCrawler.Domain/Services/DownloadedContentHandlerFactory.cs:19 | `text/html; charset=utf-8` is accepted. |
| `DownloadedContentHandlerFactory.UpperCaseHtmlRefused` | WebCrawler.Domain/Services/DownloadedContentHandlerFactory.cs:19 | `TEXT/HTML` is refused, because matching is case-sensitive. |
| `DownloadedContentHandlerFactory.JsonRefused` | WebCrawler.Domain/Services/DownloadedContentHandlerFactory.cs:25 | `application/json` throws `NotSupportedException`. |
| `WebContentHandlerFactory.CreateHandler` | WebCrawler.Domain/Services/WebContentHandlerFactory.cs:17-26 | The same substring dispatch for the second generation of handlers. |
| `WebContentHandlerFactory.GenerationsAgree` | WebCrawler.Domain/Services/WebContentHandlerFactory.cs:17-26 | Both factories accept and refuse exactly the same content types, so the outcome depends only on the string. |
| `WebContentHandlerFactory.HandleContentAsync` | WebCrawler.Domain/Services/HtmlContentHandler.cs:15-19 | The HTML handler always reports success. Its links are exactly the URIs the validator accepts from the page, without duplicates. |
| `CrawlResultsHandlerFactory.GetHandler` | WebCrawler.Executor/Services/CrawlResultsHandler/CrawlResultsHandlerFactory.cs:14-21 | Exactly `"csv"` selects the CSV handler, and every other value, null included, selects the JSON one. The result is null exactly when no handler of that kind is registered. |
| `CrawlResultsHandlerFactory.FirstOfKind` | WebCrawler.Executor/Services/CrawlResultsHandler/CrawlResultsHandlerFactory.cs:18-19 | `OfType<T>().FirstOrDefault()` gives a handler of the asked kind exactly when one is registered, and null otherwise. |
| `CrawlResultsHandlerFactory.GetHandlerDependsOnRegisteredSet` | WebCrawler.Executor/Services/CrawlResultsHandler/CrawlResultsHandlerFactory.cs:14-21 | The choice depends only on the format string and on which kinds are registered, not on their order or number, and a returned handler is one of those registered. |
| `CrawlResultsHandlerFactory.OtherFormatsSelectJson` | WebCrawler.Executor/Services/CrawlResultsHandler/CrawlResultsHandlerFactory.cs:19 | `"CSV"`, `"json"`, `""` and null all select the JSON handler. |
| `StartupConfiguration.MergeSettings` | WebCrawler.Executor/Helpers/StartupConfiguration.cs:36-59 | Each string field is the override's exactly when that is non-null and non-empty. `MaxDepth` is the override's exactly when it has a value. Otherwise each field is the base's. |
| `StartupConfiguration.EmptyOverrideIsIdentity` | WebCrawler.Executor/Helpers/StartupConfiguration.cs:36-59 | An override that supplies nothing leaves the base unchanged. |
| `StartupConfiguration.MergeIdempotent` | WebCrawler.Executor/Helpers/StartupConfiguration.cs:36-59 | Merging the same override twice is the same as merging it once. |
| `StartupConfiguration.MergeAssociative` | WebCrawler.Executor/Helpers/StartupConfiguration.cs:36-59 | Merging two overrides in turn is the same as merging their merge. |
| `StartupConfiguration.FieldsIndependent` | WebCrawler.Executor/Helpers/StartupConfiguration.cs:36-59 | Each output field depends only on its own base and override values. |
| `CrawlModels.NewCrawlTask` | WebCrawler.Executor/Models/CrawlTask.cs:12-19 | A new task is `Pending`, and the URI, output path, parent and depth are stored as given. |
| `CrawlModels.DefaultsAreSeed` | WebCrawler.Executor/Models/CrawlTask.cs:12 | By default the parent is null and the depth is 0. |
| `UriProcessorService.AdmitLinks` | WebCrawler.Executor/Services/UriProcessorService.cs:89-104 | The visited set grows by exactly the links. The enqueued tasks have distinct URIs, which are exactly the links that were not visited before. Each is a pending child one level deeper than its parent, with the parent's URI as its parent and the parent's output path. |
| `UriProcessorService.EnqueuedIffNotVisited` | WebCrawler.Executor/Services/UriProcessorService.cs:96-100 | A link is enqueued exactly when its insertion into the visited set succeeds. |
| `UriProcessorService.PolitenessDelays` | WebCrawler.Executor/Services/UriProcessorService.cs:83-87 | One delay is taken exactly when the depth is above 0. |
| `UriProcessorService.ProcessUri` | WebCrawler.Executor/Services/UriProcessorService.cs:40-116 | The status becomes `Processing` first and ends as `Completed` or `Failed`. The delay is taken whatever happens next. A null download fails the task with no children, no write and the visited set unchanged. Otherwise the task's URI and the extracted links join the visited set and exactly the new links are enqueued as children. With a registered results handler, one result carrying the URI, parent, links and depth is written and the task completes. Without one, the task fails with nothing written. |
| `UriProcessorService.CompletedIffDownloadedAndHandled` | WebCrawler.Executor/Services/UriProcessorService.cs:51-62 | A task completes exactly when its page arrives and a handler is registered. A task writes one result exactly when it completes, and none exactly when it fails. |
| `UriProcessorService.ProcessUriKeepsCrawlFacts` | WebCrawler.Executor/Services/UriProcessorService.cs:89-115 | Processing keeps the depth and only grows the visited set. The enqueued URIs are new, distinct and visited afterwards, each child is one level deeper, and every result is at the task's depth. |
| `UriProcessor.ProcessUri` | WebCrawler.Executor/UriProcessor/UriProcessor.cs:36-104 | `Processing` first. A null download fails the task with nothing else done. Otherwise the task's URI and then each link in turn is admitted, the new links are enqueued, exactly one result goes to the formatter, and the task completes. No delay is taken. |
| `UriProcessor.GenerationsAgree` | WebCrawler.Executor/UriProcessor/UriProcessor.cs:36-104 | Both generations leave the same cache, visited set and children. With a handler registered they end the task the same way and write the same results. Without one, only the older generation writes. |
| `CrawlerBackgroundService.GetConfigValues` | WebCrawler.Executor/CrawlerBackgroundService.cs:53-59 | There are no seeds exactly when `InitialCrawlUris` is null. Otherwise there is at least one piece, no piece contains a comma, and joining them with commas gives the option back. |
| `CrawlerBackgroundService.CreateTasksForInitialUris` | WebCrawler.Executor/CrawlerBackgroundService.cs:61-76 | Every task is a parentless, pending, depth-0 task with the shared output path. Their URIs are exactly those of the seeds that parse, and there are exactly as many tasks as seed positions that parse, repeats included. |
| `CrawlerBackgroundService.RepeatedSeedGivesTwoTasks` | WebCrawler.Executor/CrawlerBackgroundService.cs:65-75 | The same seed given twice makes two tasks. |
| `CrawlerBackgroundService.TasksOfPrefixComeFirst` | WebCrawler.Executor/CrawlerBackgroundService.cs:65-75 | The tasks of the first `n` seeds are a prefix of the tasks of all the seeds. |
| `CrawlerBackgroundService.TaskOfSeedPosition` | WebCrawler.Executor/CrawlerBackgroundService.cs:65-75 | Each seed that parses has its own task at its place in the list: right after the tasks of the parsing seeds before it, carrying that seed's URI, even when the same seed came earlier. So the tasks follow the configured list one for one. |
| `CrawlerBackgroundService.NoLimitWithoutMaxDepth` | WebCrawler.Executor/CrawlerBackgroundService.cs:84 | Without `MaxDepth` every pending task is dispatched. |
| `CrawlerBackgroundService.Step` | WebCrawler.Executor/CrawlerBackgroundService.cs:80-94 | The oldest task is taken and the rest keep their order ahead of any new children. A task is dispatched exactly when it is within the depth limit and pending. A task that is not dispatched changes nothing else. |
| `CrawlerBackgroundService.SeededInv` | WebCrawler.Executor/CrawlerBackgroundService.cs:61-76 | The invariant holds after seeding. |
| `CrawlerBackgroundService.StepInv` | WebCrawler.Executor/CrawlerBackgroundService.cs:78-95 | One take keeps the invariant: waiting tasks are pending; no URI was enqueued as a child twice, and each such URI is visited; nothing past `MaxDepth` was dispatched or written; tasks are taken in breadth-first order, as the sequential worklist takes them. |
| `CrawlerBackgroundService.DispatchInv` | WebCrawler.Executor/CrawlerBackgroundService.cs:84-93 | A take that hands a pending task within the limit to the processor keeps the invariant. |
| `CrawlerBackgroundService.StepKeepsInv` | WebCrawler.Executor/CrawlerBackgroundService.cs:80-94 | Any take from a non-empty queue leaves the invariant holding if it held before; this is the form the loop uses. |
| `CrawlerBackgroundService.BreadthFirstTake` | WebCrawler.Executor/CrawlerBackgroundService.cs:82 | Taking the head of a depth-sorted queue and appending children one level deeper keeps the queue sorted and within two adjacent depths. Nothing taken is ever deeper than a waiting task. This is about the sequential worklist, where each dispatched task is processed before the next take. |
| `CrawlerBackgroundService.DispatchPreserves` | WebCrawler.Executor/CrawlerBackgroundService.cs:90-93 | Dispatching a task within the limit keeps the invariant, given any processing outcome that keeps the crawl facts. |
| `CrawlerBackgroundService.Monitor` | WebCrawler.Executor/CrawlerBackgroundService.cs:78-95 | The loop keeps the invariant, only grows the visited set and the record of taken tasks, and stops early only when the queue is empty. |
| `CrawlerBackgroundService.ExecuteAsync` | WebCrawler.Executor/CrawlerBackgroundService.cs:37-51 | The run does nothing exactly when no seeds are configured. Otherwise the invariant holds when it stops. |
| `CrawlerBackgroundService.SeedsOnlyAtDepthZero` | WebCrawler.Executor/CrawlerBackgroundService.cs:84-88 | With `MaxDepth` 0, only depth-0 tasks are dispatched and every result written is at level 0. |
| `Text.JoinSplit` | WebCrawler.Executor/CrawlerBackgroundService.cs:55 | `Split(",")` keeps every piece, empty ones included: joining the pieces gives the string back. |

## Left out

- **Concurrency.** `BlockingCollection`, `Task.Run`, `Parallel.ForEachAsync`, `Task.WhenAll`, cancellation tokens and the blocking take are replaced by a sequential worklist. A fire-and-forget `Task.Run` is modelled as processing the task at once. The breadth-first take order is a property of this sequential worklist only: in the service, a slow page can enqueue its depth-1 children after a faster sibling's depth-2 grandchildren, which are then taken first. The order in which `Parallel.ForEachAsync` visits links is modelled as link order; the set of enqueued URIs does not depend on it.
- **Cancellation.** `Monitor` stops after `fuel` takes. A blocked take on an empty queue is modelled as stopping, so the model says nothing about work that arrives after the last take.
- **Polly and time.** Polly's engine, the retry log callback and real sleeping are left out. Waits are integer seconds, `Pow2` is used instead of `Math.Pow`, and the politeness delay is a count.
- RetryPolicy.Execute: does not model the `OverflowException` of `TimeSpan.FromSeconds(Math.Pow(2, k))` once `2^k` seconds exceeds `TimeSpan.MaxValue`, first at retry 40. In the code that exception leaves the policy and the clients' catch-all turns it into null, so with `PollyRetryCount` of 40 or more and 40 retryable failures in a row the code returns null where the model keeps retrying. No realistic configuration reaches it: the waits before retry 40 already add up to more than 30,000 years.
- **Stopwatch.** The `Stopwatch` and `CrawlResult.CrawlTime` are dropped.
- **HTTP.** `HttpClient` is replaced by the attempt oracle, and headers such as User-Agent are not modelled.
- **Cache wrapper and expiry.** The cache wrapper and TTL expiry are not modelled. The TTL is stored with the entry but never expires.
- **HTML parsing.** `HtmlAgilityParser` (HtmlAgilityPack's XPath engine) is the uninterpreted `getLinks`.
- **Result output.** The results handlers and formatters (CSV and JSON serialisation, file I/O) appear only as the write requests they receive.
- **Host plumbing.** `StartupConfiguration.Setup`, `Program.cs`, the dependency-injection extensions, `OutputPathHelper` and `GetAbsoluteOutputPathFromConfig` are not modelled. They use the file system, the clock and `Guid`; the output path is a parameter.
- **Full `Uri` parsing.** Fragments, percent-encoding, IDN, default ports, user info, dot segments and case normalisation are left out. `Uris.Uri` has no fragment, and resolution drops a link's `#...` part, whereas the resolved .NET `Uri` keeps it, and so does the `AbsoluteUri` written to the results. Parsing is the oracle `parse`. The resolution of `//` links goes through that oracle too. `Uri` equality in the visited set and the extractor's `HashSet` is equality of the record.
- **`WebContent`.** The `WebContent` class is not part of this model's sources. Its two fields (content, content type) are inferred from how the clients and handlers use it.
- **Parser and results-handler failures.** `getLinks` is total and a write request always succeeds. In the code, `HtmlAgilityParser.GetLinks` rethrows a parser error and a results handler can throw on file I/O; either fails the task through the catch block of `ProcessUri`. So `UriProcessorService.CompletedIffDownloadedAndHandled` holds only under the assumption that neither throws. A parser failure would fail the task before its URI joins the visited set, and a write failure would fail it after its children were enqueued.
- **Culture-dependent string comparison.** `Text.EqualsIgnoreCase` folds ASCII letters only. The code compares with `CurrentCultureIgnoreCase`, which depends on the culture (the Turkish dotted and dotless `I`, for example) and folds non-ASCII letters too. `Text.StartsWith` is an ordinal prefix test, while `link.StartsWith("#")` and `link.StartsWith("/")` use the culture-sensitive overload, which skips ignorable code points: a soft hyphen before `#` still makes a bookmark in the code, and a zero-width space before `/` still takes the absolute-path branch, but not in the model. `Text.IsWhiteSpace` covers the full set `char.IsWhiteSpace` accepts.
- **Logging.** Logging, the interfaces and the unit-test helpers are not modelled.
- **Integer widths.** `CrawlTask.DepthLevel` is an unbounded `nat`. The C# `int` would wrap only after 2^31 levels, which no crawl reaches. The retry waits are unbounded too (see `RetryPolicy.Execute` below).
- **Retry-count errors at construction.** A missing `PollyRetryCount` throws when the clients are built. The model takes the count as a `nat`, as if that read succeeded.
- **Null content type.** `CreateHandler` with a null content type would throw a `NullReferenceException`. The models of both factories take a non-null string, as their signatures declare.
- **Non-HTTP exceptions.** An exception other than `HttpRequestException` inside the retry loop is the `OtherFailure` attempt. Polly does not retry it, and the client maps it to null.

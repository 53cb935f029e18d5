/** `CrawlerBackgroundService`: seeding the queue from the configured URIs and the
    loop that takes tasks off it, run here as a sequential worklist. */
module CrawlerBackgroundService {
  import opened Wrappers
  import opened Seqs
  import opened Text
  import opened Uris
  import opened Config
  import opened CrawlModels
  import opened Collaborators
  import opened UriValidator
  import opened UriProcessorService
  import WebPageRepository

  /** `GetConfigValues`: the seed strings, from splitting `InitialCrawlUris` on commas.
      Only a missing option stops the run, since a split always has a piece. */
  function GetConfigValues(options: CrawlOptions): (seeds: Option<seq<string>>)
    ensures seeds.None? <==> options.initialCrawlUris.None?
    ensures seeds.Some? ==> |seeds.value| >= 1
    ensures seeds.Some? ==> forall k :: 0 <= k < |seeds.value| ==> ',' !in seeds.value[k]
    ensures seeds.Some? ==> Join(seeds.value, ',') == options.initialCrawlUris.value
  {
    match options.initialCrawlUris
    case None => None
    case Some(uris) =>
      JoinSplit(uris, ',');
      Some(Split(uris, ','))
  }

  /** The URIs of the seeds that parse as absolute URIs. */
  ghost function ParsedSeeds(seeds: seq<string>, parse: Parser): set<Uri> {
    set i | 0 <= i < |seeds| && parse(seeds[i]).Some? :: parse(seeds[i]).value
  }

  /** The positions of the seeds that parse as absolute URIs. */
  ghost function ParsedPositions(seeds: seq<string>, parse: Parser): set<int> {
    set i | 0 <= i < |seeds| && parse(seeds[i]).Some?
  }

  lemma ParsedPositionsSnoc(seeds: seq<string>, parse: Parser)
    requires seeds != []
    ensures var n := |seeds| - 1;
      ParsedPositions(seeds, parse)
      == ParsedPositions(seeds[..n], parse) + (if parse(seeds[n]).Some? then {n} else {})
  {
    var n := |seeds| - 1;
    forall i | 0 <= i < n
      ensures seeds[..n][i] == seeds[i]
    {
    }
  }

  lemma ParsedPositionsCountSnoc(seeds: seq<string>, parse: Parser)
    requires seeds != []
    ensures var n := |seeds| - 1;
      |ParsedPositions(seeds, parse)|
      == |ParsedPositions(seeds[..n], parse)| + (if parse(seeds[n]).Some? then 1 else 0)
  {
    var n := |seeds| - 1;
    ParsedPositionsSnoc(seeds, parse);
    assert n !in ParsedPositions(seeds[..n], parse);
  }

  /** `CreateTasksForInitialUris`: one parentless, pending, depth-0 task per seed that
      parses, in seed order, all writing to the same output file; a seed that does
      not parse is skipped. The visited set is not consulted, so repeated seeds each
      make a task. */
  function CreateTasksForInitialUris(seeds: seq<string>, outputPath: string, parse: Parser): (tasks: seq<CrawlTask>)
    ensures |tasks| <= |seeds|
    ensures forall k :: 0 <= k < |tasks| ==> tasks[k] == NewCrawlTask(tasks[k].uri, outputPath)
    ensures Elements(TaskUris(tasks)) == ParsedSeeds(seeds, parse)
    ensures |tasks| == |ParsedPositions(seeds, parse)|
    decreases |seeds|
  {
    if seeds == [] then
      assert ParsedPositions(seeds, parse) == {};
      []
    else
      var prefix := seeds[..|seeds| - 1];
      var prev := CreateTasksForInitialUris(prefix, outputPath, parse);
      ParsedSeedsSnoc(seeds, parse);
      ParsedPositionsCountSnoc(seeds, parse);
      match parse(seeds[|seeds| - 1])
      case None => prev
      case Some(u) =>
        assert TaskUris(prev + [NewCrawlTask(u, outputPath)]) == TaskUris(prev) + [u];
        assert Elements(TaskUris(prev) + [u]) == Elements(TaskUris(prev)) + {u};
        prev + [NewCrawlTask(u, outputPath)]
  }

  lemma ParsedSeedsSnoc(seeds: seq<string>, parse: Parser)
    requires seeds != []
    ensures var p := parse(seeds[|seeds| - 1]);
      ParsedSeeds(seeds, parse)
      == ParsedSeeds(seeds[..|seeds| - 1], parse) + (if p.Some? then {p.value} else {})
  {
    var prefix := seeds[..|seeds| - 1];
    var p := parse(seeds[|seeds| - 1]);
    forall u | u in ParsedSeeds(seeds, parse)
      ensures u in ParsedSeeds(prefix, parse) + (if p.Some? then {p.value} else {})
    {
      var i :| 0 <= i < |seeds| && parse(seeds[i]).Some? && parse(seeds[i]).value == u;
      if i < |prefix| {
        assert prefix[i] == seeds[i];
      }
    }
    forall u | u in ParsedSeeds(prefix, parse)
      ensures u in ParsedSeeds(seeds, parse)
    {
      var i :| 0 <= i < |prefix| && parse(prefix[i]).Some? && parse(prefix[i]).value == u;
      assert seeds[i] == prefix[i];
    }
  }

  /** The tasks of the first `n` seeds come first, in the same order: seeding keeps
      the order of the configured list. */
  lemma {:induction false} TasksOfPrefixComeFirst(seeds: seq<string>, n: nat, outputPath: string, parse: Parser)
    requires n <= |seeds|
    ensures CreateTasksForInitialUris(seeds[..n], outputPath, parse)
         <= CreateTasksForInitialUris(seeds, outputPath, parse)
    decreases |seeds|
  {
    if n < |seeds| {
      var prefix := seeds[..|seeds| - 1];
      assert prefix[..n] == seeds[..n];
      TasksOfPrefixComeFirst(prefix, n, outputPath, parse);
    } else {
      assert seeds[..n] == seeds;
    }
  }

  /** The task of each seed that parses sits at its place in the list: seed `n` gives
      the task right after those of the parsing seeds before it, with its own URI,
      whether or not the same seed occurred earlier. */
  lemma {:induction false} TaskOfSeedPosition(seeds: seq<string>, n: nat, outputPath: string, parse: Parser)
    requires n < |seeds| && parse(seeds[n]).Some?
    ensures var tasks := CreateTasksForInitialUris(seeds, outputPath, parse);
      var k := |ParsedPositions(seeds[..n], parse)|;
      k < |tasks| && tasks[k] == NewCrawlTask(parse(seeds[n]).value, outputPath)
    decreases |seeds|
  {
    var m := |seeds| - 1;
    var prefix := seeds[..m];
    var prev := CreateTasksForInitialUris(prefix, outputPath, parse);
    var tasks := CreateTasksForInitialUris(seeds, outputPath, parse);
    var k := |ParsedPositions(seeds[..n], parse)|;
    if n < m {
      assert prefix[..n] == seeds[..n] && prefix[n] == seeds[n];
      TaskOfSeedPosition(prefix, n, outputPath, parse);
      TasksOfPrefixComeFirst(seeds, m, outputPath, parse);
      assert tasks[..|prev|] == prev;
      assert tasks[k] == prev[k];
    } else {
      assert tasks == prev + [NewCrawlTask(parse(seeds[m]).value, outputPath)];
    }
  }

  /** The same seed twice gives two tasks. */
  lemma RepeatedSeedGivesTwoTasks(seed: string, outputPath: string, parse: Parser)
    requires parse(seed).Some?
    ensures CreateTasksForInitialUris([seed, seed], outputPath, parse)
         == [NewCrawlTask(parse(seed).value, outputPath), NewCrawlTask(parse(seed).value, outputPath)]
  {
    assert [seed, seed][..1] == [seed];
    assert [seed][..0] == [];
  }

  /** `task.DepthLevel > MaxDepth` on a nullable depth: false when no depth is set. */
  predicate DepthLimitReached(task: CrawlTask, maxDepth: Option<int>) {
    maxDepth.Some? && task.depthLevel > maxDepth.value
  }

  /** A taken task is handed to the processor when it is within the depth limit and
      still pending. */
  predicate Dispatches(task: CrawlTask, maxDepth: Option<int>) {
    !DepthLimitReached(task, maxDepth) && task.status == Pending
  }

  /** Without `MaxDepth` every pending task is dispatched. */
  lemma NoLimitWithoutMaxDepth(task: CrawlTask)
    ensures Dispatches(task, None) <==> task.status == Pending
  {
  }

  /** The crawl between takes. `taken` lists every task taken from the queue, in
      order; `dispatched` the tasks handed to the processor, as they ended; `admitted`
      the URI of every child task enqueued. */
  datatype CrawlState = CrawlState(
    queue: seq<CrawlTask>,
    processed: set<Uri>,
    cache: WebPageRepository.PageCache,
    taken: seq<CrawlTask>,
    dispatched: seq<CrawlTask>,
    writes: seq<ResultWrite>,
    admitted: seq<Uri>)

  /** One turn of `MonitorAndProcessCrawlTasks`: take the oldest task; drop it if it is
      past the depth limit; otherwise process it if it is still pending, appending the
      children it enqueues behind the tasks already waiting. */
  function Step(s: CrawlState, env: Env): (s': CrawlState)
    requires s.queue != []
    ensures s'.taken == s.taken + [s.queue[0]]
    ensures |s'.queue| >= |s.queue| - 1 && s'.queue[..|s.queue| - 1] == s.queue[1..]
    ensures s.processed <= s'.processed
    ensures |s'.dispatched| == |s.dispatched| + (if Dispatches(s.queue[0], env.crawl.maxDepth) then 1 else 0)
    ensures s'.dispatched[..|s.dispatched|] == s.dispatched
    ensures !Dispatches(s.queue[0], env.crawl.maxDepth) ==>
      s'.processed == s.processed && s'.writes == s.writes && s'.admitted == s.admitted
      && s'.cache == s.cache && |s'.queue| == |s.queue| - 1
  {
    var task := s.queue[0];
    var rest := s.queue[1..];
    if DepthLimitReached(task, env.crawl.maxDepth) || task.status != Pending then
      s.(queue := rest, taken := s.taken + [task])
    else
      var o := UriProcessorService.ProcessUri(task, s.cache, s.processed, env);
      assert (rest + o.enqueued)[..|rest|] == rest;
      CrawlState(rest + o.enqueued, o.processed, o.cache, s.taken + [task], s.dispatched + [o.task],
                 s.writes + o.writes, s.admitted + TaskUris(o.enqueued))
  }

  /** Every result a write carries is within the depth limit. */
  predicate WithinLimit(w: ResultWrite, maxDepth: Option<int>) {
    forall j :: 0 <= j < |w.results| ==> !(maxDepth.Some? && w.results[j].level > maxDepth.value)
  }

  /** Tasks are taken in breadth-first order: the queue is sorted by depth and spans at
      most two adjacent depths, and nothing taken is deeper than anything waiting.
      This rests on each dispatched task finishing before the next take; with the
      fire-and-forget `Task.Run` of the service a slow page can enqueue its children
      after deeper tasks were already queued. */
  predicate BreadthFirst(s: CrawlState) {
    && (forall i, j :: 0 <= i < j < |s.queue| ==> s.queue[i].depthLevel <= s.queue[j].depthLevel)
    && (forall i, j :: 0 <= i < |s.queue| && 0 <= j < |s.queue| ==> s.queue[j].depthLevel <= s.queue[i].depthLevel + 1)
    && (forall i, j :: 0 <= i < j < |s.taken| ==> s.taken[i].depthLevel <= s.taken[j].depthLevel)
    && (forall i, k :: 0 <= i < |s.taken| && 0 <= k < |s.queue| ==> s.taken[i].depthLevel <= s.queue[k].depthLevel)
  }

  /** What holds between takes: waiting tasks are pending; no URI was enqueued as a child
      twice, and each such URI is visited; nothing past the depth limit was dispatched
      or written; the order is breadth-first. */
  predicate Inv(s: CrawlState, maxDepth: Option<int>) {
    && (forall k :: 0 <= k < |s.queue| ==> s.queue[k].status == Pending)
    && Distinct(s.admitted)
    && Elements(s.admitted) <= s.processed
    && (forall k :: 0 <= k < |s.dispatched| ==> !DepthLimitReached(s.dispatched[k], maxDepth))
    && (forall k :: 0 <= k < |s.writes| ==> WithinLimit(s.writes[k], maxDepth))
    && BreadthFirst(s)
  }

  /** The state after seeding. */
  function Seeded(tasks: seq<CrawlTask>, cache: WebPageRepository.PageCache): (s: CrawlState)
    ensures s.queue == tasks && s.processed == {} && s.taken == [] && s.dispatched == []
    ensures s.writes == [] && s.admitted == []
  {
    CrawlState(tasks, {}, cache, [], [], [], [])
  }

  /** Seeding establishes the invariant. */
  lemma SeededInv(seeds: seq<string>, outputPath: string, cache: WebPageRepository.PageCache, env: Env)
    ensures Inv(Seeded(CreateTasksForInitialUris(seeds, outputPath, env.parse), cache), env.crawl.maxDepth)
  {
  }

  /** Taking the oldest task and appending children one level deeper keeps the order
      breadth-first. */
  lemma {:induction false} BreadthFirstTake(s: CrawlState, children: seq<CrawlTask>, s': CrawlState)
    requires s.queue != [] && BreadthFirst(s)
    requires forall k :: 0 <= k < |children| ==> children[k].depthLevel == s.queue[0].depthLevel + 1
    requires s'.queue == s.queue[1..] + children && s'.taken == s.taken + [s.queue[0]]
    ensures BreadthFirst(s')
  {
    var task := s.queue[0];
    var rest := s.queue[1..];
    forall k | 0 <= k < |rest|
      ensures task.depthLevel <= rest[k].depthLevel <= task.depthLevel + 1
    {
      assert rest[k] == s.queue[k + 1];
    }
    var q := s'.queue;
    forall i, j | 0 <= i < j < |q|
      ensures q[i].depthLevel <= q[j].depthLevel
    {
      if j < |rest| {
        assert q[i] == s.queue[i + 1] && q[j] == s.queue[j + 1];
      }
    }
    forall i, k | 0 <= i < |s'.taken| && 0 <= k < |q|
      ensures s'.taken[i].depthLevel <= q[k].depthLevel
    {
      if i < |s.taken| {
        assert s'.taken[i] == s.taken[i];
        assert s.taken[i].depthLevel <= task.depthLevel;
      }
    }
    forall i, j | 0 <= i < j < |s'.taken|
      ensures s'.taken[i].depthLevel <= s'.taken[j].depthLevel
    {
      if j < |s.taken| {
        assert s'.taken[i] == s.taken[i] && s'.taken[j] == s.taken[j];
      } else {
        assert s'.taken[i] == s.taken[i];
      }
    }
  }

  /** Taking a task within the limit and applying a processing outcome that keeps the
      crawl facts keeps the invariant. */
  lemma {:induction false} DispatchPreserves(s: CrawlState, o: ProcessOutcome, s': CrawlState, maxDepth: Option<int>)
    requires s.queue != [] && !DepthLimitReached(s.queue[0], maxDepth)
    requires Inv(s, maxDepth)
    requires KeepsCrawlFacts(o, s.queue[0], s.processed)
    requires s' == CrawlState(s.queue[1..] + o.enqueued, o.processed, o.cache, s.taken + [s.queue[0]],
                              s.dispatched + [o.task], s.writes + o.writes, s.admitted + TaskUris(o.enqueued))
    ensures Inv(s', maxDepth)
  {
    var task := s.queue[0];
    var kids := TaskUris(o.enqueued);
    DistinctAppend(s.admitted, kids);
    assert Elements(s.admitted + kids) == Elements(s.admitted) + Elements(kids);
    forall k | 0 <= k < |o.enqueued|
      ensures o.enqueued[k].status == Pending && o.enqueued[k].depthLevel == task.depthLevel + 1
    {
      assert IsChildOf(o.enqueued[k], task);
    }
    BreadthFirstTake(s, o.enqueued, s');
    forall k | 0 <= k < |s'.queue|
      ensures s'.queue[k].status == Pending
    {
      if k < |s.queue| - 1 {
        assert s'.queue[k] == s.queue[k + 1];
      } else {
        assert s'.queue[k] == o.enqueued[k - (|s.queue| - 1)];
      }
    }
    forall k | 0 <= k < |s'.dispatched|
      ensures !DepthLimitReached(s'.dispatched[k], maxDepth)
    {
      if k < |s.dispatched| {
        assert s'.dispatched[k] == s.dispatched[k];
      }
    }
    forall k | 0 <= k < |s'.writes|
      ensures WithinLimit(s'.writes[k], maxDepth)
    {
      if k >= |s.writes| {
        assert s'.writes[k] == o.writes[k - |s.writes|];
      } else {
        assert s'.writes[k] == s.writes[k];
      }
    }
  }

  /** Processing a dispatched task keeps the invariant. */
  lemma DispatchInv(s: CrawlState, env: Env)
    requires s.queue != [] && Dispatches(s.queue[0], env.crawl.maxDepth)
    requires Inv(s, env.crawl.maxDepth)
    ensures Inv(Step(s, env), env.crawl.maxDepth)
  {
    var task := s.queue[0];
    var o := UriProcessorService.ProcessUri(task, s.cache, s.processed, env);
    ProcessUriKeepsCrawlFacts(task, s.cache, s.processed, env);
    DispatchPreserves(s, o, Step(s, env), env.crawl.maxDepth);
  }

  /** A step keeps the invariant. */
  lemma {:induction false} StepInv(s: CrawlState, env: Env)
    requires s.queue != []
    requires Inv(s, env.crawl.maxDepth)
    ensures Inv(Step(s, env), env.crawl.maxDepth)
  {
    if Dispatches(s.queue[0], env.crawl.maxDepth) {
      DispatchInv(s, env);
    } else {
      var s' := Step(s, env);
      assert s' == s.(queue := s.queue[1..], taken := s.taken + [s.queue[0]]);
      assert s.queue[1..] + [] == s.queue[1..];
      BreadthFirstTake(s, [], s');
      forall k | 0 <= k < |s'.queue|
        ensures s'.queue[k].status == Pending
      {
        assert s'.queue[k] == s.queue[k + 1];
      }
    }
  }

  /** The invariant, if it holds before a take, holds after it. */
  lemma StepKeepsInv(s: CrawlState, env: Env)
    requires s.queue != []
    ensures Inv(s, env.crawl.maxDepth) ==> Inv(Step(s, env), env.crawl.maxDepth)
  {
    if Inv(s, env.crawl.maxDepth) {
      StepInv(s, env);
    }
  }

  /** `MonitorAndProcessCrawlTasks` until cancellation, which comes after `fuel` takes,
      or until the queue runs dry (the real loop would then wait for cancellation).
      The loop keeps the invariant. */
  function Monitor(s: CrawlState, env: Env, fuel: nat): (s': CrawlState)
    ensures Inv(s, env.crawl.maxDepth) ==> Inv(s', env.crawl.maxDepth)
    ensures |s.taken| <= |s'.taken| <= |s.taken| + fuel
    ensures s'.taken[..|s.taken|] == s.taken
    ensures s.processed <= s'.processed
    ensures |s'.taken| < |s.taken| + fuel ==> s'.queue == []
    decreases fuel
  {
    if fuel == 0 || s.queue == [] then s
    else
      var s1 := Step(s, env);
      StepKeepsInv(s, env);
      var s' := Monitor(s1, env, fuel - 1);
      assert s'.taken[..|s.taken|] == s1.taken[..|s1.taken|][..|s.taken|];
      s'
  }

  /** `ExecuteAsync`: nothing happens without configured seeds; otherwise the queue is
      seeded and the loop runs. The output path, which the service derives from the
      clock and the file system, is given. */
  function ExecuteAsync(env: Env, cache: WebPageRepository.PageCache, outputPath: string, fuel: nat)
    : (r: Option<CrawlState>)
    ensures r.None? <==> env.crawl.initialCrawlUris.None?
    ensures r.Some? ==> Inv(r.value, env.crawl.maxDepth)
  {
    match GetConfigValues(env.crawl)
    case None => None
    case Some(seeds) =>
      var tasks := CreateTasksForInitialUris(seeds, outputPath, env.parse);
      SeededInv(seeds, outputPath, cache, env);
      Some(Monitor(Seeded(tasks, cache), env, fuel))
  }

  /** With `MaxDepth` 0 only seeds are ever downloaded, and every result is at level 0. */
  lemma SeedsOnlyAtDepthZero(env: Env, cache: WebPageRepository.PageCache, outputPath: string, fuel: nat)
    requires env.crawl.maxDepth == Some(0)
    requires env.crawl.initialCrawlUris.Some?
    ensures var r := ExecuteAsync(env, cache, outputPath, fuel).value;
      && (forall k :: 0 <= k < |r.dispatched| ==> r.dispatched[k].depthLevel == 0)
      && (forall k, j :: 0 <= k < |r.writes| && 0 <= j < |r.writes[k].results| ==> r.writes[k].results[j].level == 0)
  {
    var r := ExecuteAsync(env, cache, outputPath, fuel).value;
    forall k, j | 0 <= k < |r.writes| && 0 <= j < |r.writes[k].results|
      ensures r.writes[k].results[j].level == 0
    {
      assert WithinLimit(r.writes[k], env.crawl.maxDepth);
    }
  }
}

/** `StartupConfiguration.MergeSettings`: command-line options over file options. */
module StartupConfiguration {
  import opened Wrappers
  import opened Text
  import opened Config

  /** The fields an override replaces: non-empty strings and a present depth. */
  predicate OverridesUris(o: CrawlOptions) { !IsNullOrEmpty(o.initialCrawlUris) }
  predicate OverridesPath(o: CrawlOptions) { !IsNullOrEmpty(o.outputFilePath) }
  predicate OverridesDepth(o: CrawlOptions) { o.maxDepth.Some? }
  predicate OverridesFormat(o: CrawlOptions) { !IsNullOrEmpty(o.outputFormat) }

  /** `MergeSettings(baseOptions, overrideOptions)`: each field is the override's when
      the override supplies it, the base's otherwise. */
  function MergeSettings(base: CrawlOptions, over: CrawlOptions): (r: CrawlOptions)
    ensures r.initialCrawlUris == (if OverridesUris(over) then over else base).initialCrawlUris
    ensures r.outputFilePath == (if OverridesPath(over) then over else base).outputFilePath
    ensures r.maxDepth == (if OverridesDepth(over) then over else base).maxDepth
    ensures r.outputFormat == (if OverridesFormat(over) then over else base).outputFormat
  {
    var r := base;
    var r := if !IsNullOrEmpty(over.initialCrawlUris) then r.(initialCrawlUris := over.initialCrawlUris) else r;
    var r := if !IsNullOrEmpty(over.outputFilePath) then r.(outputFilePath := over.outputFilePath) else r;
    var r := if over.maxDepth.Some? then r.(maxDepth := over.maxDepth) else r;
    var r := if !IsNullOrEmpty(over.outputFormat) then r.(outputFormat := over.outputFormat) else r;
    r
  }

  /** An override that supplies nothing leaves the base as it is. */
  lemma EmptyOverrideIsIdentity(base: CrawlOptions, over: CrawlOptions)
    requires !OverridesUris(over) && !OverridesPath(over) && !OverridesDepth(over) && !OverridesFormat(over)
    ensures MergeSettings(base, over) == base
  {
  }

  /** Merging the same override twice is merging it once. */
  lemma MergeIdempotent(base: CrawlOptions, over: CrawlOptions)
    ensures MergeSettings(MergeSettings(base, over), over) == MergeSettings(base, over)
  {
  }

  /** Merging two overrides in turn is merging their merge: the later one wins. */
  lemma MergeAssociative(base: CrawlOptions, o1: CrawlOptions, o2: CrawlOptions)
    ensures MergeSettings(MergeSettings(base, o1), o2) == MergeSettings(base, MergeSettings(o1, o2))
  {
  }

  /** Each field of the result depends only on that field of the two inputs. */
  lemma FieldsIndependent(b1: CrawlOptions, o1: CrawlOptions, b2: CrawlOptions, o2: CrawlOptions)
    ensures b1.maxDepth == b2.maxDepth && o1.maxDepth == o2.maxDepth ==>
      MergeSettings(b1, o1).maxDepth == MergeSettings(b2, o2).maxDepth
    ensures b1.initialCrawlUris == b2.initialCrawlUris && o1.initialCrawlUris == o2.initialCrawlUris ==>
      MergeSettings(b1, o1).initialCrawlUris == MergeSettings(b2, o2).initialCrawlUris
    ensures b1.outputFilePath == b2.outputFilePath && o1.outputFilePath == o2.outputFilePath ==>
      MergeSettings(b1, o1).outputFilePath == MergeSettings(b2, o2).outputFilePath
    ensures b1.outputFormat == b2.outputFormat && o1.outputFormat == o2.outputFormat ==>
      MergeSettings(b1, o1).outputFormat == MergeSettings(b2, o2).outputFormat
  {
  }
}

/**
 * `createOrAppendSiteIndex`, `createRootSiteIndex` and `createSiteDefaults`:
 * the per-category index that lists the numbered sitemaps, the root index,
 * and the sitemap of static routes.
 */
module IndexSync {
  import opened Values
  import opened Text
  import opened SitemapDoc
  import opened Loader

  /** The site URL the index lists for sitemap number `n` under `root`. */
  function IndexLoc(rootUrl: string, root: string, n: nat): string {
    ConvertToAudiusUrl(rootUrl, SiteMapPath(root, n))
  }

  /** Reference: the locs of files `lo` to `hi` inclusive, ascending; none when `hi < lo`. */
  function IndexLocs(rootUrl: string, root: string, lo: nat, hi: int): (r: seq<string>)
    ensures |r| == if hi < lo then 0 else hi - lo + 1
    ensures forall i :: 0 <= i < |r| ==> r[i] == IndexLoc(rootUrl, root, lo + i)
  {
    NumberRange(n => IndexLoc(rootUrl, root, n), lo, hi)
  }

  /** `f(lo), …, f(hi)`, ascending; empty when `hi < lo`. */
  function NumberRange<T>(f: nat -> T, lo: nat, hi: int): (r: seq<T>)
    ensures |r| == if hi < lo then 0 else hi - lo + 1
    ensures forall i :: 0 <= i < |r| ==> r[i] == f(lo + i)
    decreases hi - lo
  {
    if hi < lo then [] else NumberRange(f, lo, hi - 1) + [f(hi)]
  }

  /** The loop `for (i = lo; i <= hi; ++i)` pushing one loc per file number. */
  function AppendLocs(e: Entries, rootUrl: string, root: string, lo: nat, hi: int): (r: Entries)
    requires e.WellFormed()
    ensures r.WellFormed()
    ensures r.Flat() == e.Flat() + IndexLocs(rootUrl, root, lo, hi)
    decreases hi + 1 - lo
  {
    if hi < lo then e
    else
      Push(AppendLocs(e, rootUrl, root, lo, hi - 1), IndexLoc(rootUrl, root, hi))
  }

  datatype SyncOutcome = SyncCrashed | Synced(write: Write)

  /** The index as loaded from `path`. */
  function LoadedIndex(path: string, read: ReadResult, parse: string -> Option<ParsedDoc>): (d: Doc)
    ensures d.entries.WellFormed()
  {
    Load(Some(path), read, parse, IndexSkeleton())
  }

  /**
   * `createOrAppendSiteIndex(path, root, latestNumber, newNumber)`: seeds an
   * empty index with the loc of `latestNumber`, then appends one loc for each
   * number from `latestNumber + 1` to `newNumber`, and writes the index back.
   * Existing entries are kept and nothing is deduplicated. A loaded file whose
   * root is not `sitemapindex` makes the source throw before any write.
   */
  function CreateOrAppendSiteIndex(path: string, root: string, latestNumber: nat, newNumber: nat,
                                   rootUrl: string, read: ReadResult,
                                   parse: string -> Option<ParsedDoc>): (r: SyncOutcome)
    ensures r.SyncCrashed? <==> LoadedIndex(path, read, parse).kind != SitemapIndex
    ensures r.Synced? ==>
              var prior := LoadedIndex(path, read, parse).entries.Flat();
              var added := IndexLocs(rootUrl, root, latestNumber + 1, newNumber);
              && r.write.path == path
              && r.write.doc.kind == SitemapIndex
              && (prior == [] ==> r.write.doc.entries.Flat() == [IndexLoc(rootUrl, root, latestNumber)] + added)
              && (prior != [] ==> r.write.doc.entries.Flat() == prior + added)
  {
    var index := LoadedIndex(path, read, parse);
    if index.kind != SitemapIndex then SyncCrashed
    else
      var seeded := if index.entries.Absent? then Many([IndexLoc(rootUrl, root, latestNumber)]) else index.entries;
      Synced(Write(path, index.(entries := AppendLocs(seeded, rootUrl, root, latestNumber + 1, newNumber))))
  }

  /** When no file was opened, the sync only seeds an empty index and otherwise leaves it as it was. */
  lemma SyncWithoutNewFiles(path: string, root: string, latestNumber: nat, newNumber: nat, rootUrl: string,
                            read: ReadResult, parse: string -> Option<ParsedDoc>)
    requires newNumber <= latestNumber
    requires LoadedIndex(path, read, parse).kind == SitemapIndex
    ensures var prior := LoadedIndex(path, read, parse).entries.Flat();
            var r := CreateOrAppendSiteIndex(path, root, latestNumber, newNumber, rootUrl, read, parse);
            r.Synced? && r.write.doc.entries.Flat() == (if prior == [] then [IndexLoc(rootUrl, root, latestNumber)] else prior)
  {
  }

  /**
   * The sync does not look at what the index already lists: running it again
   * over the index it wrote, with the same pair of numbers, lists the new
   * files a second time.
   */
  lemma ResyncDuplicates(path: string, root: string, latestNumber: nat, newNumber: nat, rootUrl: string,
                         read: ReadResult, parse: string -> Option<ParsedDoc>, text: string,
                         parse2: string -> Option<ParsedDoc>)
    requires path != "" && text != ""
    requires var r := CreateOrAppendSiteIndex(path, root, latestNumber, newNumber, rootUrl, read, parse);
             r.Synced? && parse2(text) == Some(Doc(SitemapIndex, Reparse(r.write.doc.entries)))
    ensures var first := CreateOrAppendSiteIndex(path, root, latestNumber, newNumber, rootUrl, read, parse);
            var second := CreateOrAppendSiteIndex(path, root, latestNumber, newNumber, rootUrl, ReadOk(text), parse2);
            && second.Synced?
            && second.write.doc.entries.Flat()
               == first.write.doc.entries.Flat() + IndexLocs(rootUrl, root, latestNumber + 1, newNumber)
  {
  }

  /**
   * `createRootSiteIndex`: an existing, parseable root index is written back
   * as it was; otherwise the skeleton listing the defaults sitemap and the
   * three category indexes is written.
   */
  function CreateRootSiteIndex(path: string, tracksIndex: string, collectionsIndex: string,
                               usersIndex: string, defaults: string, rootUrl: string,
                               read: ReadResult, parse: string -> Option<ParsedDoc>): (w: Write)
    ensures w.path == path
    ensures FallsBack(Some(path), read, parse) ==>
              && w.doc.kind == SitemapIndex
              && w.doc.entries.Flat() == [ConvertToAudiusUrl(rootUrl, defaults),
                                         ConvertToAudiusUrl(rootUrl, tracksIndex),
                                         ConvertToAudiusUrl(rootUrl, collectionsIndex),
                                         ConvertToAudiusUrl(rootUrl, usersIndex)]
    ensures !FallsBack(Some(path), read, parse) ==> w.doc == parse(read.contents).value
  {
    Write(path, Load(Some(path), read, parse,
                     RootIndexSkeleton(rootUrl, tracksIndex, collectionsIndex, usersIndex, defaults)))
  }

  /**
   * The root index is a one-time bootstrap: a second call that reads back what
   * the first wrote writes the same entries again, whatever the category paths
   * it is given this time.
   */
  lemma RootIndexStable(path: string, tracksIndex: string, collectionsIndex: string, usersIndex: string,
                        defaults: string, rootUrl: string, read: ReadResult,
                        parse: string -> Option<ParsedDoc>, text: string,
                        parse2: string -> Option<ParsedDoc>, tracks2: string, collections2: string,
                        users2: string, defaults2: string)
    requires path != "" && text != ""
    requires var w := CreateRootSiteIndex(path, tracksIndex, collectionsIndex, usersIndex, defaults,
                                          rootUrl, read, parse);
             parse2(text) == Some(Doc(w.doc.kind, Reparse(w.doc.entries)))
    ensures var w := CreateRootSiteIndex(path, tracksIndex, collectionsIndex, usersIndex, defaults,
                                         rootUrl, read, parse);
            var w2 := CreateRootSiteIndex(path, tracks2, collections2, users2, defaults2,
                                          rootUrl, ReadOk(text), parse2);
            w2.doc.kind == w.doc.kind && w2.doc.entries.Flat() == w.doc.entries.Flat()
  {
  }

  /** `createSiteDefaults`: one entry `${rootUrl}${route}` per configured route, in order. */
  function CreateSiteDefaults(path: string, routes: seq<string>, rootUrl: string): (w: Write)
    ensures w.path == path && w.doc.kind == UrlSet
    ensures |w.doc.entries.Flat()| == |routes|
    // every entry is the site URL with the route appended, so the route can be read back
    ensures forall i :: 0 <= i < |routes| ==>
              && |w.doc.entries.Flat()[i]| == |rootUrl| + |routes[i]|
              && w.doc.entries.Flat()[i][..|rootUrl|] == rootUrl
              && w.doc.entries.Flat()[i][|rootUrl|..] == routes[i]
  {
    Write(path, MapSkeleton().(entries := Many(seq(|routes|, i requires 0 <= i < |routes| => rootUrl + routes[i]))))
  }
}

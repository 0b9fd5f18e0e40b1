/**
 * One category's pass of the cron job: append the fetched URLs starting from
 * the file the watermark points at, then bring the category index up to the
 * last file reached. The start number is the intended one (see
 * `Capacity.IntendedSiteMapNumber`); below a watermark of 2,499,999,999 it is
 * the number the source computes.
 */
module CategoryRun {
  import opened Values
  import opened Text
  import opened SitemapDoc
  import opened Loader
  import opened Capacity
  import opened AppendEngine
  import opened IndexSync

  datatype RunOutcome = RunCrashed | RunDone(siteMaps: seq<Write>, index: Write)

  function RunCategory(urls: seq<string>, watermark: nat, root: string, indexPath: string, rootUrl: string,
                       mapRead: ReadResult, indexRead: ReadResult, parse: string -> Option<ParsedDoc>): (r: RunOutcome)
    // the pass fails exactly when one of the two calls throws on a root element of the wrong kind
    ensures r.RunCrashed? <==>
              || (|urls| > 0 && StartFile(IntendedSiteMapNumber(watermark), root, mapRead, parse).kind != UrlSet)
              || LoadedIndex(indexPath, indexRead, parse).kind != SitemapIndex
    ensures r.RunDone? ==>
              && |r.siteMaps| >= 1
              && r.siteMaps[0].path == SiteMapPath(root, IntendedSiteMapNumber(watermark))
              && Flats(DocsOf(r.siteMaps))
                 == StartFile(IntendedSiteMapNumber(watermark), root, mapRead, parse).entries.Flat() + urls
  {
    var start := IntendedSiteMapNumber(watermark);
    match CreateOrAppendSiteMap(urls, start, root, mapRead, parse)
    case Crashed => RunCrashed
    case Appended(writes, last) =>
      match CreateOrAppendSiteIndex(indexPath, root, start, last, rootUrl, indexRead, parse)
      case SyncCrashed => RunCrashed
      case Synced(w) => RunDone(writes, w)
  }

  /**
   * Below the wrap point the run starts in the file the source's own
   * `getLatestSiteMapNumber` names.
   */
  lemma RunStartsAtSourceNumber(urls: seq<string>, watermark: nat, root: string, indexPath: string,
                                rootUrl: string, mapRead: ReadResult, indexRead: ReadResult,
                                parse: string -> Option<ParsedDoc>)
    requires watermark + 1 < MAX_SQUARED
    requires RunCategory(urls, watermark, root, indexPath, rootUrl, mapRead, indexRead, parse).RunDone?
    ensures RunCategory(urls, watermark, root, indexPath, rootUrl, mapRead, indexRead, parse).siteMaps[0].path
            == SiteMapPath(root, SiteMapNumber(watermark))
  {
    SiteMapNumberAgreesBelowWrap(watermark);
  }

  /** The site URL of each written path, in order. */
  function SiteUrls(rootUrl: string, writes: seq<Write>): (r: seq<string>)
    ensures |r| == |writes|
    ensures forall i :: 0 <= i < |writes| ==> r[i] == ConvertToAudiusUrl(rootUrl, writes[i].path)
  {
    seq(|writes|, i requires 0 <= i < |writes| => ConvertToAudiusUrl(rootUrl, writes[i].path))
  }

  lemma OpenedFilesAreIndexLocs(rootUrl: string, root: string, start: nat, writes: seq<Write>)
    requires |writes| >= 1
    requires forall i :: 0 <= i < |writes| ==> writes[i].path == SiteMapPath(root, start + i)
    ensures IndexLocs(rootUrl, root, start + 1, start + |writes| - 1) == SiteUrls(rootUrl, writes[1..])
    ensures ConvertToAudiusUrl(rootUrl, writes[0].path) == IndexLoc(rootUrl, root, start)
  {
  }

  /**
   * Within one pass the index ends with exactly the site URLs of the files the
   * append opened, in file order; an index that was empty starts with the
   * file the pass began in.
   */
  lemma {:induction false} RunIndexListsOpenedFiles(urls: seq<string>, watermark: nat, root: string,
                                                   indexPath: string, rootUrl: string, mapRead: ReadResult,
                                                   indexRead: ReadResult, parse: string -> Option<ParsedDoc>)
    requires RunCategory(urls, watermark, root, indexPath, rootUrl, mapRead, indexRead, parse).RunDone?
    ensures var r := RunCategory(urls, watermark, root, indexPath, rootUrl, mapRead, indexRead, parse);
            var prior := LoadedIndex(indexPath, indexRead, parse).entries.Flat();
            var listed := SiteUrls(rootUrl, r.siteMaps[1..]);
            && (prior == [] ==> r.index.doc.entries.Flat()
                                == [ConvertToAudiusUrl(rootUrl, r.siteMaps[0].path)] + listed)
            && (prior != [] ==> r.index.doc.entries.Flat() == prior + listed)
  {
    var start := IntendedSiteMapNumber(watermark);
    var a := CreateOrAppendSiteMap(urls, start, root, mapRead, parse);
    var r := RunCategory(urls, watermark, root, indexPath, rootUrl, mapRead, indexRead, parse);
    var s := CreateOrAppendSiteIndex(indexPath, root, start, a.last, rootUrl, indexRead, parse);
    assert r.siteMaps == a.writes && r.index == s.write;
    OpenedFilesAreIndexLocs(rootUrl, root, start, a.writes);
    var prior := LoadedIndex(indexPath, indexRead, parse).entries.Flat();
    var added := IndexLocs(rootUrl, root, start + 1, a.last);
    assert added == SiteUrls(rootUrl, r.siteMaps[1..]);
    if prior == [] {
      assert r.index.doc.entries.Flat() == [IndexLoc(rootUrl, root, start)] + added;
    } else {
      assert r.index.doc.entries.Flat() == prior + added;
    }
  }
}

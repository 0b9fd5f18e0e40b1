/**
 * `createOrAppendSiteMap`: appends URLs to the current numbered sitemap and
 * rolls over into `N+1.xml`, `N+2.xml`, ... once the current file holds
 * 50,000 entries, then writes every file it touched.
 */
module AppendEngine {
  import opened Values
  import opened Text
  import opened SitemapDoc
  import opened Loader

  /** The rollover test `url.length > MAX_SITE_MAP_ENTRIES - 1`; a bare single entry has no length. */
  predicate Full(d: Doc) {
    d.entries.Many? && |d.entries.locs| > MAX_SITE_MAP_ENTRIES - 1
  }

  /** A file is full exactly when it already holds 50,000 entries or more, whatever its shape. */
  lemma FullIffAtCapacity(d: Doc)
    ensures Full(d) <==> |d.entries.Flat()| >= MAX_SITE_MAP_ENTRIES
  {
  }

  /** The entries of a run of files, concatenated in file order. */
  function Flats(files: seq<Doc>): seq<string>
    decreases |files|
  {
    if |files| == 0 then [] else Flats(files[..|files| - 1]) + files[|files| - 1].entries.Flat()
  }

  /** A fresh file holding one URL: the map skeleton with its `url` field set to a one-element array. */
  function FreshFile(url: string): Doc {
    MapSkeleton().(entries := Many([url]))
  }

  /** One iteration of the loop over `urls`: roll over when the last file is full, else append to it. */
  function Step(maps: seq<Doc>, url: string): (r: seq<Doc>)
    requires |maps| > 0 && maps[|maps| - 1].entries.WellFormed()
    ensures |r| > 0 && r[|r| - 1].entries.WellFormed()
  {
    var cur := maps[|maps| - 1];
    if Full(cur) then maps + [FreshFile(url)]
    else maps[..|maps| - 1] + [cur.(entries := Push(cur.entries, url))]
  }

  /** The files held after the loop has consumed `urls`, starting from the loaded file alone. */
  function Fill(existing: Doc, urls: seq<string>): (maps: seq<Doc>)
    requires existing.entries.WellFormed()
    ensures |maps| > 0 && maps[|maps| - 1].entries.WellFormed()
    decreases |urls|
  {
    if |urls| == 0 then [existing]
    else Step(Fill(existing, urls[..|urls| - 1]), urls[|urls| - 1])
  }

  function Max(a: int, b: int): int {
    if a < b then b else a
  }

  /** The shape of the run of files: what the loop keeps true after every URL. */
  ghost predicate RunShape(existing: Doc, urls: seq<string>, maps: seq<Doc>) {
    && FilesShape(existing, maps)
    // nothing dropped, duplicated or reordered
    && Flats(maps) == existing.entries.Flat() + urls
  }

  /** The part of `RunShape` about the files one by one. */
  ghost predicate FilesShape(existing: Doc, maps: seq<Doc>) {
    var c := |existing.entries.Flat()|;
    && |maps| > 0
    && (forall i :: 0 <= i < |maps| ==> maps[i].entries.WellFormed())
    // the loaded file is only ever appended to
    && maps[0].kind == existing.kind
    && existing.entries.Flat() <= maps[0].entries.Flat()
    && |maps[0].entries.Flat()| <= Max(c, MAX_SITE_MAP_ENTRIES)
    // every rolled-over file is a fresh urlset holding between 1 and 50,000 entries
    && (forall i :: 0 < i < |maps| ==>
          maps[i].kind == UrlSet && maps[i].entries.Many? && 1 <= |maps[i].entries.Flat()| <= MAX_SITE_MAP_ENTRIES)
    // a file was left behind only once it held 50,000 entries
    && (forall i :: 0 <= i < |maps| - 1 ==> |maps[i].entries.Flat()| >= MAX_SITE_MAP_ENTRIES)
  }

  lemma FlatsSnoc(files: seq<Doc>, d: Doc)
    ensures Flats(files + [d]) == Flats(files) + d.entries.Flat()
  {
  }

  lemma {:induction false} FillShape(existing: Doc, urls: seq<string>)
    requires existing.entries.WellFormed()
    ensures RunShape(existing, urls, Fill(existing, urls))
    ensures |urls| == 0 ==> Fill(existing, urls) == [existing]
    decreases |urls|
  {
    if |urls| == 0 {
      assert Flats([existing]) == Flats([]) + existing.entries.Flat();
      assert existing.entries.Flat() + urls == existing.entries.Flat();
    } else {
      var init := urls[..|urls| - 1];
      var u := urls[|urls| - 1];
      assert urls == init + [u];
      FillShape(existing, init);
      var prev := Fill(existing, init);
      var cur := prev[|prev| - 1];
      if Full(cur) {
        RolloverKeepsShape(existing, init, prev, u);
      } else {
        AppendKeepsShape(existing, init, prev, u);
      }
    }
  }

  /** Opening a fresh file for `u` keeps the shape. */
  lemma RolloverKeepsShape(existing: Doc, init: seq<string>, prev: seq<Doc>, u: string)
    requires RunShape(existing, init, prev) && Full(prev[|prev| - 1])
    ensures RunShape(existing, init + [u], Step(prev, u))
  {
    var maps := Step(prev, u);
    FullIffAtCapacity(prev[|prev| - 1]);
    assert maps == prev + [FreshFile(u)];
    FlatsSnoc(prev, FreshFile(u));
    assert maps[0] == prev[0];
  }

  /** Appending `u` to a last file that has room keeps the shape. */
  lemma AppendKeepsShape(existing: Doc, init: seq<string>, prev: seq<Doc>, u: string)
    requires RunShape(existing, init, prev) && !Full(prev[|prev| - 1])
    ensures RunShape(existing, init + [u], Step(prev, u))
  {
    AppendStepFlats(prev, u);
    AppendKeepsFiles(existing, prev, u);
    assert (existing.entries.Flat() + init) + [u] == existing.entries.Flat() + (init + [u]);
  }

  /** Appending to a last file that has room appends `u` to the concatenated view. */
  lemma AppendStepFlats(prev: seq<Doc>, u: string)
    requires |prev| > 0 && prev[|prev| - 1].entries.WellFormed() && !Full(prev[|prev| - 1])
    ensures Flats(Step(prev, u)) == Flats(prev) + [u]
  {
    var m := |prev|;
    var cur := prev[m - 1];
    var front := prev[..m - 1];
    SplitLast(prev);
    assert Step(prev, u) == front + [cur.(entries := Push(cur.entries, u))];
    AppendFlats(front, cur, u);
  }

  lemma SplitLast<T>(s: seq<T>)
    requires |s| > 0
    ensures s[..|s| - 1] + [s[|s| - 1]] == s
  {
  }

  /** Appending to a last file that has room keeps each file within its bounds. */
  lemma AppendKeepsFiles(existing: Doc, prev: seq<Doc>, u: string)
    requires FilesShape(existing, prev) && !Full(prev[|prev| - 1])
    ensures FilesShape(existing, Step(prev, u))
  {
    var m := |prev|;
    var cur := prev[m - 1];
    FullIffAtCapacity(cur);
    var maps := Step(prev, u);
    assert maps == prev[m - 1 := cur.(entries := Push(cur.entries, u))];
  }

  /** Appending to the last file appends to the concatenated view. */
  lemma AppendFlats(front: seq<Doc>, cur: Doc, u: string)
    requires cur.entries.WellFormed()
    ensures Flats(front + [cur.(entries := Push(cur.entries, u))]) == Flats(front + [cur]) + [u]
  {
  }

  /**
   * How many files the loop opens: none while the loaded file has room for
   * every URL, otherwise the ceiling of the overflow over 50,000, the last
   * file holding the remainder.
   */
  lemma {:induction false} FillCount(existing: Doc, urls: seq<string>)
    requires existing.entries.WellFormed()
    ensures var maps := Fill(existing, urls);
            var k := |maps| - 1;
            var c := |existing.entries.Flat()|;
            var last := |maps[k].entries.Flat()|;
            && (k == 0 <==> (|urls| == 0 || c + |urls| <= MAX_SITE_MAP_ENTRIES))
            && (k == 0 ==> last == c + |urls|)
            && (k > 0 ==> c + |urls| - Max(c, MAX_SITE_MAP_ENTRIES) == (k - 1) * MAX_SITE_MAP_ENTRIES + last
                          && 1 <= last <= MAX_SITE_MAP_ENTRIES)
    decreases |urls|
  {
    if |urls| > 0 {
      var init := urls[..|urls| - 1];
      var u := urls[|urls| - 1];
      FillCount(existing, init);
      var prev := Fill(existing, init);
      var cur := prev[|prev| - 1];
      FullIffAtCapacity(cur);
    }
  }

  /** The files written and the number returned by one call. */
  datatype AppendOutcome = Crashed | Appended(writes: seq<Write>, last: nat)

  function DocsOf(writes: seq<Write>): (docs: seq<Doc>)
    ensures |docs| == |writes|
    ensures forall i :: 0 <= i < |writes| ==> docs[i] == writes[i].doc
  {
    seq(|writes|, i requires 0 <= i < |writes| => writes[i].doc)
  }

  /** The file the call starts from, as loaded. */
  function StartFile(latestNumber: nat, root: string, read: ReadResult,
                     parse: string -> Option<ParsedDoc>): (d: Doc)
    ensures d.entries.WellFormed()
  {
    Load(Some(SiteMapPath(root, latestNumber)), read, parse, MapSkeleton())
  }

  /**
   * `createOrAppendSiteMap(urls, latestNumber, root)`: `read` is what reading
   * `root/latestNumber.xml` gives and `parse` the XML parser. A loaded file
   * whose root is not `urlset` makes the first append throw, before any write.
   */
  function CreateOrAppendSiteMap(urls: seq<string>, latestNumber: nat, root: string, read: ReadResult,
                                 parse: string -> Option<ParsedDoc>): (r: AppendOutcome)
    ensures var start := StartFile(latestNumber, root, read, parse);
            r.Crashed? <==> |urls| > 0 && start.kind != UrlSet
    ensures r.Appended? ==>
              var start := StartFile(latestNumber, root, read, parse);
              && |r.writes| >= 1
              // the written paths are latestNumber, latestNumber + 1, ... with no gap
              && (forall i :: 0 <= i < |r.writes| ==> r.writes[i].path == SiteMapPath(root, latestNumber + i))
              && r.last == latestNumber + |r.writes| - 1
              && Flats(DocsOf(r.writes)) == start.entries.Flat() + urls
              && (|urls| == 0 ==> r.writes == [Write(SiteMapPath(root, latestNumber), start)])
  {
    var start := StartFile(latestNumber, root, read, parse);
    if |urls| > 0 && start.kind != UrlSet then Crashed
    else
      var maps := Fill(start, urls);
      FillShape(start, urls);
      Appended(NumberedWrites(root, latestNumber, maps), latestNumber + |maps| - 1)
  }

  /** Pairs the i-th file with the path of number `first + i`. */
  function NumberedWrites(root: string, first: nat, maps: seq<Doc>): (writes: seq<Write>)
    ensures |writes| == |maps|
    ensures forall i :: 0 <= i < |maps| ==> writes[i].path == SiteMapPath(root, first + i)
    ensures DocsOf(writes) == maps
  {
    var writes := seq(|maps|, i requires 0 <= i < |maps| => Write(SiteMapPath(root, first + i), maps[i]));
    assert DocsOf(writes) == maps;
    writes
  }

  /**
   * The written files: nothing dropped, duplicated or reordered; the start
   * file only appended to; every opened file a fresh `urlset` of 1 to 50,000
   * entries; a file left behind only once it held 50,000.
   */
  lemma AppendRunShape(urls: seq<string>, latestNumber: nat, root: string, read: ReadResult,
                       parse: string -> Option<ParsedDoc>)
    requires CreateOrAppendSiteMap(urls, latestNumber, root, read, parse).Appended?
    ensures var r := CreateOrAppendSiteMap(urls, latestNumber, root, read, parse);
            RunShape(StartFile(latestNumber, root, read, parse), urls, DocsOf(r.writes))
  {
    var start := StartFile(latestNumber, root, read, parse);
    FillShape(start, urls);
  }

  /**
   * The returned number counts the files opened: none while the start file has
   * room, otherwise the ceiling of the overflow over 50,000.
   */
  lemma AppendFileCount(urls: seq<string>, latestNumber: nat, root: string, read: ReadResult,
                        parse: string -> Option<ParsedDoc>)
    requires CreateOrAppendSiteMap(urls, latestNumber, root, read, parse).Appended?
    ensures var r := CreateOrAppendSiteMap(urls, latestNumber, root, read, parse);
            var c := |StartFile(latestNumber, root, read, parse).entries.Flat()|;
            var k := r.last - latestNumber;
            && (k == 0 <==> (|urls| == 0 || c + |urls| <= MAX_SITE_MAP_ENTRIES))
            && (k > 0 ==> (k - 1) * MAX_SITE_MAP_ENTRIES < c + |urls| - Max(c, MAX_SITE_MAP_ENTRIES)
                                                         <= k * MAX_SITE_MAP_ENTRIES)
  {
    var start := StartFile(latestNumber, root, read, parse);
    FillCount(start, urls);
  }

  /** From an empty start file, N >= 1 URLs occupy exactly ceil(N / 50,000) files. */
  lemma FreshStartFileCount(urls: seq<string>, latestNumber: nat, root: string, read: ReadResult,
                            parse: string -> Option<ParsedDoc>)
    requires |urls| >= 1
    requires StartFile(latestNumber, root, read, parse) == MapSkeleton()
    ensures var r := CreateOrAppendSiteMap(urls, latestNumber, root, read, parse);
            r.Appended? &&
            (|r.writes| - 1) * MAX_SITE_MAP_ENTRIES < |urls| <= |r.writes| * MAX_SITE_MAP_ENTRIES
  {
    AppendFileCount(urls, latestNumber, root, read, parse);
  }

  /** A loaded single-entry file plus one URL is written back as the two entries, old first. */
  lemma SingleEntryAppend(first: string, url: string, latestNumber: nat, root: string, read: ReadResult,
                          parse: string -> Option<ParsedDoc>)
    requires StartFile(latestNumber, root, read, parse) == Doc(UrlSet, One(first))
    ensures CreateOrAppendSiteMap([url], latestNumber, root, read, parse)
            == Appended([Write(SiteMapPath(root, latestNumber), Doc(UrlSet, Many([first, url])))], latestNumber)
  {
    var start := Doc(UrlSet, One(first));
    assert [url][..0] == [];
    assert Fill(start, [url]) == [Doc(UrlSet, Many([first, url]))];
  }

  /** A start file one short of the cap takes one URL; the next opens file latestNumber + 1. */
  lemma RolloverAtCapacity(locs: seq<string>, a: string, b: string, latestNumber: nat, root: string,
                           read: ReadResult, parse: string -> Option<ParsedDoc>)
    requires |locs| == MAX_SITE_MAP_ENTRIES - 1
    requires StartFile(latestNumber, root, read, parse) == Doc(UrlSet, Many(locs))
    ensures CreateOrAppendSiteMap([a, b], latestNumber, root, read, parse)
            == Appended([Write(SiteMapPath(root, latestNumber), Doc(UrlSet, Many(locs + [a]))),
                         Write(SiteMapPath(root, latestNumber + 1), Doc(UrlSet, Many([b])))],
                        latestNumber + 1)
  {
    var start := Doc(UrlSet, Many(locs));
    var first := Doc(UrlSet, Many(locs + [a]));
    assert [a, b][..1] == [a];
    assert [a][..0] == [];
    assert !Full(start);
    assert Fill(start, [a]) == [first];
    assert Full(first);
    assert Fill(start, [a, b]) == [first, FreshFile(b)];
  }
}

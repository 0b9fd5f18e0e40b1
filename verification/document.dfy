/**
 * The in-memory form of a sitemap document after parsing: which root element
 * it has and the `loc` strings of its `url` (or `sitemap`) children.
 *
 * The parser turns repeated child elements into an array but a single child
 * into a bare object, and no child into a missing field; `Entries` keeps those
 * three shapes apart so that the single-entry normalisation can be checked.
 */
module SitemapDoc {

  /** The per-file entry cap of the Sitemaps XML protocol 0.9. */
  const MAX_SITE_MAP_ENTRIES: nat := 50000

  /** The root element: `urlset` for a sitemap, `sitemapindex` for an index, anything else otherwise. */
  datatype Kind = UrlSet | SitemapIndex | OtherRoot

  /** The `url`/`sitemap` field of the parsed object. */
  datatype Entries = Absent | One(loc: string) | Many(locs: seq<string>)
  {
    /** The ordered `loc` strings the field stands for, whatever its shape. */
    function Flat(): seq<string> {
      match this
      case Absent => []
      case One(l) => [l]
      case Many(ls) => ls
    }

    /** The shapes the engine ever holds in memory: an array is never empty. */
    predicate WellFormed() {
      Many? ==> |locs| > 0
    }

    /** The shapes the parser produces: an array only for two or more children. */
    predicate Canonical() {
      Many? ==> |locs| > 1
    }
  }

  datatype Doc = Doc(kind: Kind, entries: Entries)

  /** A document as the parser can hand it back. */
  type ParsedDoc = d: Doc | d.entries.Canonical() witness Doc(OtherRoot, Absent)

  /**
   * Appends one `loc` to the field: a missing field becomes a one-element
   * array, a bare single entry is first turned into an array holding it, and
   * an array is pushed onto.
   */
  function Push(e: Entries, loc: string): (r: Entries)
    requires e.WellFormed()
    ensures r.Many? && r.WellFormed()
    ensures r.Flat() == e.Flat() + [loc]
  {
    match e
    case Absent => Many([loc])
    case One(l) => Many([l, loc])
    case Many(ls) => Many(ls + [loc])
  }

  /** The shape the parser gives back for a field after it has been written out. */
  function Reparse(e: Entries): (r: Entries)
    ensures r.Canonical()
    ensures r.Flat() == e.Flat()
    ensures e.Canonical() ==> r == e
  {
    match e
    case Many(ls) =>
      if |ls| == 0 then Absent else if |ls| == 1 then One(ls[0]) else e
    case _ => e
  }

  /**
   * Writing a field out and reading it back, then appending, gives the same
   * ordered entries as appending to the in-memory field: the normalisation of
   * a bare single entry is what keeps the scalar form from losing the old loc.
   */
  lemma ReparseThenPush(e: Entries, loc: string)
    requires e.WellFormed()
    ensures Push(Reparse(e), loc).Flat() == Push(e, loc).Flat()
  {
  }

  /** One loaded entry plus one appended URL is the two-element array, old first. */
  lemma SingleEntryBecomesPair(first: string, loc: string)
    ensures Push(One(first), loc) == Many([first, loc])
  {
  }
}

/**
 * `createOrReadXMLAsObject` and the skeleton builders. Reading the file and
 * parsing it are foreign operations, so the outcome of the read is a
 * parameter and the parser is a function parameter.
 */
module Loader {
  import opened Values
  import opened Text
  import opened SitemapDoc

  /** What `fs.readFile` reported for the path. */
  datatype ReadResult = ReadFailed | ReadOk(contents: string)

  /** One file write: the document serialised to the path, overwriting it. */
  datatype Write = Write(path: string, doc: Doc)

  /** `createMapSkeleton`: an empty `urlset`. */
  function MapSkeleton(): (d: Doc)
    ensures d.kind == UrlSet && d.entries.Canonical() && d.entries.Flat() == []
  {
    Doc(UrlSet, Absent)
  }

  /** `createIndexSkeleton`: an empty `sitemapindex`. */
  function IndexSkeleton(): (d: Doc)
    ensures d.kind == SitemapIndex && d.entries.Canonical() && d.entries.Flat() == []
  {
    Doc(SitemapIndex, Absent)
  }

  /** `createRootIndexSkeleton`: the defaults sitemap, then the three category indexes. */
  function RootIndexSkeleton(rootUrl: string, tracksIndex: string, collectionsIndex: string,
                             usersIndex: string, defaults: string): (d: Doc)
    ensures d.kind == SitemapIndex && d.entries.Many? && d.entries.WellFormed()
    ensures |d.entries.Flat()| == 4
    ensures d.entries.Flat()[0] == ConvertToAudiusUrl(rootUrl, defaults)
    ensures d.entries.Flat()[1] == ConvertToAudiusUrl(rootUrl, tracksIndex)
    ensures d.entries.Flat()[2] == ConvertToAudiusUrl(rootUrl, collectionsIndex)
    ensures d.entries.Flat()[3] == ConvertToAudiusUrl(rootUrl, usersIndex)
  {
    Doc(SitemapIndex, Many([ConvertToAudiusUrl(rootUrl, defaults),
                            ConvertToAudiusUrl(rootUrl, tracksIndex),
                            ConvertToAudiusUrl(rootUrl, collectionsIndex),
                            ConvertToAudiusUrl(rootUrl, usersIndex)]))
  }

  /** Whether the loader falls back to the skeleton: falsy path, read error, empty contents or parse failure. */
  predicate FallsBack(path: Option<string>, read: ReadResult, parse: string -> Option<ParsedDoc>) {
    || path.None? || path.value == ""
    || read.ReadFailed?
    || read.contents == ""
    || parse(read.contents).None?
  }

  /**
   * `createOrReadXMLAsObject`: the parsed file when there is one, otherwise the
   * skeleton. No failure reaches the caller.
   */
  function Load(path: Option<string>, read: ReadResult, parse: string -> Option<ParsedDoc>,
                skeleton: Doc): (d: Doc)
    ensures FallsBack(path, read, parse) ==> d == skeleton
    ensures !FallsBack(path, read, parse) ==>
              d == parse(read.contents).value && d.entries.Canonical()
    ensures skeleton.entries.WellFormed() ==> d.entries.WellFormed()
  {
    if path.None? || path.value == "" then skeleton
    else match read
      case ReadFailed => skeleton
      case ReadOk(contents) =>
        if contents == "" then skeleton
        else match parse(contents)
          case None => skeleton
          case Some(doc) => doc
  }

  /**
   * Every way of not having a usable file gives the same document: a missing
   * path, an unreadable file, an empty file and a corrupt file all load as the
   * skeleton.
   */
  lemma FailuresLoadAlike(p: string, contents: string, parse: string -> Option<ParsedDoc>, skeleton: Doc)
    requires p != "" && contents != "" && parse(contents).None?
    ensures Load(None, ReadOk(contents), parse, skeleton) == skeleton
    ensures Load(Some(""), ReadOk(contents), parse, skeleton) == skeleton
    ensures Load(Some(p), ReadFailed, parse, skeleton) == skeleton
    ensures Load(Some(p), ReadOk(""), parse, skeleton) == skeleton
    ensures Load(Some(p), ReadOk(contents), parse, skeleton) == skeleton
  {
  }
}

/**
 * The URL builders for fetched records. `encodeURI` is a function parameter
 * the model knows nothing about, and the site's root URL is a parameter.
 */
module Urls {
  import opened Values
  import opened Text
  import opened Slug

  datatype User = User(handle: string)
  datatype Track = Track(user: User, title: Option<string>, trackId: nat)
  datatype Collection = Collection(user: User, playlistName: Option<string>, playlistId: nat, isAlbum: bool)

  /** `${rootUrl}/${handle}/`: where every record URL of a user starts. */
  function UserPrefix(rootUrl: string, user: User): string {
    rootUrl + "/" + user.handle + "/"
  }

  /** `getTrackUrl`: the owner's handle, then the encoded title slug, a dash and the track id. */
  function TrackUrl(rootUrl: string, encode: string -> string, t: Track): (u: string)
    // the owner's prefix, then the encoded title slug, a dash and the id
    ensures ComposedOf(u, UserPrefix(rootUrl, t.user), "", encode(FormatUrlName(t.title)), t.trackId)
    // the id can be read back from the text after the last `-`, whatever the slug holds
    ensures forall i :: 0 <= i < |AfterLastDash(u)| ==> IsDigit(AfterLastDash(u)[i])
    ensures ParseDecimal(AfterLastDash(u)) == t.trackId
  {
    Compose(UserPrefix(rootUrl, t.user), "", encode(FormatUrlName(t.title)), t.trackId)
  }

  /** The path segment naming the kind of collection. */
  function CollectionType(c: Collection): string {
    if c.isAlbum then "album" else "playlist"
  }

  /** `getCollectionUrl`: the owner's handle, `album` or `playlist`, then the encoded name slug, a dash and the id. */
  function CollectionUrl(rootUrl: string, encode: string -> string, c: Collection): (u: string)
    // the owner's prefix, the type segment, then the encoded name slug, a dash and the id
    ensures ComposedOf(u, UserPrefix(rootUrl, c.user), CollectionType(c) + "/", encode(FormatUrlName(c.playlistName)),
                       c.playlistId)
    ensures var p := |UserPrefix(rootUrl, c.user)|;
            && p + 6 <= |u|
            // the segment after the handle is `album` exactly for albums
            && (u[p..p + 6] == "album/" <==> c.isAlbum)
            // and `playlist` for every other collection
            && (!c.isAlbum ==> p + 9 <= |u| && u[p..p + 9] == "playlist/")
    ensures forall i :: 0 <= i < |AfterLastDash(u)| ==> IsDigit(AfterLastDash(u)[i])
    ensures ParseDecimal(AfterLastDash(u)) == c.playlistId
  {
    var segment := CollectionType(c) + "/";
    var u := Compose(UserPrefix(rootUrl, c.user), segment, encode(FormatUrlName(c.playlistName)), c.playlistId);
    SegmentReadBack(u, |UserPrefix(rootUrl, c.user)|, c);
    u
  }

  /** The segment found at `p` tells an album from a playlist. */
  lemma SegmentReadBack(u: string, p: nat, c: Collection)
    requires p + |CollectionType(c)| + 1 <= |u| && u[p..p + |CollectionType(c)| + 1] == CollectionType(c) + "/"
    ensures p + 6 <= |u| && (u[p..p + 6] == "album/" <==> c.isAlbum)
    ensures !c.isAlbum ==> p + 9 <= |u| && u[p..p + 9] == "playlist/"
  {
    var seg := CollectionType(c) + "/";
    assert u[p..p + 6] == seg[..6];
    assert !c.isAlbum ==> seg[..6][0] == 'p';
  }

  /** `u` reads back as `prefix`, `segment`, `slug`, a dash and the decimal id, in that order. */
  predicate ComposedOf(u: string, prefix: string, segment: string, slug: string, id: nat) {
    var p, q := |prefix| + |segment|, |u| - |NatToString(id)| - 1;
    && p <= q
    && u[..|prefix|] == prefix && u[|prefix|..p] == segment
    && u[p..q] == slug && u[q] == '-' && u[q + 1..] == NatToString(id)
  }

  /** `prefix + segment + slug + "-" + id`, with the id readable after the last dash. */
  function Compose(prefix: string, segment: string, slug: string, id: nat): (u: string)
    ensures ComposedOf(u, prefix, segment, slug, id)
    ensures forall i :: 0 <= i < |AfterLastDash(u)| ==> IsDigit(AfterLastDash(u)[i])
    ensures ParseDecimal(AfterLastDash(u)) == id
  {
    var body := prefix + segment + slug;
    IdAfterLastDash(body, id);
    var u := body + "-" + NatToString(id);
    Parts(prefix, segment, slug, '-', NatToString(id), u);
    u
  }

  /** Where each piece of `a + b + c + [x] + e` lies. */
  lemma Parts(a: string, b: string, c: string, x: char, e: string, u: string)
    requires u == a + b + c + [x] + e
    ensures |a| + |b| + |c| + 1 + |e| == |u|
    ensures u[..|a|] == a && u[|a|..|a| + |b|] == b && u[|a| + |b|..|u| - |e| - 1] == c
    ensures u[|u| - |e| - 1] == x && u[|u| - |e|..] == e
  {
  }

  /** `getUserUrl`: the root URL, a slash and the handle. */
  function UserUrl(rootUrl: string, user: User): (u: string)
    ensures |u| == |rootUrl| + 1 + |user.handle|
    ensures u[..|rootUrl| + 1] == rootUrl + "/" && u[|rootUrl| + 1..] == user.handle
  {
    rootUrl + "/" + user.handle
  }
}

/**
 * The counter logic of `fetch`: probe ids `latestId + 1, latestId + 2, ...`
 * one per iteration until `maxIterations` probes were made or
 * `maxConsecutiveFailed` probes in a row failed. The HTTP request is the
 * `probe` oracle, a function of the probed id.
 */
module Fetch {

  import opened Values

  /** The defaults of the two bounds when the caller passes none. */
  const DEFAULT_MAX_ITERATIONS: int := 2
  const DEFAULT_MAX_CONSECUTIVE_FAILED: int := 10

  /** What the request for one id gave: it threw, or it answered with an error flag and a data list. */
  datatype Response<T> = Thrown | Reply(error: bool, data: seq<T>)

  /** A probe succeeds when the reply has no error and a non-empty data list; its item is the first element. */
  predicate Hit<T>(r: Response<T>) {
    r.Reply? && !r.error && |r.data| > 0
  }

  /** The items of the successful probes of ids `after + 1` to `after + count`, in id order. */
  function Successes<T>(probe: int -> Response<T>, after: int, count: nat): (items: seq<T>)
    ensures |items| <= count
  {
    if count == 0 then []
    else
      var r := probe(after + count);
      Successes(probe, after, count - 1) + (if Hit(r) then [r.data[0]] else [])
  }

  /** How many of the probes of ids `after + 1` to `after + count` failed in a row at the end: a success resets it. */
  function TrailingFailures<T>(probe: int -> Response<T>, after: int, count: nat): (n: nat)
    ensures n <= count
  {
    if count == 0 then 0
    else if Hit(probe(after + count)) then 0
    else TrailingFailures(probe, after, count - 1) + 1
  }

  method FetchItems<T>(probe: int -> Response<T>, latestId: int, maxIterations: int, maxConsecutiveFailed: int)
    returns (items: seq<T>, latest: int)
    ensures latestId <= latest
    ensures latest - latestId <= maxIterations || latest == latestId
    // the ids latestId + 1 .. latest were probed, one per iteration; items are their successes in id order
    ensures items == Successes(probe, latestId, latest - latestId)
    ensures |items| <= latest - latestId
    // it stopped because a bound was reached ...
    ensures latest - latestId >= maxIterations
            || TrailingFailures(probe, latestId, latest - latestId) >= maxConsecutiveFailed
    // ... and not earlier
    ensures forall j: nat :: j < latest - latestId ==> TrailingFailures(probe, latestId, j) < maxConsecutiveFailed
  {
    var failed := 0;
    var iterations := 0;
    items := [];
    var fetchId := latestId + 1;
    while failed < maxConsecutiveFailed && iterations < maxIterations
      invariant 0 <= iterations && (iterations <= maxIterations || iterations == 0)
      invariant fetchId == latestId + 1 + iterations
      invariant failed == TrailingFailures(probe, latestId, iterations)
      invariant items == Successes(probe, latestId, iterations)
      invariant forall j: nat :: j < iterations ==> TrailingFailures(probe, latestId, j) < maxConsecutiveFailed
      decreases maxIterations - iterations
    {
      var response := probe(fetchId);
      if Hit(response) {
        items := items + [response.data[0]];
        failed := 0;
      } else {
        failed := failed + 1;
      }
      fetchId := fetchId + 1;
      iterations := iterations + 1;
    }
    latest := latestId + iterations;
  }

  /**
   * `fetchTracks(latestId, count)` and its siblings as the cron job calls
   * them: `count` (missing when the option is not given) bounds the
   * iterations and the failure bound keeps its default. Up to ten probes the
   * failure bound can never stop the loop early, so exactly `count` ids (two
   * without the option) are probed.
   */
  method FetchWithDefaults<T>(probe: int -> Response<T>, latestId: int, count: Option<int>)
    returns (items: seq<T>, latest: int)
    ensures count.None? ==> latest == latestId + DEFAULT_MAX_ITERATIONS
    ensures count.Some? && 0 <= count.value <= DEFAULT_MAX_CONSECUTIVE_FAILED ==> latest == latestId + count.value
    ensures count.Some? ==> latest - latestId <= count.value || latest == latestId
    ensures latestId <= latest && items == Successes(probe, latestId, latest - latestId)
  {
    var maxIterations := if count.Some? then count.value else DEFAULT_MAX_ITERATIONS;
    items, latest := FetchItems(probe, latestId, maxIterations, DEFAULT_MAX_CONSECUTIVE_FAILED);
  }
}

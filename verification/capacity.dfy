/**
 * `getLatestSiteMapNumber`: which numbered sitemap the next record goes to,
 * given the watermark. The source computes
 * `Math.ceil(((latest + 1) / MAX) % MAX)` in floating point; for every
 * watermark below 2^53 that equals the integer expression
 * `ceil(((latest + 1) mod MAX^2) / MAX)` used here.
 */
module Capacity {
  import opened SitemapDoc

  const MAX_SQUARED: nat := MAX_SITE_MAP_ENTRIES * MAX_SITE_MAP_ENTRIES

  /** The file number as the source computes it, wrap-around included. */
  function SiteMapNumber(latest: nat): (r: nat)
    ensures r <= MAX_SITE_MAP_ENTRIES
    // r is the ceiling of ((latest + 1) mod MAX^2) / MAX
    ensures (r - 1) * MAX_SITE_MAP_ENTRIES < (latest + 1) % MAX_SQUARED <= r * MAX_SITE_MAP_ENTRIES
  {
    var m := (latest + 1) % MAX_SQUARED;
    (m + MAX_SITE_MAP_ENTRIES - 1) / MAX_SITE_MAP_ENTRIES
  }

  /** The boundaries: watermark 0 and 49,999 map to file 1, 50,000 to file 2. */
  lemma SiteMapNumberBoundaries()
    ensures SiteMapNumber(0) == 1
    ensures SiteMapNumber(MAX_SITE_MAP_ENTRIES - 1) == 1
    ensures SiteMapNumber(MAX_SITE_MAP_ENTRIES) == 2
  {
  }

  /**
   * The number the comment above the source function describes: record
   * `latest + 1` sits in file `ceil((latest + 1) / MAX)`.
   */
  function IntendedSiteMapNumber(latest: nat): (r: nat)
    ensures r >= 1
    ensures (r - 1) * MAX_SITE_MAP_ENTRIES < latest + 1 <= r * MAX_SITE_MAP_ENTRIES
  {
    latest / MAX_SITE_MAP_ENTRIES + 1
  }

  /** Below MAX^2 - 1 the source agrees with the intended number. */
  lemma SiteMapNumberAgreesBelowWrap(latest: nat)
    requires latest + 1 < MAX_SQUARED
    ensures SiteMapNumber(latest) == IntendedSiteMapNumber(latest)
  {
  }

  /**
   * The modulo makes the number wrap: watermark MAX^2 - 1 maps to file 0,
   * which does not exist, and MAX^2 back to file 1, although those records
   * belong in files 50,000 and 50,001.
   */
  lemma SiteMapNumberWrapsAround()
    ensures SiteMapNumber(MAX_SQUARED - 1) == 0
    ensures IntendedSiteMapNumber(MAX_SQUARED - 1) == MAX_SITE_MAP_ENTRIES
    ensures SiteMapNumber(MAX_SQUARED) == 1
    ensures IntendedSiteMapNumber(MAX_SQUARED) == MAX_SITE_MAP_ENTRIES + 1
  {
  }

  /** The intended number never goes backwards as the watermark grows. */
  lemma IntendedSiteMapNumberMonotonic(a: nat, b: nat)
    requires a <= b
    ensures IntendedSiteMapNumber(a) <= IntendedSiteMapNumber(b)
  {
  }
}

/** Small value types and string helpers shared by the sitemap and query models. */
module Values {

  /** A value that may be missing: JavaScript's `null`/`undefined` versus a present value. */
  datatype Option<+T> = None | Some(value: T)

  /** Concatenation is associative; stated once for the proofs that regroup pieces of a string. */
  lemma Reassociate<T>(x: seq<T>, y: seq<T>, z: seq<T>)
    ensures x + (y + z) == (x + y) + z
  {
  }
}

/**
 * String building blocks: the decimal rendering of a number as a template
 * literal produces it, the numbered sitemap path, the first-occurrence
 * `replace` used to turn a relative path into a site URL, and the suffix
 * after the last `-` of a slug.
 */
module Text {
  import opened Values

  predicate IsDigit(c: char) {
    '0' <= c <= '9'
  }

  function DigitChar(d: nat): (c: char)
    requires d < 10
    ensures IsDigit(c)
    ensures c as int - '0' as int == d
  {
    ('0' as int + d) as char
  }

  function DigitValue(c: char): (d: nat)
    requires IsDigit(c)
    ensures d < 10
  {
    c as int - '0' as int
  }

  /** The decimal digits of `n`, most significant first, without leading zeros. */
  function NatToString(n: nat): (r: string)
    ensures |r| >= 1
    ensures forall i :: 0 <= i < |r| ==> IsDigit(r[i])
    decreases n
  {
    if n < 10 then [DigitChar(n)] else NatToString(n / 10) + [DigitChar(n % 10)]
  }

  /** Reads a string of decimal digits back into a number. */
  function ParseDecimal(s: string): nat
    requires forall i :: 0 <= i < |s| ==> IsDigit(s[i])
  {
    if |s| == 0 then 0 else ParseDecimal(s[..|s| - 1]) * 10 + DigitValue(s[|s| - 1])
  }

  /** Rendering a number in decimal and reading it back gives the number. */
  lemma {:induction false} ParseNatToString(n: nat)
    ensures ParseDecimal(NatToString(n)) == n
    decreases n
  {
    if n >= 10 {
      var s := NatToString(n);
      ParseNatToString(n / 10);
      assert s[..|s| - 1] == NatToString(n / 10);
    }
  }

  /** `${root}/${number}.xml` */
  function SiteMapPath(root: string, number: nat): (p: string)
    ensures |p| == |root| + |NatToString(number)| + 5
    ensures p[..|root| + 1] == root + "/"
    ensures p[|p| - 4..] == ".xml"
  {
    root + "/" + NatToString(number) + ".xml"
  }

  /** Recovers the file number from a path built by `SiteMapPath`. */
  function SiteMapNumberOfPath(root: string, p: string): nat
    requires |root| + 5 <= |p|
    requires forall i :: |root| + 1 <= i < |p| - 4 ==> IsDigit(p[i])
  {
    ParseDecimal(p[|root| + 1..|p| - 4])
  }

  /** The number can be read back from the path, so distinct numbers give distinct paths. */
  lemma {:induction false} SiteMapPathRoundTrip(root: string, number: nat)
    ensures |root| + 5 <= |SiteMapPath(root, number)|
    ensures forall i :: |root| + 1 <= i < |SiteMapPath(root, number)| - 4 ==> IsDigit(SiteMapPath(root, number)[i])
    ensures SiteMapNumberOfPath(root, SiteMapPath(root, number)) == number
  {
    var p := SiteMapPath(root, number);
    var d := NatToString(number);
    assert p[|root| + 1..|p| - 4] == d;
    forall i | |root| + 1 <= i < |p| - 4
      ensures IsDigit(p[i])
    {
      assert p[i] == d[i - |root| - 1];
    }
    ParseNatToString(number);
  }

  lemma SiteMapPathInjective(root: string, a: nat, b: nat)
    requires SiteMapPath(root, a) == SiteMapPath(root, b)
    ensures a == b
  {
    SiteMapPathRoundTrip(root, a);
    SiteMapPathRoundTrip(root, b);
  }

  /** Whether `./` occurs at index `i` of `s`. */
  predicate DotSlashAt(s: string, i: int) {
    0 <= i && i + 1 < |s| && s[i] == '.' && s[i + 1] == '/'
  }

  /** The index of the first `./` in `s`, if any: an index-based reference for `ReplaceFirstDotSlash`. */
  function FirstDotSlash(s: string): (r: Option<nat>)
    ensures r.Some? ==> DotSlashAt(s, r.value) && forall j :: 0 <= j < r.value ==> !DotSlashAt(s, j)
    ensures r.None? ==> forall j :: 0 <= j < |s| ==> !DotSlashAt(s, j)
    decreases |s|
  {
    if |s| < 2 then None
    else if s[0] == '.' && s[1] == '/' then Some(0)
    else
      assert forall j :: 1 <= j < |s| ==> DotSlashAt(s, j) == DotSlashAt(s[1..], j - 1);
      match FirstDotSlash(s[1..])
      case None => None
      case Some(k) => Some(k + 1)
  }

  /**
   * The replacement text as `replace` inserts it for a string pattern:
   * `$$` becomes `$`, `$&` the matched text, `` $` `` the text before the
   * match and `$'` the text after it; every other `$` stays as it is, since a
   * string pattern has no capture groups.
   */
  function Substitute(t: string, before: string, matched: string, after: string): (r: string)
    ensures (forall j :: 0 <= j < |t| ==> t[j] != '$') ==> r == t
    decreases |t|
  {
    if |t| == 0 then t
    else if t[0] == '$' && |t| >= 2 && t[1] == '$' then "$" + Substitute(t[2..], before, matched, after)
    else if t[0] == '$' && |t| >= 2 && t[1] == '&' then matched + Substitute(t[2..], before, matched, after)
    else if t[0] == '$' && |t| >= 2 && t[1] == '`' then before + Substitute(t[2..], before, matched, after)
    else if t[0] == '$' && |t| >= 2 && t[1] == '\'' then after + Substitute(t[2..], before, matched, after)
    else [t[0]] + Substitute(t[1..], before, matched, after)
  }

  /** The four patterns, for any text after them. */
  lemma SubstitutePatterns(t: string, before: string, matched: string, after: string)
    ensures Substitute("$$" + t, before, matched, after) == "$" + Substitute(t, before, matched, after)
    ensures Substitute("$&" + t, before, matched, after) == matched + Substitute(t, before, matched, after)
    ensures Substitute("$`" + t, before, matched, after) == before + Substitute(t, before, matched, after)
    ensures Substitute("$'" + t, before, matched, after) == after + Substitute(t, before, matched, after)
  {
    assert ("$$" + t)[2..] == t && ("$&" + t)[2..] == t;
    assert ("$`" + t)[2..] == t && ("$'" + t)[2..] == t;
  }

  /** A `$` that starts none of the four patterns, the last one included, is copied as it is. */
  lemma SubstituteLoneDollar(x: char, t: string, before: string, matched: string, after: string)
    requires x != '$' && x != '&' && x != '`' && x != '\''
    ensures Substitute("$", before, matched, after) == "$"
    ensures Substitute("$" + [x] + t, before, matched, after) == "$" + Substitute([x] + t, before, matched, after)
  {
    assert "$"[1..] == "";
    assert ("$" + [x] + t)[1..] == [x] + t;
  }

  /** Text without `$` is copied as it is, whatever follows it. */
  lemma {:induction false} SubstitutePlainPrefix(a: string, t: string, before: string, matched: string, after: string)
    requires NoDollar(a)
    ensures Substitute(a + t, before, matched, after) == a + Substitute(t, before, matched, after)
    decreases |a|
  {
    if |a| > 0 {
      var rest := a[1..];
      var st := Substitute(t, before, matched, after);
      NoDollarTail(a);
      SplitFirst(a, t);
      SubstituteCopies(a[0], rest + t, before, matched, after);
      SubstitutePlainPrefix(rest, t, before, matched, after);
      Reassociate([a[0]], rest, st);
    } else {
      assert a + t == t;
    }
  }

  lemma SplitFirst(a: string, t: string)
    requires |a| > 0
    ensures a + t == [a[0]] + (a[1..] + t) && a == [a[0]] + a[1..]
  {
  }

  /** A character other than `$` is copied. */
  lemma SubstituteCopies(x: char, t: string, before: string, matched: string, after: string)
    requires x != '$'
    ensures Substitute([x] + t, before, matched, after) == [x] + Substitute(t, before, matched, after)
  {
    assert ([x] + t)[0] == x && ([x] + t)[1..] == t;
  }

  lemma NoDollarTail(a: string)
    requires |a| > 0 && NoDollar(a)
    ensures a[0] != '$' && NoDollar(a[1..])
  {
    forall j | 0 <= j < |a[1..]|
      ensures a[1..][j] != '$'
    {
      assert a[1..][j] == a[j + 1];
    }
  }

  /**
   * The scan behind `ReplaceFirstDotSlash`: `consumed` is the text already
   * passed over, which the `` $` `` pattern refers to.
   */
  function ReplaceFirstDotSlashAfter(consumed: string, s: string, repl: string): (r: string)
    ensures FirstDotSlash(s).None? ==> r == s
    ensures FirstDotSlash(s).Some? ==>
              var i := FirstDotSlash(s).value;
              r == s[..i] + Substitute(repl, consumed + s[..i], "./", s[i + 2..]) + s[i + 2..]
    decreases |s|
  {
    if |s| < 2 then s
    else if s[0] == '.' && s[1] == '/' then
      assert consumed + s[..0] == consumed;
      Substitute(repl, consumed, "./", s[2..]) + s[2..]
    else
      var rest := ReplaceFirstDotSlashAfter(consumed + [s[0]], s[1..], repl);
      match FirstDotSlash(s[1..])
      case None =>
        assert FirstDotSlash(s).None? && s == [s[0]] + s[1..];
        [s[0]] + rest
      case Some(k) =>
        assert FirstDotSlash(s) == Some(k + 1);
        ScanStep(consumed, s, repl, k, rest);
        [s[0]] + rest
  }

  /** One character moves from the unscanned text to the scanned text, and the match moves one place right. */
  lemma ScanStep(consumed: string, s: string, repl: string, k: nat, rest: string)
    requires k + 2 < |s|
    requires rest == s[1..][..k] + Substitute(repl, (consumed + [s[0]]) + s[1..][..k], "./", s[1..][k + 2..])
                     + s[1..][k + 2..]
    ensures [s[0]] + rest == s[..k + 1] + Substitute(repl, consumed + s[..k + 1], "./", s[k + 3..]) + s[k + 3..]
  {
    assert s[..k + 1] == [s[0]] + s[1..][..k] by {
      assert forall i :: 0 <= i < k + 1 ==> s[..k + 1][i] == ([s[0]] + s[1..][..k])[i];
    }
    assert (consumed + [s[0]]) + s[1..][..k] == consumed + s[..k + 1];
    assert s[1..][k + 2..] == s[k + 3..];
  }

  /**
   * `s.replace('./', repl)`: a string pattern in JavaScript's `replace` replaces
   * only its first occurrence, wherever it is, and the replacement text is
   * expanded by `Substitute`.
   */
  function ReplaceFirstDotSlash(s: string, repl: string): (r: string)
    ensures FirstDotSlash(s).None? ==> r == s
    ensures FirstDotSlash(s).Some? ==>
              var i := FirstDotSlash(s).value; r == s[..i] + Substitute(repl, s[..i], "./", s[i + 2..]) + s[i + 2..]
  {
    assert forall x: string :: "" + x == x;
    ReplaceFirstDotSlashAfter("", s, repl)
  }

  /** `convertToAudiusURL`: the first `./` becomes `${rootUrl}/`. */
  function ConvertToAudiusUrl(rootUrl: string, path: string): (r: string)
    ensures FirstDotSlash(path).None? ==> r == path
    ensures FirstDotSlash(path).Some? ==>
              var i := FirstDotSlash(path).value;
              r == path[..i] + Substitute(rootUrl + "/", path[..i], "./", path[i + 2..]) + path[i + 2..]
  {
    ReplaceFirstDotSlash(path, rootUrl + "/")
  }

  /** A root URL without `$` is inserted as it is. */
  predicate NoDollar(t: string) {
    forall j :: 0 <= j < |t| ==> t[j] != '$'
  }

  /** A path written relative to the working directory becomes an absolute site URL. */
  lemma ConvertRelativePath(rootUrl: string, rest: string)
    requires NoDollar(rootUrl)
    ensures ConvertToAudiusUrl(rootUrl, "./" + rest) == rootUrl + "/" + rest
  {
    assert NoDollar(rootUrl + "/");
  }

  /** Only the first `./` is replaced: a later one survives untouched. */
  lemma ConvertReplacesOnlyFirst(rootUrl: string, a: string, b: string)
    requires NoDollar(rootUrl)
    ensures ConvertToAudiusUrl(rootUrl, "./" + a + "./" + b) == rootUrl + "/" + a + "./" + b
  {
    assert NoDollar(rootUrl + "/");
    assert ("./" + a + "./" + b)[2..] == a + "./" + b;
  }

  /**
   * A `$` pattern in the root URL is expanded, not copied: with root URL
   * `x$&` the path `./a` becomes `x./` followed by `/a`, and `$$` gives one `$`.
   */
  lemma ConvertExpandsDollarPatterns()
    ensures ConvertToAudiusUrl("x$&", "./a") == "x.//a"
    ensures ConvertToAudiusUrl("$$", "./a") == "$/a"
  {
    assert FirstDotSlash("./a") == Some(0);
    assert "./a"[..0] == "" && "./a"[2..] == "a";
    assert Substitute("/", "", "./", "a") == "/" by {
      assert "/"[1..] == "";
    }
    assert "x$&/"[1..] == "$&/" && "$&/"[2..] == "/";
    assert Substitute("x$&/", "", "./", "a") == "x./" + "/";
    assert "x$&" + "/" == "x$&/" && "" + ("x./" + "/") + "a" == "x.//a";
    assert "$$/"[2..] == "/";
    assert Substitute("$$/", "", "./", "a") == "$/";
    assert "$$" + "/" == "$$/" && "" + "$/" + "a" == "$/a";
  }

  /** The characters after the last `-` of `s` (all of `s` when it has none). */
  function AfterLastDash(s: string): string
    decreases |s|
  {
    if |s| == 0 then s
    else if s[|s| - 1] == '-' then ""
    else AfterLastDash(s[..|s| - 1]) + [s[|s| - 1]]
  }

  lemma {:induction false} AfterLastDashOfSuffix(p: string, d: string)
    requires forall i :: 0 <= i < |d| ==> d[i] != '-'
    ensures AfterLastDash(p + "-" + d) == d
    decreases |d|
  {
    var s := p + "-" + d;
    if |d| > 0 {
      var d' := d[..|d| - 1];
      assert s[..|s| - 1] == p + "-" + d';
      AfterLastDashOfSuffix(p, d');
      assert d == d' + [d[|d| - 1]];
    } else {
      assert s[|s| - 1] == '-';
    }
  }

  /** The decimal id at the end of `prefix + "-" + id` can be read back whatever the prefix holds. */
  lemma IdAfterLastDash(prefix: string, id: nat)
    ensures forall i :: 0 <= i < |AfterLastDash(prefix + "-" + NatToString(id))| ==>
              IsDigit(AfterLastDash(prefix + "-" + NatToString(id))[i])
    ensures ParseDecimal(AfterLastDash(prefix + "-" + NatToString(id))) == id
  {
    AfterLastDashOfSuffix(prefix, NatToString(id));
    ParseNatToString(id);
  }
}

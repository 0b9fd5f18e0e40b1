/**
 * `formatUrlName`: turns a title into a URL slug in four passes: drop the
 * characters reserved in URLs, turn every run of whitespace into one `-`,
 * squeeze every run of `-` into one, and lower-case.
 */
module Slug {
  import opened Values

  /** The characters the first pass removes: ! % # $ & ' ( ) * + , / : ; = ? @ [ ] */
  predicate IsReserved(c: char) {
    || c == '!' || c == '%' || c == '#' || c == '$' || c == '&' || c == '\''
    || c == '(' || c == ')' || c == '*' || c == '+' || c == ',' || c == '/'
    || c == ':' || c == ';' || c == '=' || c == '?' || c == '@' || c == '[' || c == ']'
  }

  /** What the regular-expression class `\s` matches: the WhiteSpace and LineTerminator code points. */
  predicate IsSpace(c: char) {
    var n := c as int;
    || n == 0x09 || n == 0x0A || n == 0x0B || n == 0x0C || n == 0x0D || n == 0x20
    || n == 0xA0 || n == 0x1680 || (0x2000 <= n <= 0x200A) || n == 0x2028 || n == 0x2029
    || n == 0x202F || n == 0x205F || n == 0x3000 || n == 0xFEFF
  }

  predicate IsUpperAscii(c: char) {
    'A' <= c <= 'Z'
  }

  /** The two runs the slug squeezes: whitespace, and `-` itself. */
  datatype RunClass = Whitespace | Dash

  predicate InClass(c: char, cls: RunClass) {
    match cls
    case Whitespace => IsSpace(c)
    case Dash => c == '-'
  }

  predicate NoDoubleDash(s: string) {
    forall i :: 0 <= i < |s| - 1 ==> !(s[i] == '-' && s[i + 1] == '-')
  }

  /** The characters a slug keeps as they are (apart from case): neither reserved, whitespace nor `-`. */
  predicate IsWordChar(c: char) {
    !IsReserved(c) && !IsSpace(c) && c != '-'
  }

  predicate IsWord(s: string) {
    forall i :: 0 <= i < |s| ==> IsWordChar(s[i])
  }

  /** What every slug satisfies. */
  predicate IsSlug(s: string) {
    && (forall i :: 0 <= i < |s| ==> !IsReserved(s[i]) && !IsSpace(s[i]) && !IsUpperAscii(s[i]))
    && NoDoubleDash(s)
  }

  /** `.replace(/!|%|...|\]/g, '')` */
  function StripReserved(s: string): (r: string)
    ensures |r| <= |s|
    ensures forall i :: 0 <= i < |r| ==> !IsReserved(r[i]) && r[i] in s
    ensures (forall i :: 0 <= i < |s| ==> !IsReserved(s[i])) ==> r == s
  {
    if |s| == 0 then []
    else
      (if IsReserved(s[0]) then [] else [s[0]]) + StripReserved(s[1..])
  }

  /** Every character that is not reserved is kept, as often as it occurs. */
  lemma {:induction false} StripReservedKeepsOthers(s: string, c: char)
    requires !IsReserved(c)
    ensures multiset(StripReserved(s))[c] == multiset(s)[c]
    decreases |s|
  {
    if |s| > 0 {
      StripReservedKeepsOthers(s[1..], c);
      assert s == [s[0]] + s[1..];
    }
  }

  /** Stripping works character by character: it distributes over concatenation. */
  lemma {:induction false} StripReservedConcat(a: string, b: string)
    ensures StripReserved(a + b) == StripReserved(a) + StripReserved(b)
    decreases |a|
  {
    if |a| > 0 {
      var k := if IsReserved(a[0]) then [] else [a[0]];
      assert (a + b)[0] == a[0] && (a + b)[1..] == a[1..] + b;
      assert StripReserved(a + b) == k + StripReserved(a[1..] + b);
      StripReservedConcat(a[1..], b);
      assert StripReserved(a) == k + StripReserved(a[1..]);
    } else {
      assert a + b == b;
    }
  }

  /** On one character, stripping drops it exactly when it is reserved. */
  lemma StripReservedSingle(c: char)
    ensures StripReserved([c]) == if IsReserved(c) then [] else [c]
  {
    assert [c][1..] == [];
  }

  /**
   * Replaces every maximal run of `cls` characters by one `-`; `inRun` says
   * whether the characters just before `s` were such a run, already replaced.
   * With `Whitespace` this is `.replace(/\s+/g, '-')`, with `Dash`
   * `.replace(/-+/g, '-')`.
   */
  function SquashRuns(s: string, cls: RunClass, inRun: bool): (r: string)
    ensures forall i :: 0 <= i < |r| ==> r[i] == '-' || !InClass(r[i], cls)
    ensures cls == Dash ==> NoDoubleDash(r) && (inRun && |r| > 0 ==> r[0] != '-')
  {
    if |s| == 0 then []
    else if InClass(s[0], cls) then
      if inRun then SquashRuns(s[1..], cls, true) else "-" + SquashRuns(s[1..], cls, true)
    else [s[0]] + SquashRuns(s[1..], cls, false)
  }

  /**
   * Squeezing draws its characters from the input: each is taken from `s`
   * or is the `-` that replaces a run, itself from `s` when runs of `-` are squeezed.
   */
  lemma {:induction false} SquashRunsDrawsFrom(s: string, cls: RunClass, inRun: bool)
    ensures forall x :: x in SquashRuns(s, cls, inRun) ==> x == '-' || x in s
    ensures cls == Dash ==> forall x :: x in SquashRuns(s, cls, inRun) ==> x in s
    decreases |s|
  {
    if |s| > 0 {
      var t := s[1..];
      var next := InClass(s[0], cls);
      SquashRunsDrawsFrom(t, cls, next);
      assert s == [s[0]] + t;
      SquashRunsCons(s[0], t, cls, inRun);
      var h := RunHead(s[0], cls, inRun);
      assert forall x :: x in h ==> x == s[0] || (x == '-' && next);
      assert forall x :: x in t ==> x in s;
    }
  }

  /** Squeezing never lengthens: each run of one or more characters becomes at most one. */
  lemma {:induction false} SquashRunsNoLonger(s: string, cls: RunClass, inRun: bool)
    ensures |SquashRuns(s, cls, inRun)| <= |s|
    decreases |s|
  {
    if |s| > 0 {
      SquashRunsNoLonger(s[1..], cls, InClass(s[0], cls));
    }
  }

  /**
   * A character outside the class is kept and splits the squeeze in two: what
   * comes after it starts outside any run.
   */
  lemma {:induction false} SquashRunsSplit(a: string, c: char, b: string, cls: RunClass, inRun: bool)
    requires !InClass(c, cls)
    ensures SquashRuns(a + [c] + b, cls, inRun) == SquashRuns(a, cls, inRun) + [c] + SquashRuns(b, cls, false)
    decreases |a|
  {
    if |a| == 0 {
      assert a + [c] + b == [c] + b;
      SquashRunsCons(c, b, cls, inRun);
    } else {
      var next := InClass(a[0], cls);
      SplitUnfold(a, c, b, cls, inRun);
      SquashRunsSplit(a[1..], c, b, cls, next);
      var h, x := RunHead(a[0], cls, inRun), SquashRuns(a[1..], cls, next);
      Reassociate(h, x + [c], SquashRuns(b, cls, false));
      Reassociate(h, x, [c]);
    }
  }

  /** What the squeeze puts out for one character: itself, or the `-` that opens a run. */
  function RunHead(x: char, cls: RunClass, inRun: bool): string {
    if !InClass(x, cls) then [x] else if inRun then "" else "-"
  }

  lemma SplitUnfold(a: string, c: char, b: string, cls: RunClass, inRun: bool)
    requires |a| > 0
    ensures SquashRuns(a + [c] + b, cls, inRun)
            == RunHead(a[0], cls, inRun) + SquashRuns(a[1..] + [c] + b, cls, InClass(a[0], cls))
    ensures SquashRuns(a, cls, inRun) == RunHead(a[0], cls, inRun) + SquashRuns(a[1..], cls, InClass(a[0], cls))
  {
    assert a + [c] + b == [a[0]] + (a[1..] + [c] + b);
    SquashRunsCons(a[0], a[1..] + [c] + b, cls, inRun);
    assert a == [a[0]] + a[1..];
    SquashRunsCons(a[0], a[1..], cls, inRun);
  }

  /** One step of the squeeze: the first character, then the rest. */
  lemma SquashRunsCons(x: char, t: string, cls: RunClass, inRun: bool)
    ensures SquashRuns([x] + t, cls, inRun) == RunHead(x, cls, inRun) + SquashRuns(t, cls, InClass(x, cls))
  {
    assert ([x] + t)[0] == x && ([x] + t)[1..] == t;
  }

  /** A whole run of class characters becomes one `-`, or nothing when it continues a run already replaced. */
  lemma {:induction false} SquashRunsCollapsesRun(w: string, t: string, cls: RunClass, inRun: bool)
    requires |w| > 0 && forall i :: 0 <= i < |w| ==> InClass(w[i], cls)
    ensures SquashRuns(w + t, cls, inRun) == (if inRun then "" else "-") + SquashRuns(t, cls, true)
    decreases |w|
  {
    assert w + t == [w[0]] + (w[1..] + t);
    assert RunHead(w[0], cls, inRun) == (if inRun then "" else "-");
    SquashRunsCons(w[0], w[1..] + t, cls, inRun);
    if |w| > 1 {
      SquashRunsCollapsesRun(w[1..], t, cls, true);
    } else {
      assert w[1..] + t == t;
    }
  }

  function LowerChar(c: char): (d: char)
    ensures !IsUpperAscii(d)
  {
    if IsUpperAscii(c) then (c as int + 32) as char else c
  }

  /** `.toLowerCase()` on the ASCII capitals. */
  function LowerAscii(s: string): (r: string)
    ensures |r| == |s|
    ensures forall i :: 0 <= i < |s| ==> r[i] == LowerChar(s[i])
  {
    seq(|s|, i requires 0 <= i < |s| => LowerChar(s[i]))
  }

  /**
   * `formatUrlName`: a missing or empty name gives the empty slug; a name of
   * word characters only is lower-cased and otherwise kept.
   */
  function FormatUrlName(name: Option<string>): (r: string)
    ensures name.None? || name.value == "" ==> r == ""
    ensures name.Some? ==> |r| <= |name.value|
    ensures name.Some? && IsWord(name.value) ==> r == LowerAscii(name.value)
    ensures IsSlug(r)
  {
    match name
    case None => ""
    case Some(s) =>
      if s == "" then ""
      else
        var p := SlugPasses(s);
        LowerAsciiKeepsSlug(p);
        LowerAscii(p)
  }

  /** Lower-casing moves an ASCII capital to an ASCII small letter, which is neither reserved, whitespace nor `-`. */
  lemma LowerCharKeepsClass(c: char)
    ensures IsReserved(LowerChar(c)) == IsReserved(c)
    ensures IsSpace(LowerChar(c)) == IsSpace(c)
    ensures (LowerChar(c) == '-') == (c == '-')
  {
  }

  /** Lower-casing a string free of reserved characters, whitespace and `--` gives a slug. */
  lemma LowerAsciiKeepsSlug(p: string)
    requires forall i :: 0 <= i < |p| ==> !IsReserved(p[i]) && !IsSpace(p[i])
    requires NoDoubleDash(p)
    ensures IsSlug(LowerAscii(p))
  {
    var r := LowerAscii(p);
    forall i | 0 <= i < |p|
      ensures !IsReserved(r[i]) && !IsSpace(r[i]) && (r[i] == '-') == (p[i] == '-')
    {
      LowerCharKeepsClass(p[i]);
    }
  }

  /** The three passes before lower-casing: strip, turn whitespace runs into `-`, squeeze `-` runs. */
  function SlugPasses(s: string): (r: string)
    ensures |r| <= |s|
    ensures forall i :: 0 <= i < |r| ==> !IsReserved(r[i]) && !IsSpace(r[i])
    ensures NoDoubleDash(r)
    ensures IsWord(s) ==> r == s
  {
    var stripped := StripReserved(s);
    var dashed := SquashRuns(stripped, Whitespace, false);
    var squeezed := SquashRuns(dashed, Dash, false);
    SquashRunsNoLonger(stripped, Whitespace, false);
    SquashRunsNoLonger(dashed, Dash, false);
    SquashKeepsNoReserved(stripped, Whitespace, false);
    SquashKeepsNoReserved(dashed, Dash, false);
    DashPassKeepsNoSpace(dashed, false);
    if IsWord(s) then WordPassesThrough(s); squeezed
    else squeezed
  }

  /** Squeezing brings in no reserved character: it only adds `-`. */
  lemma SquashKeepsNoReserved(t: string, cls: RunClass, inRun: bool)
    requires forall i :: 0 <= i < |t| ==> !IsReserved(t[i])
    ensures forall i :: 0 <= i < |SquashRuns(t, cls, inRun)| ==> !IsReserved(SquashRuns(t, cls, inRun)[i])
  {
    var r := SquashRuns(t, cls, inRun);
    SquashRunsDrawsFrom(t, cls, inRun);
    forall i | 0 <= i < |r|
      ensures !IsReserved(r[i])
    {
      if r[i] != '-' {
        assert r[i] in t;
        var j :| 0 <= j < |t| && t[j] == r[i];
      }
    }
  }

  /** The whitespace pass leaves no whitespace, and the dash pass brings none back. */
  lemma DashPassKeepsNoSpace(t: string, inRun: bool)
    requires forall i :: 0 <= i < |t| ==> !IsSpace(t[i])
    ensures forall i :: 0 <= i < |SquashRuns(t, Dash, inRun)| ==> !IsSpace(SquashRuns(t, Dash, inRun)[i])
  {
    var r := SquashRuns(t, Dash, inRun);
    SquashRunsDrawsFrom(t, Dash, inRun);
    forall i | 0 <= i < |r|
      ensures !IsSpace(r[i])
    {
      assert r[i] in t;
      var j :| 0 <= j < |t| && t[j] == r[i];
    }
  }

  /** Squeezing `cls` runs changes nothing in a string that has no `cls` character. */
  lemma {:induction false} SquashRunsNoClass(s: string, cls: RunClass, inRun: bool)
    requires forall i :: 0 <= i < |s| ==> !InClass(s[i], cls)
    ensures SquashRuns(s, cls, inRun) == s
    decreases |s|
  {
    if |s| > 0 {
      SquashRunsNoClass(s[1..], cls, false);
      assert RunHead(s[0], cls, inRun) == [s[0]];
      assert s == [s[0]] + s[1..];
      SquashRunsCons(s[0], s[1..], cls, inRun);
    }
  }

  /** Squeezing `-` runs changes nothing in a string with no `--`. */
  lemma {:induction false} SquashDashesNoDouble(s: string, inRun: bool)
    requires NoDoubleDash(s)
    requires inRun ==> |s| == 0 || s[0] != '-'
    ensures SquashRuns(s, Dash, inRun) == s
    decreases |s|
  {
    if |s| > 0 {
      NoDoubleDashTail(s);
      SquashDashesNoDouble(s[1..], s[0] == '-');
      assert RunHead(s[0], Dash, inRun) == [s[0]];
      assert s == [s[0]] + s[1..];
      SquashRunsCons(s[0], s[1..], Dash, inRun);
    }
  }

  /** The tail of a string with no `--` has none either, and does not start with `-` after a `-`. */
  lemma NoDoubleDashTail(s: string)
    requires |s| > 0 && NoDoubleDash(s)
    ensures NoDoubleDash(s[1..])
    ensures s[0] == '-' ==> |s| == 1 || s[1..][0] != '-'
  {
    var t := s[1..];
    forall i | 0 <= i < |t| - 1
      ensures !(t[i] == '-' && t[i + 1] == '-')
    {
      assert t[i] == s[i + 1] && t[i + 1] == s[i + 2];
    }
  }

  lemma LowerAsciiNoUpper(s: string)
    requires forall i :: 0 <= i < |s| ==> !IsUpperAscii(s[i])
    ensures LowerAscii(s) == s
  {
  }

  /** A slug is its own slug: formatting twice gives what formatting once gave. */
  lemma FormatUrlNameIdempotent(name: Option<string>)
    ensures FormatUrlName(Some(FormatUrlName(name))) == FormatUrlName(name)
  {
    var r := FormatUrlName(name);
    if r != "" {
      assert StripReserved(r) == r;
      SquashRunsNoClass(r, Whitespace, false);
      SquashDashesNoDouble(r, false);
      LowerAsciiNoUpper(r);
    }
  }

  /** A name of word characters comes through the first three passes unchanged. */
  lemma WordPassesThrough(s: string)
    requires IsWord(s)
    ensures SquashRuns(SquashRuns(StripReserved(s), Whitespace, false), Dash, false) == s
  {
    assert StripReserved(s) == s;
    SquashRunsNoClass(s, Whitespace, false);
    SquashRunsNoClass(s, Dash, false);
  }

  lemma LowerAsciiConcat(a: string, b: string)
    ensures LowerAscii(a + b) == LowerAscii(a) + LowerAscii(b)
  {
  }

  /**
   * Two words separated by any run of whitespace give the two lower-cased
   * words joined by a single `-`.
   */
  lemma FormatUrlNameJoinsWords(a: string, w: string, b: string)
    requires |a| > 0 && IsWord(a) && |b| > 0 && IsWord(b)
    requires |w| > 0 && forall i :: 0 <= i < |w| ==> IsSpace(w[i])
    ensures FormatUrlName(Some(a + w + b)) == LowerAscii(a) + "-" + LowerAscii(b)
  {
    var s := a + w + b;
    assert |s| > 0;
    assert FormatUrlName(Some(s)) == LowerAscii(SlugPasses(s));
    PassesOfJoin(a, w, b);
    LowerJoin(a, b);
  }

  lemma LowerJoin(a: string, b: string)
    ensures LowerAscii(a + "-" + b) == LowerAscii(a) + "-" + LowerAscii(b)
  {
    LowerAsciiConcat(a + "-", b);
    LowerAsciiConcat(a, "-");
  }

  lemma PassesOfJoin(a: string, w: string, b: string)
    requires |a| > 0 && IsWord(a) && |b| > 0 && IsWord(b)
    requires |w| > 0 && forall i :: 0 <= i < |w| ==> IsSpace(w[i])
    ensures SlugPasses(a + w + b) == a + "-" + b
  {
    JoinHasNoReserved(a, w, b);
    WhitespacePassJoins(a, w, b);
    DashPassKeeps(a, b);
  }

  lemma JoinHasNoReserved(a: string, w: string, b: string)
    requires IsWord(a) && IsWord(b)
    requires forall i :: 0 <= i < |w| ==> IsSpace(w[i])
    ensures StripReserved(a + w + b) == a + w + b
  {
    forall i | 0 <= i < |w|
      ensures !IsReserved(w[i])
    {
      SpaceNotReserved(w[i]);
    }
    assert StripReserved(a) == a && StripReserved(w) == w && StripReserved(b) == b;
    StripReservedConcat(a, w);
    StripReservedConcat(a + w, b);
  }

  lemma SpaceNotReserved(c: char)
    requires IsSpace(c)
    ensures !IsReserved(c)
  {
  }

  lemma WhitespacePassJoins(a: string, w: string, b: string)
    requires |a| > 0 && IsWord(a) && IsWord(b)
    requires |w| > 0 && forall i :: 0 <= i < |w| ==> IsSpace(w[i])
    ensures SquashRuns(a + w + b, Whitespace, false) == a + "-" + b
  {
    var a' := a[..|a| - 1];
    var c := a[|a| - 1];
    assert a' + [c] == a;
    assert a + w + b == a' + [c] + (w + b);
    SquashRunsSplit(a', c, w + b, Whitespace, false);
    SquashRunsNoClass(a', Whitespace, false);
    SquashRunsCollapsesRun(w, b, Whitespace, false);
    SquashRunsNoClass(b, Whitespace, true);
    assert a' + [c] + ("-" + b) == a + "-" + b;
  }

  lemma DashPassKeeps(a: string, b: string)
    requires |a| > 0 && IsWord(a) && IsWord(b)
    ensures SquashRuns(a + "-" + b, Dash, false) == a + "-" + b
  {
    var a' := a[..|a| - 1];
    var c := a[|a| - 1];
    assert a' + [c] == a;
    assert a + "-" + b == a' + [c] + ("-" + b);
    SquashRunsSplit(a', c, "-" + b, Dash, false);
    SquashRunsNoClass(a', Dash, false);
    SquashRunsCollapsesRun("-", b, Dash, false);
    SquashRunsNoClass(b, Dash, true);
  }

  /** A reserved character anywhere in the name makes no difference to the slug. */
  lemma FormatUrlNameIgnoresReserved(a: string, x: char, b: string)
    requires IsReserved(x)
    ensures FormatUrlName(Some(a + [x] + b)) == FormatUrlName(Some(a + b))
  {
    StripIgnoresReserved(a, x, b);
    assert SlugPasses(a + [x] + b) == SlugPasses(a + b);
    if a + b == "" {
      assert StripReserved(a + b) == "";
      assert SlugPasses(a + [x] + b) == "";
    }
  }

  lemma StripIgnoresReserved(a: string, x: char, b: string)
    requires IsReserved(x)
    ensures StripReserved(a + [x] + b) == StripReserved(a + b)
  {
    StripReservedConcat(a + [x], b);
    StripReservedConcat(a, [x]);
    StripReservedConcat(a, b);
    StripReservedSingle(x);
    assert StripReserved(a) + [] == StripReserved(a);
  }
}

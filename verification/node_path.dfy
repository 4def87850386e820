/** The parts of Node's POSIX `path` module the photo server relies on:
    `path.extname` (extension test and stored file name) and the `name`
    field of `path.parse` (photo id).  Both scan the path once from its end,
    keeping three positions: `end` (just past the last character that is not
    a trailing slash), `start` (the first character of the last segment, the
    base name) and `dot` (the last '.' of the base name).  The extension is
    the text from `dot` to `end`, except that a base name without a dot, one
    whose last dot is its first character, and the base name ".." have none. */
module NodePath {

  predicate AllSlashes(t: string) {
    forall i :: 0 <= i < |t| ==> t[i] == '/'
  }

  /** Scanning back from `k`, skip slashes: the `end` of the base name. */
  function TrimmedEnd(p: string, k: nat): (e: nat)
    requires k <= |p|
    ensures e <= k
    ensures forall i :: e <= i < k ==> p[i] == '/'
    ensures e == 0 || p[e - 1] != '/'
  {
    if k > 0 && p[k - 1] == '/' then TrimmedEnd(p, k - 1) else k
  }

  /** Scanning back from `k`, skip non-slashes: the `start` of the segment
      that ends at `k`. */
  function SegmentStart(p: string, k: nat): (s: nat)
    requires k <= |p|
    ensures s <= k
    ensures forall i :: s <= i < k ==> p[i] != '/'
    ensures s == 0 || p[s - 1] == '/'
  {
    if k > 0 && p[k - 1] != '/' then SegmentStart(p, k - 1) else k
  }

  /** The position of the last '.' in p[lo..k], or -1 when there is none. */
  function LastDot(p: string, lo: nat, k: nat): (d: int)
    requires lo <= k <= |p|
    ensures d == -1 || lo <= d < k
    ensures d >= 0 ==> p[d] == '.'
    ensures forall i :: lo <= i < k && d < i ==> p[i] != '.'
    decreases k
  {
    if k == lo then -1
    else if p[k - 1] == '.' then k - 1
    else LastDot(p, lo, k - 1)
  }

  /** The three positions of the scan, with `dot` already set to -1 when the
      base name has no extension. */
  datatype Scan = Scan(start: nat, dot: int, end: nat)

  function ScanPath(p: string): (sc: Scan)
    ensures sc.start <= sc.end <= |p|
    ensures sc.dot == -1 || sc.start < sc.dot < sc.end
    ensures AllSlashes(p[sc.end..])
    ensures sc.end == 0 || p[sc.end - 1] != '/'
    ensures forall i :: sc.start <= i < sc.end ==> p[i] != '/'
    ensures sc.start == 0 || p[sc.start - 1] == '/'
    ensures sc.dot >= 0 ==> p[sc.dot] == '.'
    ensures sc.dot >= 0 ==> forall i :: sc.dot < i < sc.end ==> p[i] != '.'
    ensures sc.dot == -1 ==>
              || (sc.end - sc.start == 2 && p[sc.start] == '.' && p[sc.start + 1] == '.')
              || (forall i :: sc.start < i < sc.end ==> p[i] != '.')
  {
    var end := TrimmedEnd(p, |p|);
    var start := SegmentStart(p, end);
    var dot := LastDot(p, start, end);
    var isDotDot := end - start == 2 && p[start] == '.' && p[start + 1] == '.';
    assert AllSlashes(p[end..]) by {
      forall i | 0 <= i < |p[end..]| ensures p[end..][i] == '/' {
        assert p[end..][i] == p[end + i];
      }
    }
    if dot <= start || isDotDot then Scan(start, -1, end) else Scan(start, dot, end)
  }

  /** path.extname(p). */
  function Extname(p: string): (e: string)
    ensures e == [] || e[0] == '.'
    ensures forall j :: 1 <= j < |e| ==> e[j] != '.'
    ensures forall j :: 0 <= j < |e| ==> e[j] != '/'
  {
    var sc := ScanPath(p);
    if sc.dot == -1 then [] else p[sc.dot..sc.end]
  }

  /** The path is "/.." followed only by slashes. */
  predicate RootDotDot(p: string) {
    |p| >= 3 && p[0] == '/' && p[1] == '.' && p[2] == '.' && AllSlashes(p[3..])
  }

  /** The position of the extension's dot as path.parse keeps it.  parse
      scans an absolute path only down to index 1, so for "/.." it never
      learns that the base name starts right after a slash, and its ".."
      test fails there: it splits ".." into the name "." and the extension
      "." where extname reports no extension. */
  function ParseDot(p: string): (d: int)
    ensures d == -1 || ScanPath(p).start < d < ScanPath(p).end
    ensures d >= 0 ==> p[d] == '.'
  {
    var sc := ScanPath(p);
    if sc.dot == -1 && RootDotDot(p) then 2 else sc.dot
  }

  /** path.parse(p).ext. */
  function ParseExt(p: string): (e: string)
    ensures e == [] || e[0] == '.'
  {
    var d := ParseDot(p);
    if d == -1 then [] else p[d..ScanPath(p).end]
  }

  /** path.parse(p).name: the base name without its extension.  Name and
      extension together are the base name, the last run of non-slash
      characters before any trailing slashes; on a path without slashes
      that is the whole path, split at the extension extname reports. */
  function ParseName(p: string): (n: string)
    ensures forall j :: 0 <= j < |n| ==> n[j] != '/'
  {
    var sc := ScanPath(p);
    var d := ParseDot(p);
    if d == -1 then p[sc.start..sc.end] else p[sc.start..d]
  }

  /** p[k..j] is the base name of p: the last run of non-slash characters,
      followed only by trailing slashes.  The run is maximal on both sides,
      so at most one span qualifies. */
  predicate BaseSpan(p: string, k: nat, j: nat) {
    && k <= j <= |p|
    && (k == 0 || p[k - 1] == '/')
    && (j == 0 || p[j - 1] != '/')
    && AllSlashes(p[j..])
    && forall i :: k <= i < j ==> p[i] != '/'
  }

  /** At most one span of a path is its base name. */
  lemma BaseSpanUnique(p: string, k: nat, j: nat, k2: nat, j2: nat)
    requires BaseSpan(p, k, j) && BaseSpan(p, k2, j2)
    ensures k == k2 && j == j2
  {
    SlashesAfter(p, j);
    SlashesAfter(p, j2);
  }

  /** Name and extension together are the base name. */
  lemma ParseNameIsBaseWithoutExt(p: string)
    ensures exists k: nat, j: nat :: BaseSpan(p, k, j) && p[k..j] == ParseName(p) + ParseExt(p)
  {
    var sc := ScanPath(p);
    ParseSplitsScan(p);
    assert BaseSpan(p, sc.start, sc.end);
  }

  lemma ParseSplitsScan(p: string)
    ensures ParseName(p) + ParseExt(p) == p[ScanPath(p).start..ScanPath(p).end]
  {
    var sc := ScanPath(p);
    var d := ParseDot(p);
    if d != -1 {
      assert p[sc.start..d] + p[d..sc.end] == p[sc.start..sc.end];
    }
  }

  /** On a path without slashes the name is the path with the extension
      extname reports cut off. */
  lemma ParseNameWithoutSlashes(p: string)
    requires forall i :: 0 <= i < |p| ==> p[i] != '/'
    ensures ParseName(p) + Extname(p) == p
  {
    var sc := ScanPath(p);
    assert sc.start == 0 && sc.end == |p|;
    assert !RootDotDot(p);
  }

  /** parse and extname find the same extension on every path except "/.."
      (with any trailing slashes). */
  lemma ParseExtAgreesWithExtname(p: string)
    ensures ParseExt(p) == Extname(p) <==> !RootDotDot(p)
  {
    var sc := ScanPath(p);
    if RootDotDot(p) {
      assert sc.end == 3 && sc.start == 1;
      assert sc.dot == -1;
    }
  }

  /** The case where the two differ: path.parse("/..").name is ".". */
  lemma ParseOfRootDotDot()
    ensures ParseName("/..") == "." && ParseExt("/..") == "." && Extname("/..") == []
  {
    var p := "/..";
    assert RootDotDot(p);
    ParseExtAgreesWithExtname(p);
    var sc := ScanPath(p);
    assert sc.end == 3 && sc.start == 1;
  }

  /** A dot followed by characters that are neither dots nor slashes: the
      shape of every non-empty extension (see Extname's contract). */
  predicate DotLed(x: string) {
    |x| >= 1 && x[0] == '.' && forall k :: 1 <= k < |x| ==> x[k] != '.' && x[k] != '/'
  }

  /** The shape of every extension the photo server allows: a dot followed
      by at least one character that is neither a dot nor a slash. */
  predicate ExtShaped(x: string) {
    DotLed(x) && |x| >= 2
  }

  /** Reference definition of "p has extension x": x occurs in p right after
      a character that is not a slash, and only slashes follow it. */
  ghost predicate HasExtension(p: string, x: string) {
    exists i, j | 0 < i <= j <= |p| :: p[i..j] == x && p[i - 1] != '/' && AllSlashes(p[j..])
  }

  /** The base name, after trailing slashes are dropped, is "..". */
  ghost predicate BaseIsDotDot(p: string) {
    exists i, j | 0 <= i && i + 2 == j <= |p| ::
      p[i..j] == ".." && (i == 0 || p[i - 1] == '/') && AllSlashes(p[j..])
  }

  /** No dot-led suffix of the base name qualifies as an extension. */
  ghost predicate NoDotLedExtension(p: string) {
    forall i, j | 0 < i <= j <= |p| && p[i - 1] != '/' && AllSlashes(p[j..]) :: !DotLed(p[i..j])
  }

  /** extname agrees with the reference definition, in both directions, for
      every dot-led x, including the lone "." that a base name ending in a
      dot has; the one exception is the base name "..", which has none. */
  lemma ExtnameCharacterization(p: string, x: string)
    requires DotLed(x)
    ensures Extname(p) == x <==> HasExtension(p, x) && !(x == "." && BaseIsDotDot(p))
  {
    if Extname(p) == x {
      ExtnameGivesWitness(p, x);
    }
    if HasExtension(p, x) && !(x == "." && BaseIsDotDot(p)) {
      var i, j :| 0 < i <= j <= |p| && p[i..j] == x && p[i - 1] != '/' && AllSlashes(p[j..]);
      WitnessGivesExtname(p, x, i, j);
    }
  }

  /** extname is empty exactly when the base name is "..", or no dot-led
      suffix of the base name follows a character of it: no dot at all, or
      only a leading one. */
  lemma ExtnameEmptyIff(p: string)
    ensures Extname(p) == [] <==> BaseIsDotDot(p) || NoDotLedExtension(p)
  {
    var sc := ScanPath(p);
    if BaseIsDotDot(p) {
      DotDotHasNoExtension(p);
    }
    if sc.dot != -1 {
      var x := p[sc.dot..sc.end];
      assert DotLed(x) by {
        forall k | 1 <= k < |x| ensures x[k] != '.' && x[k] != '/' {
          assert x[k] == p[sc.dot + k];
        }
      }
      assert p[sc.dot - 1] != '/';
      assert !NoDotLedExtension(p);
    }
    if Extname(p) == [] && !BaseIsDotDot(p) {
      forall i, j | 0 < i <= j <= |p| && p[i - 1] != '/' && AllSlashes(p[j..])
        ensures !DotLed(p[i..j])
      {
        if DotLed(p[i..j]) {
          WitnessGivesExtname(p, p[i..j], i, j);
        }
      }
    }
  }

  lemma DotDotHasNoExtension(p: string)
    requires BaseIsDotDot(p)
    ensures Extname(p) == []
  {
    var i, j :| 0 <= i && i + 2 == j <= |p| &&
      p[i..j] == ".." && (i == 0 || p[i - 1] == '/') && AllSlashes(p[j..]);
    assert p[i] == p[i..j][0] == '.';
    assert p[i + 1] == p[i..j][1] == '.';
    SlashesAfter(p, j);
    DotDotAt(p, i);
  }

  /** Index form of DotDotHasNoExtension. */
  lemma DotDotAt(p: string, i: nat)
    requires i + 2 <= |p| && p[i] == '.' && p[i + 1] == '.' && (i == 0 || p[i - 1] == '/')
    requires forall m :: i + 2 <= m < |p| ==> p[m] == '/'
    ensures Extname(p) == []
  {
    TrimmedEndAt(p, |p|, i + 2);
    SegmentStartBefore(p, i + 2, i);
  }

  lemma SlashesAfter(p: string, j: nat)
    requires j <= |p| && AllSlashes(p[j..])
    ensures forall m :: j <= m < |p| ==> p[m] == '/'
  {
    forall m | j <= m < |p| ensures p[m] == '/' { assert p[m] == p[j..][m - j]; }
  }

  /** A segment ".." followed only by slashes makes the base name "..". */
  lemma DotDotSegment(p: string, st: nat, j: nat)
    requires st <= j <= |p| && (st == 0 || p[st - 1] == '/') && AllSlashes(p[j..])
    ensures j - st == 2 && p[st] == '.' && p[st + 1] == '.' ==> BaseIsDotDot(p)
  {
    if j - st == 2 && p[st] == '.' && p[st + 1] == '.' {
      assert p[st..j] == "..";
    }
  }

  lemma ExtnameGivesWitness(p: string, x: string)
    requires DotLed(x) && Extname(p) == x
    ensures HasExtension(p, x) && !(x == "." && BaseIsDotDot(p))
  {
    var sc := ScanPath(p);
    assert p[sc.dot..sc.end] == x;
    assert p[sc.dot - 1] != '/';
    if BaseIsDotDot(p) {
      DotDotHasNoExtension(p);
    }
  }

  /** The scan's `end` is the position just past the last non-slash. */
  lemma {:induction false} TrimmedEndAt(p: string, k: nat, j: nat)
    requires 0 < j <= k <= |p| && p[j - 1] != '/'
    requires forall m :: j <= m < k ==> p[m] == '/'
    ensures TrimmedEnd(p, k) == j
    decreases k
  {
    if k > j {
      TrimmedEndAt(p, k - 1, j);
    }
  }

  /** The scan's `start` lies at or before any position from which only
      non-slashes run up to `k`. */
  lemma {:induction false} SegmentStartBefore(p: string, k: nat, m: nat)
    requires m <= k <= |p|
    requires forall q :: m <= q < k ==> p[q] != '/'
    ensures SegmentStart(p, k) <= m
    decreases k
  {
    if k > m {
      SegmentStartBefore(p, k - 1, m);
    }
  }

  lemma WitnessGivesExtname(p: string, x: string, i: int, j: int)
    requires DotLed(x) && !(x == "." && BaseIsDotDot(p))
    requires 0 < i <= j <= |p| && p[i..j] == x && p[i - 1] != '/' && AllSlashes(p[j..])
    ensures Extname(p) == x
  {
    assert p[j - 1] == x[|x| - 1];
    SlashesAfter(p, j);
    TrimmedEndAt(p, |p|, j);
    assert forall q :: i - 1 <= q < j ==> p[q] != '/' by {
      forall q | i - 1 <= q < j ensures p[q] != '/' {
        if q >= i { assert p[q] == x[q - i]; }
      }
    }
    SegmentStartBefore(p, j, i - 1);
    var st := SegmentStart(p, j);
    DotDotSegment(p, st, j);
    assert p[i] == x[0] == '.';
    forall k | i < k < j ensures p[k] != '.' {
      assert p[k] == x[k - i];
    }
    assert LastDot(p, st, j) == i;
    var sc := ScanPath(p);
    assert sc.start == st && sc.end == j;
  }
}

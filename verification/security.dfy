/** The shared-secret check and the filename sanitizer (src/utils/security.js). */
module Security {

  /** A character removed by JavaScript's `String.prototype.trim`: the white space
      characters (TAB, VT, FF, SP, NBSP, ZWNBSP and the Zs category) and the line
      terminators (LF, CR, LS, PS). */
  predicate IsJsWhiteSpace(c: char) {
    var n := c as int;
    n == 0x09 || n == 0x0A || n == 0x0B || n == 0x0C || n == 0x0D || n == 0x20
    || n == 0xA0 || n == 0x1680 || (0x2000 <= n <= 0x200A) || n == 0x2028 || n == 0x2029
    || n == 0x202F || n == 0x205F || n == 0x3000 || n == 0xFEFF
  }

  /** `s.trim().length === 0`; the empty string is blank too. */
  predicate IsBlank(s: string) {
    forall i :: 0 <= i < |s| ==> IsJsWhiteSpace(s[i])
  }

  /** `validateApiKey(provided)` against the configured key. The configured key is always
      a string (`process.env.API_KEY || ''`), and so is the provided one once the request
      schema has accepted it. */
  function ValidateApiKey(configured: string, provided: string): (ok: bool)
    // a blank configured key rejects every request
    ensures IsBlank(configured) ==> !ok
    // a blank provided key is rejected
    ensures IsBlank(provided) ==> !ok
    // otherwise the check is strict equality
    ensures !IsBlank(configured) && !IsBlank(provided) ==> (ok <==> provided == configured)
    ensures ok ==> provided == configured && |provided| > 0
  {
    if IsBlank(configured) then false
    else if IsBlank(provided) then false
    else provided == configured
  }

  /** With no key configured, no key whatsoever is accepted. */
  lemma NoConfiguredKeyRejectsAll(configured: string)
    requires IsBlank(configured)
    ensures forall provided :: !ValidateApiKey(configured, provided)
  {
  }

  /** A configured, non-blank key accepts exactly itself. */
  lemma ConfiguredKeyAcceptsItself(configured: string)
    requires !IsBlank(configured)
    ensures ValidateApiKey(configured, configured)
    ensures forall provided :: ValidateApiKey(configured, provided) <==> provided == configured
  {
  }

  /** `[a-zA-Z0-9._-]` */
  predicate IsSafeChar(c: char) {
    ('a' <= c <= 'z') || ('A' <= c <= 'Z') || ('0' <= c <= '9') || c == '.' || c == '_' || c == '-'
  }

  predicate IsSafe(s: string) {
    forall i :: 0 <= i < |s| ==> IsSafeChar(s[i])
  }

  predicate IsSeparator(c: char) {
    c == '/' || c == '\\'
  }

  /** No two adjacent dots. */
  predicate NoDoubleDot(s: string) {
    forall i :: 0 <= i < |s| - 1 ==> !(s[i] == '.' && s[i + 1] == '.')
  }

  /** `.replace(/[\/\\]/g, '')` */
  function StripSeparators(s: string): (r: string)
    ensures |r| <= |s|
    ensures forall i :: 0 <= i < |r| ==> !IsSeparator(r[i])
    ensures (forall i :: 0 <= i < |s| ==> !IsSeparator(s[i])) ==> r == s
    ensures |s| == 1 ==> (r == s <==> !IsSeparator(s[0]))
    ensures |s| == 1 && IsSeparator(s[0]) ==> r == []
  {
    if s == [] then []
    else if IsSeparator(s[0]) then StripSeparators(s[1..])
    else [s[0]] + StripSeparators(s[1..])
  }

  /** `.replace(/\.\./g, '')`: scanning left to right, every `..` found is deleted and the
      scan resumes after it, so matches never overlap. */
  function DropDotPairs(s: string): (r: string)
    ensures |r| <= |s|
    ensures IsSafe(s) ==> IsSafe(r)
    ensures NoDoubleDot(r)
    ensures |s| > 0 && s[0] != '.' ==> |r| > 0 && r[0] == s[0]
    ensures NoDoubleDot(s) ==> r == s
  {
    if |s| >= 2 && s[0] == '.' && s[1] == '.' then DropDotPairs(s[2..])
    else if s == [] then []
    else
      var rest := DropDotPairs(s[1..]);
      assert |s| >= 2 && s[0] == '.' ==> rest[0] == s[1];
      [s[0]] + rest
  }

  /** `.replace(/[^a-zA-Z0-9._-]/g, '')` */
  function StripUnsafe(s: string): (r: string)
    ensures |r| <= |s|
    ensures IsSafe(r)
    ensures IsSafe(s) ==> r == s
    ensures |s| == 1 ==> (r == s <==> IsSafeChar(s[0]))
    ensures |s| == 1 && !IsSafeChar(s[0]) ==> r == []
  {
    if s == [] then []
    else if IsSafeChar(s[0]) then [s[0]] + StripUnsafe(s[1..])
    else StripUnsafe(s[1..])
  }

  /** `sanitizeFilename`: the three global replacements, in order. */
  function SanitizeFilename(filename: string): (r: string)
    ensures IsSafe(r)
    ensures forall i :: 0 <= i < |r| ==> !IsSeparator(r[i])
    ensures |r| <= |filename|
  {
    StripUnsafe(DropDotPairs(StripSeparators(filename)))
  }

  /** A name over the safe alphabet with no `..` is left alone. */
  lemma SanitizeKeepsCleanNames(s: string)
    requires IsSafe(s) && NoDoubleDot(s)
    ensures SanitizeFilename(s) == s
  {
    assert forall i :: 0 <= i < |s| ==> !IsSeparator(s[i]);
  }

  /** For a name already over the safe alphabet, only `..` pairs are removed, and the
      result has no `..` left. */
  lemma SanitizeSafeName(s: string)
    requires IsSafe(s)
    ensures SanitizeFilename(s) == DropDotPairs(s)
    ensures NoDoubleDot(SanitizeFilename(s))
  {
    assert forall i :: 0 <= i < |s| ==> !IsSeparator(s[i]);
  }

  /** `k` dots. */
  function Dots(k: nat): (r: string)
    ensures |r| == k
  {
    if k == 0 then [] else ['.'] + Dots(k - 1)
  }

  /** A run of two or more dots starts with a `..` pair that the scan deletes. */
  lemma DropLeadingPair(k: nat, tail: string)
    requires k >= 2
    ensures DropDotPairs(Dots(k) + tail) == DropDotPairs(Dots(k - 2) + tail)
  {
    assert Dots(k) == ['.', '.'] + Dots(k - 2) by {
      assert Dots(k) == ['.'] + Dots(k - 1);
      assert Dots(k - 1) == ['.'] + Dots(k - 2);
    }
    var s := Dots(k) + tail;
    assert s == ['.', '.'] + (Dots(k - 2) + tail);
    assert s[2..] == Dots(k - 2) + tail;
  }

  /** A run of at most one dot before a non-dot is kept. */
  lemma {:induction false} ShortDotRun(m: nat, tail: string)
    requires m < 2
    requires tail == [] || tail[0] != '.'
    ensures DropDotPairs(Dots(m) + tail) == Dots(m) + DropDotPairs(tail)
  {
    var d := Dots(m);
    if m == 1 {
      assert d == ['.'] by {
        assert Dots(1) == ['.'] + Dots(0);
      }
      LoneDot(d + tail, tail);
    } else {
      assert d + tail == tail;
    }
  }

  /** A dot followed by a non-dot is kept. */
  lemma {:induction false} LoneDot(s: string, tail: string)
    requires tail == [] || tail[0] != '.'
    requires s == ['.'] + tail
    ensures DropDotPairs(s) == ['.'] + DropDotPairs(tail)
  {
    assert s[1..] == tail;
  }

  /** A run of `k = 2 * j + m` dots loses its `j` leading `..` pairs, one after the
      other. */
  lemma {:induction false} DotPairsDropped(j: nat, m: nat, k: nat, tail: string)
    requires m < 2 && k == 2 * j + m
    requires tail == [] || tail[0] != '.'
    ensures DropDotPairs(Dots(k) + tail) == Dots(m) + DropDotPairs(tail)
    decreases j
  {
    if j == 0 {
      ShortDotRun(k, tail);
    } else {
      DotPairsDropped(j - 1, m, k - 2, tail);
      DropLeadingPair(k, tail);
    }
  }

  /** A maximal run of `k` dots becomes `k % 2` dots: `...` becomes `.`. */
  lemma DotRunHalves(k: nat, tail: string)
    requires tail == [] || tail[0] != '.'
    ensures DropDotPairs(Dots(k) + tail) == Dots(k % 2) + DropDotPairs(tail)
  {
    DotPairsDropped(k / 2, k % 2, k, tail);
  }

  /** Deleting `..` pairs works piecewise across a cut that does not split a dot run:
      with `DotRunHalves` this fixes the pass on every input. */
  lemma {:induction false} DropDotPairsAppend(a: string, b: string)
    requires a == [] || a[|a| - 1] != '.'
    ensures DropDotPairs(a + b) == DropDotPairs(a) + DropDotPairs(b)
  {
    if a == [] {
      assert a + b == b;
    } else if |a| >= 2 && a[0] == '.' && a[1] == '.' {
      assert (a + b)[2..] == a[2..] + b;
      DropDotPairsAppend(a[2..], b);
    } else {
      assert (a + b)[1..] == a[1..] + b;
      DropDotPairsAppend(a[1..], b);
    }
  }

  /** A maximal run of `k` dots anywhere in a name becomes `k % 2` dots, and the text on
      either side of it is treated on its own: `a...b` becomes `a.b`. */
  lemma {:induction false} DotRunAnywhere(head: string, k: nat, tail: string)
    requires head == [] || head[|head| - 1] != '.'
    requires tail == [] || tail[0] != '.'
    ensures DropDotPairs(head + (Dots(k) + tail)) == DropDotPairs(head) + (Dots(k % 2) + DropDotPairs(tail))
  {
    DropDotPairsAppend(head, Dots(k) + tail);
    DotRunHalves(k, tail);
  }

  /** Deleting separators works piecewise. */
  lemma {:induction false} StripSeparatorsAppend(a: string, b: string)
    ensures StripSeparators(a + b) == StripSeparators(a) + StripSeparators(b)
  {
    if a == [] {
      assert a + b == b;
    } else {
      assert (a + b)[1..] == a[1..] + b;
      StripSeparatorsAppend(a[1..], b);
    }
  }

  /** Deleting unsafe characters works piecewise; with the one-character cases of
      `StripUnsafe`'s contract this fixes its value on every input: the safe characters,
      in order. */
  lemma {:induction false} StripUnsafeAppend(a: string, b: string)
    ensures StripUnsafe(a + b) == StripUnsafe(a) + StripUnsafe(b)
  {
    if a == [] {
      assert a + b == b;
    } else {
      assert (a + b)[1..] == a[1..] + b;
      StripUnsafeAppend(a[1..], b);
    }
  }

  /** A name without separators passes the first replacement unchanged; a trailing
      separator is dropped. */
  lemma StripTrailingSeparator(a: string, b: string)
    requires forall i :: 0 <= i < |a| ==> !IsSeparator(a[i])
    requires b == a + "/"
    ensures StripSeparators(b) == a
  {
    StripSeparatorsAppend(a, "/");
    assert StripSeparators("/") == [];
  }

  /** Only the letters `a`-`z`. */
  predicate IsLower(s: string) {
    forall i :: 0 <= i < |s| ==> 'a' <= s[i] <= 'z'
  }

  lemma LowerIsClean(a: string, b: string)
    requires IsLower(a) && IsLower(b)
    ensures IsSafe(a + b) && NoDoubleDot(a + b)
    ensures forall i :: 0 <= i < |a| ==> !IsSeparator(a[i])
    ensures forall i :: 0 <= i < |b| ==> !IsSeparator(b[i])
    ensures a + b == [] || (a + b)[0] != '.'
  {
    var p := a + b;
    assert forall i :: 0 <= i < |p| ==> 'a' <= p[i] <= 'z' by {
      forall i | 0 <= i < |p| ensures 'a' <= p[i] <= 'z' {
        if i < |a| { assert p[i] == a[i]; } else { assert p[i] == b[i - |a|]; }
      }
    }
  }

  /** The separators of `dd/dd/a/b` are dropped when no piece contains one. */
  lemma {:induction false} StripSeparatorsOfPath(dd: string, a: string, b: string, s: string)
    requires forall i :: 0 <= i < |dd| ==> !IsSeparator(dd[i])
    requires forall i :: 0 <= i < |a| ==> !IsSeparator(a[i])
    requires forall i :: 0 <= i < |b| ==> !IsSeparator(b[i])
    requires s == (dd + "/") + ((dd + "/") + ((a + "/") + b))
    ensures StripSeparators(s) == dd + (dd + (a + b))
  {
    StripTrailingSeparator(dd, dd + "/");
    StripTrailingSeparator(a, a + "/");
    StripSeparatorsAppend(dd + "/", (dd + "/") + ((a + "/") + b));
    StripSeparatorsAppend(dd + "/", (a + "/") + b);
    StripSeparatorsAppend(a + "/", b);
  }

  /** After the separators are gone, the four leading dots form two `..` pairs. */
  lemma {:induction false} DropLeadingDots(dd: string, p: string)
    requires dd == ".."
    requires IsSafe(p) && NoDoubleDot(p) && (p == [] || p[0] != '.')
    ensures DropDotPairs(dd + (dd + p)) == p
  {
    assert Dots(4) == dd + dd by {
      assert Dots(2) == dd;
      assert Dots(4) == ['.', '.'] + Dots(2);
    }
    assert dd + (dd + p) == Dots(4) + p;
    DotRunHalves(4, p);
    assert Dots(0) + p == p;
  }

  /** Climbing two directories before a path `a/b` of plain lower-case names achieves
      nothing: the separators go first, then both `..` pairs, leaving `ab`. */
  lemma {:induction false} TraversalIsNeutralised(a: string, b: string, s: string)
    requires IsLower(a) && IsLower(b)
    requires s == "../../" + a + "/" + b
    ensures SanitizeFilename(s) == a + b
  {
    var dd := "..";
    LowerIsClean(a, b);
    assert s == (dd + "/") + ((dd + "/") + ((a + "/") + b));
    StripSeparatorsOfPath(dd, a, b, s);
    DropLeadingDots(dd, a + b);
  }

  /** `"../../etc/passwd"` sanitizes to `"etcpasswd"`. */
  lemma {:induction false} EtcPasswd(s: string)
    requires s == "../../etc/passwd"
    ensures SanitizeFilename(s) == "etcpasswd"
  {
    var a, b := "etc", "passwd";
    assert IsLower(a) && IsLower(b);
    assert s == "../../" + a + "/" + b;
    TraversalIsNeutralised(a, b, s);
  }

  /** Sanitizing is not idempotent on arbitrary input: the last pass can bring two dots
      together, `". ."` gives `".."`, which a second pass would delete. */
  lemma SanitizeNotIdempotent()
    ensures SanitizeFilename(". .") == ".."
    ensures SanitizeFilename(SanitizeFilename(". .")) == ""
  {
    assert StripSeparators(". .") == ". .";
    assert DropDotPairs(". .") == ". .";
    assert StripUnsafe(". .") == "..";
    assert StripSeparators("..") == "..";
    assert DropDotPairs("..") == "";
  }
}

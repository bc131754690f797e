/**
 The number and string operations the modelled code uses: decimal printing and parsing,
 trimming, ASCII case folding, byte lengths and substring search.
 A `string` is a sequence of Unicode scalar values.
*/
module Text {
  import opened Wrappers

  // ----- numbers ---------------------------------------------------

  /** The largest `usize` on the 64-bit targets the repository builds for. */
  const USIZE_MAX: nat := 0xFFFF_FFFF_FFFF_FFFF

  const U64_MAX: nat := 0xFFFF_FFFF_FFFF_FFFF

  /** `u64::saturating_add` */
  function SaturatingAdd(a: nat, b: nat): nat {
    if a + b > U64_MAX then U64_MAX else a + b
  }

  predicate IsDigit(c: char) {
    '0' <= c <= '9'
  }

  function DigitChar(d: nat): (c: char)
    requires d < 10
    ensures IsDigit(c) && DigitValue(c) == d
  {
    '0' + d as char
  }

  function DigitValue(c: char): (d: nat)
    requires IsDigit(c)
    ensures d < 10
  {
    c as nat - '0' as nat
  }

  /** Decimal printing without leading zeros, as `{}` does for integers. */
  function PrintNat(n: nat): (s: string)
    ensures |s| > 0 && AllDigits(s)
  {
    if n < 10 then [DigitChar(n)] else PrintNat(n / 10) + [DigitChar(n % 10)]
  }

  function DigitsValue(s: string): nat
    requires AllDigits(s)
  {
    if s == [] then 0 else 10 * DigitsValue(s[..|s| - 1]) + DigitValue(s[|s| - 1])
  }

  predicate AllDigits(s: string) {
    forall i :: 0 <= i < |s| ==> IsDigit(s[i])
  }

  /** At least one digit, no overflow. */
  function ParseDigits(digits: string): Option<nat> {
    if digits == [] || !AllDigits(digits) || DigitsValue(digits) > USIZE_MAX then None else Some(DigitsValue(digits))
  }

  /** `str::parse::<usize>`: an optional plus sign before the digits. */
  function ParseUsize(s: string): Option<nat> {
    ParseDigits(if |s| > 0 && s[0] == '+' then s[1..] else s)
  }

  lemma {:induction false} DigitsOfPrinted(n: nat)
    ensures DigitsValue(PrintNat(n)) == n
  {
    if n >= 10 {
      var shorter, last := PrintNat(n / 10), DigitChar(n % 10);
      DigitsOfPrinted(n / 10);
      assert PrintNat(n) == shorter + [last];
      assert PrintNat(n)[..|PrintNat(n)| - 1] == shorter;
    } else {
      assert PrintNat(n)[..0] == [];
    }
  }

  /** Printing and parsing are inverse on every `usize`. */
  lemma ParsePrintedNat(n: nat)
    requires n <= USIZE_MAX
    ensures ParseUsize(PrintNat(n)) == Some(n)
  {
    DigitsOfPrinted(n);
    assert IsDigit(PrintNat(n)[0]);
  }

  lemma PrintNatInjective(m: nat, n: nat)
    ensures PrintNat(m) == PrintNat(n) ==> m == n
  {
    DigitsOfPrinted(m);
    DigitsOfPrinted(n);
  }

  /** A number below `10^k` prints with at most `k` digits. */
  lemma {:induction false} PrintNatLength(n: nat, k: nat)
    requires k > 0 && n < Pow10(k)
    ensures |PrintNat(n)| <= k
  {
    if n >= 10 && k > 1 {
      PrintNatLength(n / 10, k - 1);
    }
  }

  function Pow10(k: nat): nat {
    if k == 0 then 1 else 10 * Pow10(k - 1)
  }

  // ----- trimming ----------------------------------------------------------

  /** Unicode `White_Space`, the property `char::is_whitespace` tests. */
  predicate IsWhitespace(c: char) {
    || '\U{9}' <= c <= '\U{D}'
    || c == ' ' || c == '\U{85}' || c == '\U{A0}' || c == '\U{1680}'
    || '\U{2000}' <= c <= '\U{200A}'
    || c == '\U{2028}' || c == '\U{2029}' || c == '\U{202F}'
    || c == '\U{205F}' || c == '\U{3000}'
  }

  /** The 25 characters that have it. */
  lemma WhiteSpaceCharacters(c: char)
    ensures IsWhitespace(c) <==>
      c as int in {0x9, 0xA, 0xB, 0xC, 0xD, 0x20, 0x85, 0xA0, 0x1680, 0x2000, 0x2001, 0x2002, 0x2003, 0x2004, 0x2005,
                   0x2006, 0x2007, 0x2008, 0x2009, 0x200A, 0x2028, 0x2029, 0x202F, 0x205F, 0x3000}
  {
  }

  function TrimStart(s: string): string {
    if |s| > 0 && IsWhitespace(s[0]) then TrimStart(s[1..]) else s
  }

  function TrimEnd(s: string): string {
    if |s| > 0 && IsWhitespace(s[|s| - 1]) then TrimEnd(s[..|s| - 1]) else s
  }

  function Trim(s: string): string {
    TrimEnd(TrimStart(s))
  }

  predicate Blank(s: string) {
    forall i :: 0 <= i < |s| ==> IsWhitespace(s[i])
  }

  /** A string neither starting nor ending with white space. */
  predicate Trimmed(s: string) {
    s == [] || (!IsWhitespace(s[0]) && !IsWhitespace(s[|s| - 1]))
  }

  lemma TrimStartCut(s: string) returns (k: nat)
    ensures k <= |s| && TrimStart(s) == s[k..] && Blank(s[..k])
    ensures k < |s| ==> !IsWhitespace(s[k])
  {
    if |s| > 0 && IsWhitespace(s[0]) {
      var j := TrimStartCut(s[1..]);
      k := j + 1;
      assert s[1..][j..] == s[k..];
      assert forall i :: 1 <= i < k ==> s[i] == s[1..][..j][i - 1];
    } else {
      k := 0;
    }
  }

  lemma TrimEndCut(s: string) returns (k: nat)
    ensures k <= |s| && TrimEnd(s) == s[..k] && Blank(s[k..])
    ensures k > 0 ==> !IsWhitespace(s[k - 1])
  {
    if |s| > 0 && IsWhitespace(s[|s| - 1]) {
      var front := s[..|s| - 1];
      k := TrimEndCut(front);
      assert front[..k] == s[..k];
      assert forall i :: k <= i < |s| - 1 ==> s[i] == front[k..][i - k];
    } else {
      k := |s|;
    }
  }

  /** `trim` keeps the one slice whose ends are not white space and drops white space only. */
  lemma TrimCut(s: string) returns (i: nat, j: nat)
    ensures i <= j <= |s| && Trim(s) == s[i..j]
    ensures Blank(s[..i]) && Blank(s[j..]) && Trimmed(s[i..j])
  {
    i := TrimStartCut(s);
    var k := TrimEndCut(s[i..]);
    j := i + k;
    assert s[i..][..k] == s[i..j];
    assert forall n :: j <= n < |s| ==> s[n] == s[i..][k..][n - j];
    if k > 0 {
      assert s[i..][0] == s[i];
    }
  }

  lemma TrimIsTrimmed(s: string)
    ensures Trimmed(Trim(s)) && |Trim(s)| <= |s|
  {
    var i, j := TrimCut(s);
  }

  lemma TrimFixed(s: string)
    requires Trimmed(s)
    ensures Trim(s) == s
  {
  }

  lemma TrimEmptyIffBlank(s: string)
    ensures Trim(s) == [] <==> Blank(s)
  {
    var i, j := TrimCut(s);
    if i == j {
      assert forall n :: 0 <= n < |s| ==> s[n] == if n < i then s[..i][n] else s[j..][n - j];
    }
  }

  lemma {:induction false} TrimStartAround(before: string, core: string)
    requires Blank(before) && core != [] && !IsWhitespace(core[0])
    ensures TrimStart(before + core) == core
  {
    if before == [] {
      assert before + core == core;
    } else {
      assert (before + core)[1..] == before[1..] + core;
      TrimStartAround(before[1..], core);
    }
  }

  lemma {:induction false} TrimEndAround(core: string, after: string)
    requires Blank(after) && core != [] && !IsWhitespace(core[|core| - 1])
    ensures TrimEnd(core + after) == core
  {
    if after == [] {
      assert core + after == core;
    } else {
      assert (core + after)[..|core + after| - 1] == core + after[..|after| - 1];
      TrimEndAround(core, after[..|after| - 1]);
    }
  }

  /** White space around a trimmed text is what `trim` takes away. */
  lemma TrimAround(before: string, core: string, after: string)
    requires Blank(before) && Blank(after) && core != [] && Trimmed(core)
    ensures Trim(before + core + after) == core
  {
    assert before + core + after == before + (core + after);
    TrimStartAround(before, core + after);
    TrimEndAround(core, after);
  }

  // ----- ASCII case ---------------------------------------------------------

  function LowerChar(c: char): char {
    if 'A' <= c <= 'Z' then c + 32 as char else c
  }

  function UpperChar(c: char): char {
    if 'a' <= c <= 'z' then c - 32 as char else c
  }

  /** `to_ascii_lowercase` */
  function Lower(s: string): (r: string)
    ensures |r| == |s|
  {
    seq(|s|, i requires 0 <= i < |s| => LowerChar(s[i]))
  }

  /** `to_ascii_uppercase` */
  function Upper(s: string): (r: string)
    ensures |r| == |s|
  {
    seq(|s|, i requires 0 <= i < |s| => UpperChar(s[i]))
  }

  predicate EqIgnoreCase(a: string, b: string) {
    Lower(a) == Lower(b)
  }

  // ----- lengths in bytes ---------------------------------------------------

  function Utf8Width(c: char): nat {
    if c < '\U{80}' then 1 else if c < '\U{800}' then 2 else if c < '\U{10000}' then 3 else 4
  }

  /** `str::len`, the length of the UTF-8 encoding. */
  function Utf8Len(s: string): nat {
    if s == [] then 0 else Utf8Width(s[0]) + Utf8Len(s[1..])
  }

  // ----- prefixes, suffixes and substrings ------------------------------------

  predicate StartsWith(s: string, prefix: string) {
    prefix <= s
  }

  predicate EndsWith(s: string, suffix: string) {
    |suffix| <= |s| && s[|s| - |suffix|..] == suffix
  }

  /** `str::contains` */
  predicate Contains(s: string, needle: string) {
    needle <= s || (s != "" && Contains(s[1..], needle))
  }

  lemma {:induction false} ContainsIffOccurs(s: string, needle: string)
    ensures Contains(s, needle) <==> exists before, after :: s == before + needle + after
  {
    if needle <= s {
      assert s == "" + needle + s[|needle|..];
    } else if s != "" {
      ContainsIffOccurs(s[1..], needle);
      if Contains(s[1..], needle) {
        var before, after :| s[1..] == before + needle + after;
        assert s == ([s[0]] + before) + needle + after;
      }
      if exists before, after :: s == before + needle + after {
        var before, after :| s == before + needle + after;
        assert before == "" ==> needle <= s;
        assert s[1..] == before[1..] + needle + after;
      }
    }
  }

  /** `split_once` at the first occurrence of one character. */
  function SplitOnce(s: string, c: char): (r: Option<(string, string)>)
    ensures r.None? <==> c !in s
    ensures r.Some? ==> s == r.value.0 + [c] + r.value.1 && c !in r.value.0
  {
    if s == [] then None
    else if s[0] == c then Some(("", s[1..]))
    else
      match SplitOnce(s[1..], c)
      case None => None
      case Some((before, after)) =>
        assert s == [s[0]] + (before + [c] + after);
        Some(([s[0]] + before, after))
  }

  lemma {:induction false} SplitOnceJoined(before: string, c: char, after: string)
    requires c !in before
    ensures SplitOnce(before + [c] + after, c) == Some((before, after))
  {
    var s := before + [c] + after;
    if before != [] {
      assert s[1..] == before[1..] + [c] + after;
      assert before[1..] <= s[1..];
      SplitOnceJoined(before[1..], c, after);
      assert [before[0]] + before[1..] == before;
    }
  }

  // ----- lexicographic order --------------------------------------------------

  /** Code point order, which is also the byte order of the UTF-8 encodings. */
  predicate AtMost(a: string, b: string) {
    a == [] || (b != [] && (a[0] < b[0] || (a[0] == b[0] && AtMost(a[1..], b[1..]))))
  }

  /** Equal up to `k`, and there the first ends or has the smaller character. */
  predicate AtMostAt(a: string, b: string, k: nat) {
    k <= |a| && k <= |b| && a[..k] == b[..k] && (k == |a| || (k < |b| && a[k] < b[k]))
  }

  lemma {:induction false} AtMostIff(a: string, b: string)
    ensures AtMost(a, b) <==> exists k: nat :: AtMostAt(a, b, k)
  {
    if a == [] {
      assert AtMostAt(a, b, 0);
    } else if b != [] {
      AtMostIff(a[1..], b[1..]);
      if AtMost(a[1..], b[1..]) && a[0] == b[0] {
        var k: nat :| AtMostAt(a[1..], b[1..], k);
        assert a[..k + 1] == [a[0]] + a[1..][..k] && b[..k + 1] == [b[0]] + b[1..][..k];
        assert AtMostAt(a, b, k + 1);
      }
      if a[0] < b[0] {
        assert AtMostAt(a, b, 0);
      }
      if k: nat :| AtMostAt(a, b, k) && k > 0 {
        assert a[..k][0] == b[..k][0];
        assert a[..k][1..] == a[1..][..k - 1] && b[..k][1..] == b[1..][..k - 1];
        assert AtMostAt(a[1..], b[1..], k - 1);
      }
    }
  }

  lemma AtMostTotal(a: string, b: string)
    ensures AtMost(a, b) || AtMost(b, a)
  {
  }

  lemma {:induction false} AtMostAntisymmetric(a: string, b: string)
    requires AtMost(a, b) && AtMost(b, a)
    ensures a == b
  {
    if a != [] {
      AtMostAntisymmetric(a[1..], b[1..]);
      assert a == [a[0]] + a[1..] && b == [b[0]] + b[1..];
    }
  }

  lemma {:induction false} AtMostTransitive(a: string, b: string, c: string)
    requires AtMost(a, b) && AtMost(b, c)
    ensures AtMost(a, c)
  {
    if a != [] && a[0] == b[0] == c[0] {
      AtMostTransitive(a[1..], b[1..], c[1..]);
    }
  }

  // ----- path names -------------------------------------------------------------

  function LastIndex(s: string, c: char): (i: Option<nat>)
    ensures i.Some? ==> i.value < |s| && s[i.value] == c
  {
    if s == "" then None else if s[|s| - 1] == c then Some(|s| - 1) else LastIndex(s[..|s| - 1], c)
  }

  /** `Path::with_extension`: a leading dot of the file name starts no extension, and `..` is no file name. */
  function WithExtension(path: string, extension: string): string {
    var slash := LastIndex(path, '/');
    var start: nat := if slash.Some? then slash.value + 1 else 0;
    var dot := LastIndex(path[start..], '.');
    if path[start..] == "" || path[start..] == ".." then path
    else if dot.Some? && dot.value > 0 then path[..start + dot.value] + "." + extension
    else path + "." + extension
  }

  lemma {:induction false} LastIndexIs(s: string, c: char, i: nat)
    requires i < |s| && s[i] == c && forall k :: i < k < |s| ==> s[k] != c
    ensures LastIndex(s, c) == Some(i)
    decreases |s|
  {
    if i < |s| - 1 {
      LastIndexIs(s[..|s| - 1], c, i);
    }
  }

  lemma {:induction false} NoLastIndex(s: string, c: char)
    requires c !in s
    ensures LastIndex(s, c) == None
  {
    if s != "" {
      NoLastIndex(s[..|s| - 1], c);
    }
  }

  /** Empty, or ending in a slash. */
  predicate IsDirectory(path: string) {
    path == "" || path[|path| - 1] == '/'
  }

  lemma FileNameStart(directory: string, name: string)
    requires IsDirectory(directory) && '/' !in name
    ensures
      var slash := LastIndex(directory + name, '/');
      (if slash.Some? then slash.value + 1 else 0) == |directory|
  {
    var path := directory + name;
    if directory == "" {
      assert path == name;
      NoLastIndex(path, '/');
    } else {
      assert path[|directory| - 1] == '/';
      forall k | |directory| - 1 < k < |path| ensures path[k] != '/' {
        assert path[k] == name[k - |directory|];
      }
      LastIndexIs(path, '/', |directory| - 1);
    }
  }

  lemma ExtensionAt(directory: string, name: string, dot: nat, extension: string)
    requires IsDirectory(directory) && '/' !in name && LastIndex(name, '.') == Some(dot) && dot > 0 && name != ".."
    ensures WithExtension(directory + name, extension) == directory + name[..dot] + "." + extension
  {
    FileNameStart(directory, name);
    SliceAcross(directory, name, dot);
  }

  lemma SliceAcross(front: string, back: string, i: nat)
    requires i <= |back|
    ensures (front + back)[|front|..] == back && (front + back)[..|front| + i] == front + back[..i]
  {
  }

  /** What comes behind the last dot of a file name is replaced. */
  lemma ExtensionReplaced(directory: string, stem: string, previous: string, extension: string)
    requires IsDirectory(directory) && stem != "" && '/' !in stem && '/' !in previous && '.' !in previous
    requires stem != "." || previous != ""
    ensures WithExtension(directory + stem + "." + previous, extension) == directory + stem + "." + extension
  {
    var name := stem + "." + previous;
    assert directory + name == directory + stem + "." + previous;
    forall k | |stem| < k < |name| ensures name[k] != '.' {
      assert name[k] == previous[k - |stem| - 1];
    }
    LastIndexIs(name, '.', |stem|);
    assert name[..|stem|] == stem;
    if |name| == 2 {
      assert name[0] == stem[0];
    }
    ExtensionAt(directory, name, |stem|, extension);
  }

  /** A file name without a dot, or with one in front only, gets the extension behind it. */
  lemma ExtensionAdded(directory: string, name: string, extension: string)
    requires IsDirectory(directory) && name != "" && '/' !in name && '.' !in name[1..]
    ensures WithExtension(directory + name, extension) == directory + name + "." + extension
  {
    var path := directory + name;
    FileNameStart(directory, name);
    assert path[|directory|..] == name;
    if name[0] == '.' {
      assert forall k :: 0 < k < |name| ==> name[k] == name[1..][k - 1];
      LastIndexIs(name, '.', 0);
    } else {
      assert forall k :: 0 < k < |name| ==> name[k] == name[1..][k - 1];
      NoLastIndex(name, '.');
    }
  }
}

/** The parts of Python's `str` and `int()` behaviour that the repository's
    parsers rely on: whitespace stripping, `find`/`split`/`join`/`replace`,
    `splitlines`, `isdigit`, ASCII case mapping, decimal and hexadecimal
    rendering, and `int(text, base)` for bases 10 and 16.  Character classes
    are those of the Latin-1 range. */
module Text {
  import opened Wrappers

  /** `str.isspace()` (and the regex class `\s`) on Latin-1 characters. */
  predicate IsSpace(c: char) {
    c == ' ' || c == '\t' || c == '\n' || c == '\r' || c == '\U{0B}' || c == '\U{0C}'
    || c == '\U{1C}' || c == '\U{1D}' || c == '\U{1E}' || c == '\U{1F}'
    || c == '\U{85}' || c == '\U{A0}'
  }

  /** The line boundaries `str.splitlines()` splits at. */
  predicate IsLineBreak(c: char) {
    c == '\n' || c == '\r' || c == '\U{0B}' || c == '\U{0C}' || c == '\U{1C}'
    || c == '\U{1D}' || c == '\U{1E}' || c == '\U{85}' || c == '\U{2028}' || c == '\U{2029}'
  }

  // ---------------------------------------------------------------------------
  // strip

  function LeadingSpaces(s: string): (k: nat)
    ensures k <= |s|
    ensures forall i :: 0 <= i < k ==> IsSpace(s[i])
    ensures k == |s| || !IsSpace(s[k])
  {
    if s == [] || !IsSpace(s[0]) then 0 else 1 + LeadingSpaces(s[1..])
  }

  function TrailingSpaces(s: string): (k: nat)
    ensures k <= |s|
    ensures forall i :: |s| - k <= i < |s| ==> IsSpace(s[i])
    ensures k == |s| || !IsSpace(s[|s| - 1 - k])
  {
    if s == [] || !IsSpace(s[|s| - 1]) then 0 else 1 + TrailingSpaces(s[..|s| - 1])
  }

  /** `s.lstrip()` */
  function LStrip(s: string): string {
    s[LeadingSpaces(s)..]
  }

  /** `s.rstrip()` */
  function RStrip(s: string): string {
    s[..|s| - TrailingSpaces(s)]
  }

  /** `s.strip()` */
  function Strip(s: string): string {
    RStrip(LStrip(s))
  }

  /** What `strip` returns has no white space at either end, and it leaves a
      string without such white space alone. */
  lemma StripEnds(s: string)
    ensures Strip(s) == [] || (!IsSpace(Strip(s)[0]) && !IsSpace(Strip(s)[|Strip(s)| - 1]))
    ensures s == [] || (!IsSpace(s[0]) && !IsSpace(s[|s| - 1])) ==> Strip(s) == s
  {
    var l := LStrip(s);
    var k := TrailingSpaces(l);
    if k < |l| {
      assert Strip(s)[0] == l[0];
    }
  }

  /** A string made of white space only strips to the empty string. */
  lemma StripAllSpace(s: string)
    requires forall i :: 0 <= i < |s| ==> IsSpace(s[i])
    ensures Strip(s) == []
  {
  }

  // ---------------------------------------------------------------------------
  // find, split, join, replace

  /** `sep` occurs in `s` at index `i`. */
  predicate IsAt(s: string, sep: string, i: nat) {
    i + |sep| <= |s| && s[i..i + |sep|] == sep
  }

  function FindFrom(s: string, sep: string, i: nat): (r: Option<nat>)
    requires i <= |s|
    decreases |s| - i
    ensures r.Some? ==> i <= r.value && IsAt(s, sep, r.value)
    ensures r.Some? ==> forall k :: i <= k < r.value ==> !IsAt(s, sep, k)
    ensures r.None? ==> forall k :: i <= k <= |s| ==> !IsAt(s, sep, k)
  {
    if IsAt(s, sep, i) then Some(i) else if i == |s| then None else FindFrom(s, sep, i + 1)
  }

  /** `s.find(sep)`, with `None` for -1: the first index at which `sep` occurs. */
  function Find(s: string, sep: string): Option<nat> {
    FindFrom(s, sep, 0)
  }

  /** `sep in s` */
  predicate Contains(s: string, sep: string) {
    Find(s, sep).Some?
  }

  lemma ContainsAt(s: string, sep: string, i: nat)
    requires IsAt(s, sep, i)
    ensures Contains(s, sep)
  {
  }

  /** `s.split(sep, 1)[0]`: everything before the first `sep`, or all of `s`. */
  function Before(s: string, sep: string): string {
    match Find(s, sep)
    case None => s
    case Some(i) => s[..i]
  }

  /** `s.split(sep)` for a non-empty separator. */
  function Split(s: string, sep: string): (parts: seq<string>)
    requires |sep| > 0
    ensures |parts| >= 1
    ensures parts[0] == Before(s, sep)
    decreases |s|
  {
    match Find(s, sep)
    case None => [s]
    case Some(i) => [s[..i]] + Split(s[i + |sep|..], sep)
  }

  /** No piece that `split` returns contains the separator. */
  lemma {:induction false} SplitPiecesLackSeparator(s: string, sep: string)
    requires |sep| > 0
    ensures forall k :: 0 <= k < |Split(s, sep)| ==> !Contains(Split(s, sep)[k], sep)
    decreases |s|
  {
    var f := Find(s, sep);
    if f.Some? {
      var i := f.value;
      NoEarlierOccurrence(s, sep, i);
      SplitPiecesLackSeparator(s[i + |sep|..], sep);
      SplitAt(s, sep, i);
    }
  }

  lemma NoEarlierOccurrence(s: string, sep: string, i: nat)
    requires |sep| > 0 && i <= |s|
    requires forall k :: 0 <= k < i ==> !IsAt(s, sep, k)
    ensures !Contains(s[..i], sep)
  {
    var p := s[..i];
    if Contains(p, sep) {
      var k := Find(p, sep).value;
      assert s[k..k + |sep|] == p[k..k + |sep|];
      assert IsAt(s, sep, k);
    }
  }

  /** `sep.join(parts)` */
  function Join(parts: seq<string>, sep: string): string {
    if |parts| == 0 then []
    else if |parts| == 1 then parts[0]
    else parts[0] + sep + Join(parts[1..], sep)
  }

  /** Joining what `split` cut gives the original string back. */
  lemma {:induction false} JoinSplit(s: string, sep: string)
    requires |sep| > 0
    ensures Join(Split(s, sep), sep) == s
    decreases |s|
  {
    var f := Find(s, sep);
    if f.Some? {
      var i := f.value;
      var rest := s[i + |sep|..];
      JoinSplit(rest, sep);
      SplitAt(s, sep, i);
      JoinCons(s[..i], sep, Split(rest, sep));
      SplicedAt(s, sep, i);
    }
  }

  lemma SplitAt(s: string, sep: string, i: nat)
    requires |sep| > 0 && Find(s, sep) == Some(i)
    ensures Split(s, sep) == [s[..i]] + Split(s[i + |sep|..], sep)
  {
  }

  lemma JoinCons(x: string, sep: string, tail: seq<string>)
    requires |tail| >= 1
    ensures Join([x] + tail, sep) == x + sep + Join(tail, sep)
  {
    assert ([x] + tail)[1..] == tail;
  }

  lemma SplicedAt(s: string, sep: string, i: nat)
    requires IsAt(s, sep, i)
    ensures s[..i] + sep + s[i + |sep|..] == s
  {
  }

  /** The first occurrence of `sep` in `x + sep` is the one after `x`: no
      occurrence starts inside `x`. */
  predicate FirstAtEnd(x: string, sep: string) {
    Find(x + sep, sep) == Some(|x|)
  }

  /** Whatever follows, the first `sep` after such an `x` is the one right
      after it. */
  lemma FindAtEnd(x: string, sep: string, y: string)
    requires FirstAtEnd(x, sep)
    ensures Find(x + sep + y, sep) == Some(|x|)
  {
    var s := x + sep + y;
    assert IsAt(s, sep, |x|) by {
      assert s[|x|..|x| + |sep|] == sep;
    }
    var r := Find(s, sep).value;
    if r < |x| {
      assert s[r..r + |sep|] == (x + sep)[r..r + |sep|];
      assert IsAt(x + sep, sep, r);
    }
  }

  /** An occurrence found within the front part `s` of `s + t` is found in `s`
      alone. */
  lemma FindPrefix(s: string, t: string, sep: string, i: nat)
    requires Find(s + t, sep) == Some(i) && i + |sep| <= |s|
    ensures Find(s, sep) == Some(i)
  {
    assert (s + t)[i..i + |sep|] == s[i..i + |sep|];
    assert IsAt(s, sep, i);
    var r := Find(s, sep).value;
    if r < i {
      assert (s + t)[r..r + |sep|] == s[r..r + |sep|];
      assert IsAt(s + t, sep, r);
    }
  }

  /** An occurrence in `s` is one in `s + t`. */
  lemma ContainsExtend(s: string, t: string, sep: string)
    requires Contains(s, sep)
    ensures Contains(s + t, sep)
  {
    var p := Find(s, sep).value;
    assert (s + t)[p..p + |sep|] == s[p..p + |sep|];
    ContainsAt(s + t, sep, p);
  }

  /** A string without the first character of `sep` holds no `sep`, and
      `sep` first follows it right after it. */
  lemma LacksHead(x: string, sep: string)
    requires |sep| > 0 && sep[0] !in x
    ensures !Contains(x, sep) && FirstAtEnd(x, sep)
  {
    var s := x + sep;
    assert IsAt(s, sep, |x|) by {
      assert s[|x|..|x| + |sep|] == sep;
    }
  }

  /** `sep` not in `s`: `s.split(sep)` is `[s]`. */
  lemma SplitAbsent(s: string, sep: string)
    requires |sep| > 0 && !Contains(s, sep)
    ensures Split(s, sep) == [s]
  {
  }

  /** A string with `c` in it contains `[c]`. */
  lemma CharContained(s: string, c: char, k: nat)
    requires k < |s| && s[k] == c
    ensures Contains(s, [c])
  {
    assert s[k..k + 1] == [c];
    ContainsAt(s, [c], k);
  }

  /** A character in neither the parts nor the separator is not in their
      join. */
  lemma {:induction false} JoinLacks(parts: seq<string>, sep: string, c: char)
    requires c !in sep && forall k :: 0 <= k < |parts| ==> c !in parts[k]
    ensures c !in Join(parts, sep)
  {
    if |parts| > 1 {
      JoinLacks(parts[1..], sep, c);
    }
  }

  /** Splitting what `join` glued, when no part holds the separator's first
      character, gives the parts back. */
  lemma {:induction false} SplitJoin(parts: seq<string>, sep: string)
    requires |parts| >= 1 && |sep| > 0
    requires forall k :: 0 <= k < |parts| ==> sep[0] !in parts[k]
    ensures Split(Join(parts, sep), sep) == parts
  {
    if |parts| == 1 {
      LacksHead(parts[0], sep);
      SplitAbsent(parts[0], sep);
    } else {
      var x, tail := parts[0], parts[1..];
      var rest := Join(tail, sep);
      var s := x + sep + rest;
      assert Join(parts, sep) == s;
      SplitJoin(tail, sep);
      LacksHead(x, sep);
      FindAtEnd(x, sep, rest);
      assert s[..|x|] == x;
      assert s[|x| + |sep|..] == rest;
      SplitAt(s, sep, |x|);
      assert parts == [x] + tail;
    }
  }

  /** `s.replace(pat, rep)`: every leftmost, non-overlapping occurrence. */
  function Replace(s: string, pat: string, rep: string): string
    requires |pat| > 0
    decreases |s|
  {
    if |s| < |pat| then s
    else if s[..|pat|] == pat then rep + Replace(s[|pat|..], pat, rep)
    else [s[0]] + Replace(s[1..], pat, rep)
  }

  /** A string without `pat` is left as it is by `replace`. */
  lemma {:induction false} ReplaceAbsent(s: string, pat: string, rep: string)
    requires |pat| > 0
    requires !Contains(s, pat)
    ensures Replace(s, pat, rep) == s
    decreases |s|
  {
    if |s| >= |pat| {
      assert !IsAt(s, pat, 0);
      if !Contains(s[1..], pat) {
      } else {
        var k := Find(s[1..], pat).value;
        assert s[1..][k..k + |pat|] == s[k + 1..k + 1 + |pat|];
        assert IsAt(s, pat, k + 1);
        assert false;
      }
      ReplaceAbsent(s[1..], pat, rep);
    }
  }

  predicate StartsWith(s: string, p: string) {
    |p| <= |s| && s[..|p|] == p
  }

  predicate EndsWith(s: string, p: string) {
    |p| <= |s| && s[|s| - |p|..] == p
  }

  /** The characters of `s` other than `c`, in order. */
  function Without(s: string, c: char): string {
    if s == [] then [] else (if s[0] == c then [] else [s[0]]) + Without(s[1..], c)
  }

  lemma WithoutAppend(a: string, b: string, c: char)
    ensures Without(a + b, c) == Without(a, c) + Without(b, c)
  {
    if a == [] {
      assert a + b == b;
    } else {
      assert (a + b)[0] == a[0] && (a + b)[1..] == a[1..] + b;
      WithoutAppend(a[1..], b, c);
    }
  }

  /** The number of occurrences of character `c` in `s`. */
  function Count(s: string, c: char): nat {
    if s == [] then 0 else (if s[0] == c then 1 else 0) + Count(s[1..], c)
  }

  lemma CountAppend(a: string, b: string, c: char)
    ensures Count(a + b, c) == Count(a, c) + Count(b, c)
  {
    if a == [] {
      assert a + b == b;
    } else {
      assert (a + b)[0] == a[0] && (a + b)[1..] == a[1..] + b;
      CountAppend(a[1..], b, c);
    }
  }

  /** Replacing `pat` by `rep` where `rep` is `pat` less one comma only ever
      deletes commas: every other character survives, in order. */
  lemma {:induction false} ReplaceDeletesCommas(s: string, pat: string, rep: string)
    requires |pat| > 0
    requires Without(pat, ',') == Without(rep, ',')
    ensures Without(Replace(s, pat, rep), ',') == Without(s, ',')
    decreases |s|
  {
    if |s| < |pat| {
    } else if s[..|pat|] == pat {
      ReplaceDeletesCommas(s[|pat|..], pat, rep);
      WithoutAppend(rep, Replace(s[|pat|..], pat, rep), ',');
      WithoutAppend(pat, s[|pat|..], ',');
      assert s == pat + s[|pat|..];
    } else {
      ReplaceDeletesCommas(s[1..], pat, rep);
      WithoutAppend([s[0]], Replace(s[1..], pat, rep), ',');
      WithoutAppend([s[0]], s[1..], ',');
      assert s == [s[0]] + s[1..];
    }
  }

  // ---------------------------------------------------------------------------
  // splitlines

  function FirstBreak(s: string, i: nat): (r: Option<nat>)
    requires i <= |s|
    decreases |s| - i
    ensures r.Some? ==> i <= r.value < |s| && IsLineBreak(s[r.value])
    ensures r.Some? ==> forall k :: i <= k < r.value ==> !IsLineBreak(s[k])
    ensures r.None? ==> forall k :: i <= k < |s| ==> !IsLineBreak(s[k])
  {
    if i == |s| then None else if IsLineBreak(s[i]) then Some(i) else FirstBreak(s, i + 1)
  }

  /** `s.splitlines()`: "\r\n" is one boundary, and a final boundary does not
      start an empty last line. */
  function SplitLines(s: string): (lines: seq<string>)
    ensures forall k, j :: 0 <= k < |lines| && 0 <= j < |lines[k]| ==> !IsLineBreak(lines[k][j])
    ensures s == [] <==> lines == []
    decreases |s|
  {
    if s == [] then []
    else
      match FirstBreak(s, 0)
      case None => [s]
      case Some(i) =>
        var next := if s[i] == '\r' && i + 1 < |s| && s[i + 1] == '\n' then i + 2 else i + 1;
        [s[..i]] + SplitLines(s[next..])
  }

  // ---------------------------------------------------------------------------
  // case mapping and character classes (ASCII)

  function UpperChar(c: char): char {
    if 'a' <= c <= 'z' then (c as int - 32) as char else c
  }

  /** `s.upper()` on ASCII letters. */
  function Upper(s: string): (r: string)
    ensures |r| == |s|
  {
    seq(|s|, i requires 0 <= i < |s| => UpperChar(s[i]))
  }

  function LowerChar(c: char): char {
    if 'A' <= c <= 'Z' then (c as int + 32) as char else c
  }

  /** `s.lower()` on ASCII letters. */
  function Lower(s: string): (r: string)
    ensures |r| == |s|
  {
    seq(|s|, i requires 0 <= i < |s| => LowerChar(s[i]))
  }

  predicate IsAsciiLetter(c: char) {
    'a' <= c <= 'z' || 'A' <= c <= 'Z'
  }

  predicate IsDecDigit(c: char) {
    '0' <= c <= '9'
  }

  /** `\w` on ASCII: a letter, a digit or an underscore. */
  predicate IsWordChar(c: char) {
    IsAsciiLetter(c) || IsDecDigit(c) || c == '_'
  }

  /** `s.isdigit()`: non-empty and only decimal digits. */
  predicate IsDigits(s: string) {
    |s| > 0 && forall i :: 0 <= i < |s| ==> IsDecDigit(s[i])
  }

  /** `s.lstrip("+-")` */
  function LStripSigns(s: string): (r: string)
    ensures r == [] || (r[0] != '+' && r[0] != '-')
  {
    if s != [] && (s[0] == '+' || s[0] == '-') then LStripSigns(s[1..]) else s
  }

  /** `s.lower().startswith("0x")`: only 'X' lowers to 'x' and nothing lowers to '0'. */
  predicate HasHexPrefix(s: string) {
    |s| >= 2 && s[0] == '0' && (s[1] == 'x' || s[1] == 'X')
  }

  // ---------------------------------------------------------------------------
  // numbers

  function DigitValue(c: char, base: nat): Option<nat>
    requires base == 10 || base == 16
  {
    if '0' <= c <= '9' then Some(c as int - '0' as int)
    else if base == 16 && 'a' <= c <= 'f' then Some(c as int - 'a' as int + 10)
    else if base == 16 && 'A' <= c <= 'F' then Some(c as int - 'A' as int + 10)
    else None
  }

  /** Python's digit run: digits of `base`, with single underscores allowed
      between two digits. */
  function DigitRun(s: string, base: nat): Option<nat>
    requires base == 10 || base == 16
    decreases |s|
  {
    if |s| == 0 then None
    else
      match DigitValue(s[|s| - 1], base)
      case None => None
      case Some(d) =>
        if |s| == 1 then Some(d)
        else
          var pre := s[..|s| - 1];
          var pre' := if pre[|pre| - 1] == '_' then pre[..|pre| - 1] else pre;
          match DigitRun(pre', base)
          case None => None
          case Some(v) => Some(v * base + d)
  }

  /** `int(text, base)` for base 10 and 16: surrounding white space, an
      optional sign, for base 16 an optional "0x"/"0X" prefix (which may be
      followed by one underscore), then a digit run.  `None` is the
      `ValueError`. */
  function PyInt(text: string, base: nat): Option<int>
    requires base == 10 || base == 16
  {
    var t := Strip(text);
    var neg := |t| > 0 && t[0] == '-';
    var body := if |t| > 0 && (t[0] == '-' || t[0] == '+') then t[1..] else t;
    var digits :=
      if base == 16 && HasHexPrefix(body) then
        (if |body| > 2 && body[2] == '_' then body[3..] else body[2..])
      else body;
    match DigitRun(digits, base)
    case None => None
    case Some(v) => Some(if neg then -(v as int) else v as int)
  }

  function DigitChar(d: nat): char
    requires d < 16
  {
    if d < 10 then ('0' as int + d) as char else ('a' as int + d - 10) as char
  }

  /** `str(n)` for a natural number. */
  function ShowNat(n: nat): (r: string)
    ensures |r| > 0 && IsDecDigit(r[0]) && IsDecDigit(r[|r| - 1])
    ensures forall i :: 0 <= i < |r| ==> IsDecDigit(r[i])
  {
    if n < 10 then [DigitChar(n)] else ShowNat(n / 10) + [DigitChar(n % 10)]
  }

  /** `str(n)` for an integer. */
  function ShowInt(n: int): string {
    if n < 0 then "-" + ShowNat(-n) else ShowNat(n)
  }

  /** `format(n, "x")`: lower-case hexadecimal digits without a prefix. */
  function ShowHex(n: nat): (r: string)
    ensures |r| > 0
    ensures forall i :: 0 <= i < |r| ==> DigitValue(r[i], 16).Some?
  {
    if n < 16 then [DigitChar(n)] else ShowHex(n / 16) + [DigitChar(n % 16)]
  }

  lemma {:induction false} DigitRunShowNat(n: nat)
    ensures DigitRun(ShowNat(n), 10) == Some(n)
  {
    if n >= 10 {
      DigitRunShowNat(n / 10);
      var s := ShowNat(n);
      assert s[..|s| - 1] == ShowNat(n / 10);
    }
  }

  lemma {:induction false} DigitRunShowHex(n: nat)
    ensures DigitRun(ShowHex(n), 16) == Some(n)
  {
    if n >= 16 {
      DigitRunShowHex(n / 16);
      var s := ShowHex(n);
      assert s[..|s| - 1] == ShowHex(n / 16);
      assert s[|s| - 2] != '_';
    }
  }

  /** `int(str(n))` gives `n` back. */
  lemma PyIntShowInt(n: int)
    ensures PyInt(ShowInt(n), 10) == Some(n)
  {
    var s := ShowInt(n);
    if n < 0 {
      var m: nat := -n;
      PyIntShowNegative(m);
      assert s == "-" + ShowNat(m);
    } else {
      PyIntShowNat(n);
      assert s == ShowNat(n);
    }
  }

  lemma PyIntShowNat(n: nat)
    ensures PyInt(ShowNat(n), 10) == Some(n)
  {
    var d := ShowNat(n);
    assert Strip(d) == d by {
      StripEnds(d);
    }
    DigitRunShowNat(n);
    PyIntUnsigned(d);
  }

  lemma PyIntShowNegative(m: nat)
    requires m > 0
    ensures PyInt("-" + ShowNat(m), 10) == Some(-(m as int))
  {
    var d := ShowNat(m);
    SignedStripped(d);
    DigitRunShowNat(m);
    PyIntSigned("-" + d, d);
  }

  /** '-' and digits ending in a digit have no white space around them. */
  lemma SignedStripped(d: string)
    requires |d| > 0 && IsDecDigit(d[|d| - 1])
    ensures Strip("-" + d) == "-" + d && ("-" + d)[1..] == d
  {
    var s := "-" + d;
    assert s[0] == '-' && s[|s| - 1] == d[|d| - 1];
    StripEnds(s);
  }

  /** What `str` prints has no white space around it. */
  lemma ShowIntStripped(n: int)
    ensures Strip(ShowInt(n)) == ShowInt(n)
  {
    var s := ShowInt(n);
    var d := ShowNat(if n < 0 then -n else n);
    assert s[|s| - 1] == d[|d| - 1];
    assert s[0] == '-' || s[0] == d[0];
    StripEnds(s);
  }

  /** Nor has "0x" and the digits of `format(n, "x")`, with or without a
      '-'. */
  lemma HexStripped(n: nat)
    ensures Strip("0x" + ShowHex(n)) == "0x" + ShowHex(n)
    ensures Strip("-0x" + ShowHex(n)) == "-0x" + ShowHex(n)
  {
    var h := ShowHex(n);
    var s := "0x" + h;
    var t := "-0x" + h;
    assert DigitValue(h[|h| - 1], 16).Some?;
    assert s[|s| - 1] == h[|h| - 1] && t[|t| - 1] == h[|h| - 1];
    StripEnds(s);
    StripEnds(t);
  }

  /** Every run of decimal digits is a digit run for `int`. */
  lemma {:induction false} DigitRunDigits(d: string)
    requires IsDigits(d)
    ensures DigitRun(d, 10).Some?
    decreases |d|
  {
    if |d| > 1 {
      var pre := d[..|d| - 1];
      assert IsDecDigit(pre[|pre| - 1]);
      DigitRunDigits(pre);
    }
  }

  lemma PyIntUnsigned(d: string)
    requires Strip(d) == d && |d| > 0 && IsDecDigit(d[0])
    requires DigitRun(d, 10).Some?
    ensures PyInt(d, 10) == Some(DigitRun(d, 10).value as int)
  {
  }

  lemma PyIntSigned(s: string, d: string)
    requires Strip(s) == s && |s| > 0 && s[0] == '-' && s[1..] == d
    requires DigitRun(d, 10).Some?
    ensures PyInt(s, 10) == Some(-(DigitRun(d, 10).value as int))
  {
  }

  lemma PyIntShowHex(n: nat)
    ensures PyInt("0x" + ShowHex(n), 16) == Some(n)
  {
    var s := "0x" + ShowHex(n);
    var h := ShowHex(n);
    assert Strip(s) == s by {
      assert s[|s| - 1] == h[|h| - 1];
      StripEnds(s);
    }
    assert DigitRun(h, 16) == Some(n) by {
      DigitRunShowHex(n);
    }
    assert s[2..] == h && h[0] != '_';
    PyIntHexPrefixed(s, h);
  }

  lemma PyIntHexPrefixed(s: string, h: string)
    requires Strip(s) == s && |s| > 2 && s[0] == '0' && s[1] == 'x' && s[2..] == h
    requires |h| > 0 && h[0] != '_' && DigitRun(h, 16).Some?
    ensures PyInt(s, 16) == Some(DigitRun(h, 16).value as int)
  {
    assert HasHexPrefix(s);
  }

}

/**
 * The pieces of Python's `str` and of `posixpath` that the downloader and the
 * JSON flattener rely on, each written out with CPython's semantics: `str(n)`,
 * `str.split`, `str.join`, `str.replace` on one character, `str.rfind`,
 * `str.rstrip`, slicing with negative bounds, `os.path.join` and
 * `os.path.split`.
 */
module PyStr {

  // ---------------------------------------------------------------------------
  // str(n) for a non-negative int

  predicate IsDigit(c: char) { '0' <= c <= '9' }

  predicate AllDigits(s: string) { forall i :: 0 <= i < |s| ==> IsDigit(s[i]) }

  /** The character of the decimal digit d. */
  function Digit(d: nat): (c: char)
    requires d < 10
    ensures IsDigit(c)
  {
    (('0' as int) + d) as char
  }

  /** The value of a decimal digit character. */
  function DigitValue(c: char): (d: nat)
    requires IsDigit(c)
    ensures d < 10
  {
    (c as int) - ('0' as int)
  }

  /** `str(n)`: the decimal digits of n, with no sign, no padding and no leading zero. */
  function NatToString(n: nat): (s: string)
    ensures 1 <= |s| && AllDigits(s)
    ensures |s| == 1 <==> n < 10
    ensures s[0] == '0' ==> n == 0
    decreases n
  {
    if n < 10 then [Digit(n)] else NatToString(n / 10) + [Digit(n % 10)]
  }

  /** The number a string of decimal digits denotes (the reading of `int(s)`). */
  function ParseDigits(s: string): nat
    requires AllDigits(s)
    decreases |s|
  {
    if s == [] then 0 else ParseDigits(s[..|s| - 1]) * 10 + DigitValue(s[|s| - 1])
  }

  /** Reading back the text of `str(n)` gives n. */
  lemma {:induction false} NatToStringRoundTrip(n: nat)
    ensures ParseDigits(NatToString(n)) == n
    decreases n
  {
    if n >= 10 {
      NatToStringRoundTrip(n / 10);
      var s := NatToString(n);
      assert s[..|s| - 1] == NatToString(n / 10);
    }
  }

  /** Distinct numbers have distinct decimal texts. */
  lemma NatToStringInjective(a: nat, b: nat)
    ensures NatToString(a) == NatToString(b) <==> a == b
  {
    NatToStringRoundTrip(a);
    NatToStringRoundTrip(b);
  }

  // ---------------------------------------------------------------------------
  // str.join and str.split with a one-character separator

  /** `sep.join(items)`: the items with sep between neighbours. */
  function Join(sep: string, items: seq<string>): string
    decreases |items|
  {
    if |items| == 0 then ""
    else if |items| == 1 then items[0]
    else items[0] + sep + Join(sep, items[1..])
  }

  /** Three items joined: the separator between each neighbouring pair. */
  lemma JoinThree(sep: string, a: string, b: string, c: string)
    ensures Join(sep, [a, b, c]) == a + sep + b + sep + c
  {
    assert [a, b, c][1..] == [b, c];
    assert [b, c][1..] == [c];
    assert Join(sep, [b, c]) == b + sep + c;
    assert Join(sep, [a, b, c]) == a + sep + (b + sep + c);
  }

  /** `s.split(sep)` for a one-character separator: never empty, parts free of sep. */
  function Split(s: string, sep: char): (parts: seq<string>)
    ensures |parts| >= 1
    ensures forall i :: 0 <= i < |parts| ==> sep !in parts[i]
    decreases |s|
  {
    if s == [] then [[]]
    else
      var rest := Split(s[1..], sep);
      if s[0] == sep then [[]] + rest
      else [[s[0]] + rest[0]] + rest[1..]
  }

  /** Joining the parts of a split with the separator gives back the string. */
  lemma {:induction false} SplitJoin(s: string, sep: char)
    ensures Join([sep], Split(s, sep)) == s
    decreases |s|
  {
    if s != [] {
      var rest := Split(s[1..], sep);
      SplitJoin(s[1..], sep);
      if s[0] == sep {
        assert Split(s, sep)[1..] == rest;
      } else if |rest| == 1 {
        assert Join([sep], Split(s, sep)) == [s[0]] + rest[0];
      } else {
        var parts := Split(s, sep);
        assert parts[1..] == rest[1..];
        assert Join([sep], rest) == rest[0] + [sep] + Join([sep], rest[1..]);
        assert Join([sep], parts) == parts[0] + [sep] + Join([sep], rest[1..]);
      }
    }
  }

  /** A string without the separator splits into itself alone. */
  lemma {:induction false} SplitWithoutSeparator(s: string, sep: char)
    requires sep !in s
    ensures Split(s, sep) == [s]
    decreases |s|
  {
    if s != [] {
      assert sep !in s[1..];
      SplitWithoutSeparator(s[1..], sep);
      assert [s[0]] + s[1..] == s;
    }
  }

  /** Splitting at one separator concatenates the splits of both sides. */
  lemma {:induction false} SplitAtSeparator(a: string, b: string, sep: char)
    ensures Split(a + [sep] + b, sep) == Split(a, sep) + Split(b, sep)
    decreases |a|
  {
    if a == [] {
      assert a + [sep] + b == [sep] + b;
      assert ([sep] + b)[1..] == b;
    } else {
      assert (a + [sep] + b)[1..] == a[1..] + [sep] + b;
      SplitAtSeparator(a[1..], b, sep);
    }
  }

  /** `s.split('/')[-1]`: the text after the last slash. */
  function LastSegment(s: string): (r: string)
    ensures '/' !in r
  {
    var parts := Split(s, '/');
    parts[|parts| - 1]
  }

  /** The last segment is a suffix of s, preceded by a slash unless it is all of s. */
  lemma LastSegmentIsSuffix(s: string)
    ensures |LastSegment(s)| <= |s|
    ensures s[|s| - |LastSegment(s)|..] == LastSegment(s)
    ensures |LastSegment(s)| < |s| ==> s[|s| - |LastSegment(s)| - 1] == '/'
  {
    var parts := Split(s, '/');
    var n := |parts|;
    SplitJoin(s, '/');
    if n > 1 {
      JoinLast("/", parts);
      var front := Join("/", parts[..n - 1]);
      assert s == front + "/" + parts[n - 1];
    }
  }

  /** `sep.join(items)` ends with the last item, after a separator when there are several. */
  lemma {:induction false} JoinLast(sep: string, items: seq<string>)
    requires |items| >= 2
    ensures Join(sep, items) == Join(sep, items[..|items| - 1]) + sep + items[|items| - 1]
    decreases |items|
  {
    if |items| > 2 {
      JoinLast(sep, items[1..]);
      assert items[1..][..|items| - 2] == items[..|items| - 1][1..];
    }
  }

  /** A string with no slash is its own last segment. */
  lemma LastSegmentWithoutSlash(s: string)
    requires '/' !in s
    ensures LastSegment(s) == s
  {
    SplitWithoutSeparator(s, '/');
  }

  /** Whatever precedes the last slash does not affect the last segment. */
  lemma LastSegmentAfterSlash(a: string, b: string)
    requires '/' !in b
    ensures LastSegment(a + "/" + b) == b
  {
    SplitAtSeparator(a, b, '/');
    SplitWithoutSeparator(b, '/');
  }

  // ---------------------------------------------------------------------------
  // str.replace with one-character strings

  /** `s.replace(a, b)` where a and b are one character long. */
  function ReplaceChar(s: string, a: char, b: char): (r: string)
    ensures |r| == |s|
    ensures forall i :: 0 <= i < |s| ==> r[i] == (if s[i] == a then b else s[i])
    decreases |s|
  {
    if s == [] then [] else [if s[0] == a then b else s[0]] + ReplaceChar(s[1..], a, b)
  }

  /** Replacing a character that does not occur changes nothing. */
  lemma ReplaceAbsent(s: string, a: char, b: char)
    requires a !in s
    ensures ReplaceChar(s, a, b) == s
  {
    assert forall i :: 0 <= i < |s| ==> s[i] != a;
  }

  // ---------------------------------------------------------------------------
  // str.lower and str.startswith

  /** `c.lower()` for an ASCII character; every other character is left as it is. */
  function LowerAscii(c: char): (l: char)
    ensures 'A' <= c <= 'Z' ==> l as int == c as int + 32
    ensures !('A' <= c <= 'Z') ==> l == c
  {
    if 'A' <= c <= 'Z' then (c as int + 32) as char else c
  }

  /** `c.isspace()`: the characters Python counts as whitespace. */
  predicate IsSpace(c: char)
  {
    '\U{0009}' <= c <= '\U{000D}' || '\U{001C}' <= c <= '\U{0020}' || c == '\U{0085}' || c == '\U{00A0}' ||
    c == '\U{1680}' || '\U{2000}' <= c <= '\U{200A}' || c == '\U{2028}' || c == '\U{2029}' ||
    c == '\U{202F}' || c == '\U{205F}' || c == '\U{3000}'
  }

  /** `s.lstrip()`: s without its leading whitespace. */
  function LStrip(s: string): (r: string)
    ensures |r| <= |s| && r == s[|s| - |r|..]
    ensures r == [] || !IsSpace(r[0])
    ensures forall j :: 0 <= j < |s| - |r| ==> IsSpace(s[j])
    decreases |s|
  {
    if s != [] && IsSpace(s[0]) then LStrip(s[1..]) else s
  }

  /** `s.lower().startswith(prefix)` for a lower-case prefix. */
  predicate StartsWithIgnoringCase(s: string, prefix: string)
  {
    |prefix| <= |s| && forall i :: 0 <= i < |prefix| ==> LowerAscii(s[i]) == prefix[i]
  }

  // ---------------------------------------------------------------------------
  // str.rfind and str.rstrip with one character

  /** `s.rfind(c)`: the index of the last c in s, or -1. */
  function RFind(s: string, c: char): (i: int)
    ensures -1 <= i < |s|
    ensures i >= 0 ==> s[i] == c
    ensures forall j :: i < j < |s| ==> s[j] != c
    decreases |s|
  {
    if s == [] then -1 else if s[|s| - 1] == c then |s| - 1 else RFind(s[..|s| - 1], c)
  }

  /** `s.rstrip(c)`: s without its trailing run of c. */
  function RStrip(s: string, c: char): (r: string)
    ensures |r| <= |s| && r == s[..|r|]
    ensures r == [] || r[|r| - 1] != c
    ensures forall j :: |r| <= j < |s| ==> s[j] == c
    decreases |s|
  {
    if s != [] && s[|s| - 1] == c then RStrip(s[..|s| - 1], c) else s
  }

  // ---------------------------------------------------------------------------
  // Slicing with Python's bounds

  /** A slice bound as Python normalises it: negative counts from the end, then clamped. */
  function SliceBound(i: int, n: nat): (k: nat)
    ensures k <= n
    ensures i < 0 && n + i >= 0 ==> k == n + i
    ensures 0 <= i <= n ==> k == i
    ensures i < 0 && n + i < 0 ==> k == 0
    ensures i > n ==> k == n
  {
    if i < 0 then (if n + i < 0 then 0 else n + i) else if i > n then n else i
  }

  /** `s[:i]`. */
  function SliceTo(s: string, i: int): string
  {
    s[..SliceBound(i, |s|)]
  }

  /** `s[i:]`. */
  function SliceFrom(s: string, i: int): string
  {
    s[SliceBound(i, |s|)..]
  }

  // ---------------------------------------------------------------------------
  // posixpath.join and posixpath.split

  /** `os.path.join(a, b)` on POSIX: an absolute b discards a; otherwise one slash between. */
  function PosixJoin(a: string, b: string): string
  {
    if |b| > 0 && b[0] == '/' then b
    else if a == [] || a[|a| - 1] == '/' then a + b
    else a + "/" + b
  }

  /** The joined path ends with b and, unless b is absolute, starts with a. */
  lemma PosixJoinKeepsParts(a: string, b: string)
    ensures var r := PosixJoin(a, b);
            && |b| <= |r| && r[|r| - |b|..] == b
            && ((|b| > 0 && b[0] == '/') || (|a| <= |r| && r[..|a|] == a))
  {
  }

  predicate AllSlashes(s: string) { forall i :: 0 <= i < |s| ==> s[i] == '/' }

  /** The heads `os.path.split` returns: empty, all slashes, or not ending in a slash. */
  predicate IsSplitHead(h: string) { AllSlashes(h) || h[|h| - 1] != '/' }

  /** `os.path.split(p)` on POSIX: (head, tail) around the last slash. */
  function PosixSplit(p: string): (r: (string, string))
    ensures IsSplitHead(r.0)
    ensures '/' !in r.1
    ensures |r.1| <= |p| && r.1 == p[|p| - |r.1|..]
    ensures |r.1| == |p| || p[|p| - |r.1| - 1] == '/'
    ensures |r.0| + |r.1| <= |p| && r.0 == p[..|r.0|]
    ensures forall j :: |r.0| <= j < |p| - |r.1| ==> p[j] == '/'
    ensures r.0 == [] <==> '/' !in p
    ensures AllSlashes(r.0) ==> |r.0| + |r.1| == |p|
  {
    var i := RFind(p, '/') + 1;
    var head := p[..i];
    var tail := p[i..];
    if head != [] && !AllSlashes(head) then (RStrip(head, '/'), tail) else (head, tail)
  }

  /** Joining a split head with a slash-free name and splitting again gives back both. */
  lemma JoinThenSplit(h: string, n: string)
    requires IsSplitHead(h) && '/' !in n
    ensures PosixSplit(PosixJoin(h, n)) == (h, n)
  {
    var p := PosixJoin(h, n);
    var i := RFind(p, '/');
    if h == [] {
      assert p == n;
      assert i == -1;
    } else if h[|h| - 1] == '/' {
      assert p == h + n;
      assert forall j :: |h| <= j < |p| ==> p[j] == n[j - |h|];
      assert p[|h| - 1] == '/';
      assert i == |h| - 1;
      assert p[..|h|] == h && p[|h|..] == n;
    } else {
      assert p == h + "/" + n;
      assert forall j :: |h| < j < |p| ==> p[j] == n[j - |h| - 1];
      assert p[|h|] == '/';
      assert i == |h|;
      var head := p[..|h| + 1];
      assert head == h + "/" && p[|h| + 1..] == n;
      assert head[|h| - 1] != '/' && head[|h|] == '/';
      var r := RStrip(head, '/');
      assert |r| == |h|;
      assert r == h;
    }
  }
}

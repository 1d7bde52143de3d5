/**
 * The string operations of Python's standard library that the product
 * handlers rely on: slicing, POSIX path handling, lower-casing, splitting
 * on separators and the ordering of strings used by `sorted`.
 */
module Text {

  /** `s[i:j]` in Python for `0 <= i <= j`: out-of-range bounds are clamped. */
  function Slice(s: string, i: nat, j: nat): (r: string)
    requires i <= j
    ensures |r| == if |s| <= i then 0 else if |s| <= j then |s| - i else j - i
    ensures forall k :: 0 <= k < |r| ==> r[k] == s[i + k]
  {
    if |s| <= i then "" else if |s| <= j then s[i..] else s[i..j]
  }

  /** `s.rfind(c)`: the last index of `c` in `s`, or -1. */
  function LastIndexOf(s: string, c: char): (r: int)
    ensures -1 <= r < |s|
    ensures r >= 0 ==> s[r] == c
    ensures forall k :: r < k < |s| ==> s[k] != c
  {
    if s == [] then -1
    else if s[|s| - 1] == c then |s| - 1
    else LastIndexOf(s[..|s| - 1], c)
  }

  /** `os.path.basename(p)` on POSIX: everything after the last `/`. */
  function Basename(p: string): string {
    p[LastIndexOf(p, '/') + 1..]
  }

  /** A path with a non-empty last component does not end in `/`. */
  lemma NoTrailingSlash(path: string)
    requires |Basename(path)| > 0
    ensures path[|path| - 1] != '/'
  {
  }

  /** Dropping a prefix of the first part of a concatenation. */
  lemma SliceOfConcat(x: string, y: string, i: nat)
    requires i <= |x|
    ensures (x + y)[i..] == x[i..] + y
  {
  }

  /** Concatenation is associative. */
  lemma ConcatAssoc(x: string, y: string, z: string)
    ensures x + (y + z) == x + y + z
  {
  }

  /** `s.rstrip('/')`. */
  function StripTrailingSlashes(s: string): (r: string)
    ensures |r| <= |s| && r == s[..|r|]
    ensures r == [] || r[|r| - 1] != '/'
    ensures forall k :: |r| <= k < |s| ==> s[k] == '/'
  {
    if s != [] && s[|s| - 1] == '/' then StripTrailingSlashes(s[..|s| - 1]) else s
  }

  /**
   * `os.path.dirname(p)` on POSIX: the part up to the last `/`, with trailing
   * slashes removed unless it consists of slashes only.
   */
  function Dirname(p: string): string {
    var head := p[..LastIndexOf(p, '/') + 1];
    if head != [] && exists k :: 0 <= k < |head| && head[k] != '/' then StripTrailingSlashes(head)
    else head
  }

  /** True when `s[from..to]` holds a character other than `.`. */
  predicate HasNonDot(s: string, from: nat, to: nat)
    requires from <= to <= |s|
  {
    exists k :: from <= k < to && s[k] != '.'
  }

  /**
   * `os.path.splitext(p)[0]` on POSIX: `p` without its extension, the
   * extension being the part from the last `.` of the last path component,
   * provided a character other than `.` precedes that dot in the component.
   */
  function Root(p: string): string {
    var sep := LastIndexOf(p, '/');
    var dot := LastIndexOf(p, '.');
    if dot > sep && HasNonDot(p, sep + 1, dot) then p[..dot] else p
  }

  /** `os.path.join(a, b)` on POSIX. */
  function JoinPath(a: string, b: string): string {
    if |b| > 0 && b[0] == '/' then b
    else if a == [] || a[|a| - 1] == '/' then a + b
    else a + "/" + b
  }

  predicate IsUpper(c: char) { 'A' <= c <= 'Z' }

  /** `s.lower()` restricted to ASCII letters. */
  function Lower(s: string): (r: string)
    ensures |r| == |s|
    ensures forall k :: 0 <= k < |s| ==> !IsUpper(r[k])
    ensures forall k :: 0 <= k < |s| && !IsUpper(s[k]) ==> r[k] == s[k]
    ensures forall k :: 0 <= k < |s| && IsUpper(s[k]) ==> r[k] == (s[k] as int + 32) as char
  {
    if s == [] then ""
    else
      var c := s[0];
      [if IsUpper(c) then (c as int + 32) as char else c] + Lower(s[1..])
  }

  /** The characters Python's `str.split()` treats as whitespace. */
  predicate IsWhitespace(c: char) {
    c == ' ' || c == '\t' || c == '\n' || c == '\r' || c == '\U{B}' || c == '\U{C}'
    || ('\U{1C}' <= c <= '\U{1F}') || c == '\U{85}' || c == '\U{A0}' || c == '\U{1680}'
    || ('\U{2000}' <= c <= '\U{200A}') || c == '\U{2028}' || c == '\U{2029}'
    || c == '\U{202F}' || c == '\U{205F}' || c == '\U{3000}'
  }

  /** A separator between coordinate tokens: a comma or whitespace. */
  predicate IsSeparator(c: char) { c == ',' || IsWhitespace(c) }

  /** The length of the run of non-separators that starts `s`. */
  function RunLength(s: string): (n: nat)
    ensures n <= |s|
    ensures forall k :: 0 <= k < n ==> !IsSeparator(s[k])
    ensures n == |s| || IsSeparator(s[n])
  {
    if s == [] || IsSeparator(s[0]) then 0 else 1 + RunLength(s[1..])
  }

  /**
   * `' '.join(s.split(',')).split()`: the maximal runs of characters that are
   * neither commas nor whitespace, in order.
   */
  function Tokens(s: string): seq<string>
    decreases |s|
  {
    if s == [] then []
    else if IsSeparator(s[0]) then Tokens(s[1..])
    else
      var n := RunLength(s);
      [s[..n]] + Tokens(s[n..])
  }

  /** `s` with every separator removed. */
  function WithoutSeparators(s: string): string {
    if s == [] then ""
    else (if IsSeparator(s[0]) then "" else [s[0]]) + WithoutSeparators(s[1..])
  }

  /** The concatenation of a sequence of strings. */
  function Concat(ss: seq<string>): string {
    if ss == [] then "" else ss[0] + Concat(ss[1..])
  }

  lemma {:induction false} ConcatAppend(a: seq<string>, b: seq<string>)
    ensures Concat(a + b) == Concat(a) + Concat(b)
  {
    if a == [] {
      assert a + b == b;
    } else {
      assert (a + b)[1..] == a[1..] + b;
      ConcatAppend(a[1..], b);
    }
  }

  lemma {:induction false} WithoutSeparatorsRun(s: string, n: nat)
    requires n <= |s|
    requires forall k :: 0 <= k < n ==> !IsSeparator(s[k])
    ensures WithoutSeparators(s) == s[..n] + WithoutSeparators(s[n..])
  {
    if n > 0 {
      WithoutSeparatorsRun(s[1..], n - 1);
      assert s[1..][..n - 1] == s[1..n];
      assert s[1..][n - 1..] == s[n..];
      assert [s[0]] + s[1..n] == s[..n];
    }
  }

  /** Every token is a non-empty run of non-separators. */
  lemma {:induction false} TokensAreRuns(s: string)
    ensures forall t :: t in Tokens(s) ==> |t| > 0 && forall k :: 0 <= k < |t| ==> !IsSeparator(t[k])
    decreases |s|
  {
    if s != [] && IsSeparator(s[0]) {
      TokensAreRuns(s[1..]);
    } else if s != [] {
      var n := RunLength(s);
      TokensAreRuns(s[n..]);
      assert Tokens(s) == [s[..n]] + Tokens(s[n..]);
    }
  }

  /**
   * The tokens put together are the text with its separators removed: the
   * split neither loses nor invents a coordinate character.
   */
  lemma {:induction false} TokensKeepText(s: string)
    ensures Concat(Tokens(s)) == WithoutSeparators(s)
    decreases |s|
  {
    if s != [] && IsSeparator(s[0]) {
      TokensKeepText(s[1..]);
    } else if s != [] {
      var n := RunLength(s);
      var rest := Tokens(s[n..]);
      assert Tokens(s) == [s[..n]] + rest;
      TokensKeepText(s[n..]);
      WithoutSeparatorsRun(s, n);
      assert ([s[..n]] + rest)[1..] == rest;
      assert Concat([s[..n]] + rest) == s[..n] + Concat(rest);
    }
  }

  /** Python's `a < b` on strings: code-point lexicographic order. */
  predicate LexLess(a: string, b: string) {
    if a == [] then b != []
    else if b == [] then false
    else if a[0] != b[0] then a[0] < b[0]
    else LexLess(a[1..], b[1..])
  }

  lemma {:induction false} LexLessAsymmetric(a: string, b: string)
    ensures !(LexLess(a, b) && LexLess(b, a))
  {
    if a != [] && b != [] && a[0] == b[0] {
      LexLessAsymmetric(a[1..], b[1..]);
    }
  }

  /** Any two different strings are ordered one way or the other. */
  lemma {:induction false} LexLessTotal(a: string, b: string)
    ensures a == b || LexLess(a, b) || LexLess(b, a)
  {
    if a != [] && b != [] && a[0] == b[0] {
      LexLessTotal(a[1..], b[1..]);
      assert a == [a[0]] + a[1..] && b == [b[0]] + b[1..];
    }
  }

  lemma {:induction false} LexLessTransitive(a: string, b: string, c: string)
    requires LexLess(a, b) && LexLess(b, c)
    ensures LexLess(a, c)
  {
    if a != [] && a[0] == b[0] && b[0] == c[0] {
      LexLessTransitive(a[1..], b[1..], c[1..]);
    }
  }

  /** Two strings in the order `sorted` gives them (a stable sort). */
  function SortPair(a: string, b: string): (r: (string, string))
    ensures multiset{r.0, r.1} == multiset{a, b}
    ensures !LexLess(r.1, r.0)
  {
    LexLessAsymmetric(a, b);
    if LexLess(b, a) then (b, a) else (a, b)
  }

  /** `sorted(ps)[-1]`: the greatest of the strings. */
  function LexMax(ps: seq<string>): (m: string)
    requires |ps| > 0
    ensures m in ps
  {
    if |ps| == 1 then ps[0]
    else
      var m := LexMax(ps[..|ps| - 1]);
      if LexLess(m, ps[|ps| - 1]) then ps[|ps| - 1] else m
  }

  lemma {:induction false} LexMaxIsGreatest(ps: seq<string>)
    requires |ps| > 0
    ensures forall p :: p in ps ==> !LexLess(LexMax(ps), p)
  {
    if |ps| == 1 {
      LexLessAsymmetric(ps[0], ps[0]);
    } else {
      var init := ps[..|ps| - 1];
      var last := ps[|ps| - 1];
      var m := LexMax(init);
      LexMaxIsGreatest(init);
      assert ps == init + [last];
      if LexLess(m, last) {
        forall p | p in ps
          ensures !LexLess(last, p)
        {
          if p in init && LexLess(last, p) {
            LexLessTransitive(m, last, p);
          }
          LexLessAsymmetric(last, last);
        }
      } else {
        forall p | p in ps
          ensures !LexLess(m, p)
        {
        }
      }
    }
  }

  /** Of two strings, the greatest is the second in sorted order. */
  lemma LexMaxOfPair(a: string, b: string)
    ensures LexMax([a, b]) == SortPair(a, b).1
  {
    assert [a, b][..1] == [a];
    assert LexMax([a, b]) == if LexLess(a, b) then b else a;
    assert SortPair(a, b).1 == if LexLess(b, a) then a else b;
    LexLessAsymmetric(a, b);
    LexLessTotal(a, b);
  }

  lemma {:induction false} LexLessCommonPrefix(p: string, x: string, y: string)
    requires LexLess(x, y)
    ensures LexLess(p + x, p + y)
  {
    if p != [] {
      assert (p + x)[0] == p[0] == (p + y)[0];
      assert (p + x)[1..] == p[1..] + x;
      assert (p + y)[1..] == p[1..] + y;
      LexLessCommonPrefix(p[1..], x, y);
    } else {
      assert p + x == x && p + y == y;
    }
  }

  lemma {:induction false} BasenameAfterSlash(d: string, b: string)
    requires '/' !in b
    ensures Basename(d + "/" + b) == b
  {
    var s := d + "/" + b;
    assert s[|d|] == '/';
    forall k | |d| < k < |s|
      ensures s[k] != '/'
    {
      assert s[k] == b[k - |d| - 1];
    }
    assert LastIndexOf(s, '/') == |d|;
    assert s[|d| + 1..] == b;
  }

  lemma BasenameHasNoSlash(p: string)
    ensures '/' !in Basename(p)
  {
    var r := LastIndexOf(p, '/');
    var b := p[r + 1..];
    assert Basename(p) == b;
    forall k | 0 <= k < |b|
      ensures b[k] != '/'
    {
      assert b[k] == p[r + 1 + k] && r < r + 1 + k < |p|;
    }
  }

  lemma {:induction false} BasenameNoSlash(b: string)
    requires '/' !in b
    ensures Basename(b) == b
  {
    assert LastIndexOf(b, '/') == -1;
  }

  /** Strips an extension that follows a component starting with a non-dot. */
  lemma {:induction false} RootOfSuffixed(stem: string, ext: string)
    requires |stem| > 0 && stem[0] != '.' && '/' !in stem
    requires |ext| > 0 && ext[0] == '.' && '.' !in ext[1..] && '/' !in ext
    ensures Root(stem + ext) == stem
  {
    var p := stem + ext;
    assert p[|stem|] == '.';
    forall k | |stem| < k < |p|
      ensures p[k] != '.'
    {
      assert p[k] == ext[1..][k - |stem| - 1];
    }
    assert LastIndexOf(p, '.') == |stem|;
    forall k | 0 <= k < |p|
      ensures p[k] != '/'
    {
      if k < |stem| {
        assert p[k] == stem[k];
      } else {
        assert p[k] == ext[k - |stem|];
      }
    }
    assert LastIndexOf(p, '/') == -1;
    assert p[0] != '.';
    assert HasNonDot(p, 0, |stem|);
    assert p[..|stem|] == stem;
  }
}

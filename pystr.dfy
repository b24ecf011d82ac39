/** The Python `str` built-ins the script uses: `strip()`, `split()` with no
    separator, `split(sep)` with a one-character separator, and the `join`
    that undoes the latter. */
module PyStr {

  /** The characters Python's `str.isspace` accepts; `strip()` and `split()`
      without arguments treat exactly these as whitespace. */
  predicate IsSpace(c: char) {
    var n := c as int;
    (9 <= n <= 13) || (28 <= n <= 32) || n == 0x85 || n == 0xA0 || n == 0x1680
    || (0x2000 <= n <= 0x200A) || n == 0x2028 || n == 0x2029 || n == 0x202F
    || n == 0x205F || n == 0x3000
  }

  ghost predicate AllSpace(s: string) {
    forall k :: 0 <= k < |s| ==> IsSpace(s[k])
  }

  ghost predicate NoSpace(s: string) {
    forall k :: 0 <= k < |s| ==> !IsSpace(s[k])
  }

  /** Neither starts nor ends with whitespace. */
  ghost predicate Trimmed(s: string) {
    s == [] || (!IsSpace(s[0]) && !IsSpace(s[|s| - 1]))
  }

  /** The number of whitespace characters `s` starts with. */
  function LeadingSpaces(s: string): (n: nat)
    ensures n <= |s|
    ensures AllSpace(s[..n])
    ensures n < |s| ==> !IsSpace(s[n])
  {
    if s != [] && IsSpace(s[0]) then 1 + LeadingSpaces(s[1..]) else 0
  }

  /** The number of whitespace characters `s` ends with. */
  function TrailingSpaces(s: string): (n: nat)
    ensures n <= |s|
    ensures AllSpace(s[|s| - n..])
    ensures n < |s| ==> !IsSpace(s[|s| - 1 - n])
  {
    if s != [] && IsSpace(s[|s| - 1]) then 1 + TrailingSpaces(s[..|s| - 1]) else 0
  }

  /** The number of non-whitespace characters `s` starts with. */
  function WordLength(s: string): (n: nat)
    ensures n <= |s|
    ensures NoSpace(s[..n])
    ensures n < |s| ==> IsSpace(s[n])
  {
    if s != [] && !IsSpace(s[0]) then 1 + WordLength(s[1..]) else 0
  }

  /** `s.strip()`: `s` without its leading and trailing whitespace. */
  function Strip(s: string): (r: string)
    ensures Trimmed(r)
    ensures Stripped(s, LeadingSpaces(s), r)
  {
    var i := LeadingSpaces(s);
    var j := TrailingSpaces(s[i..]);
    StripSlices(s, i, j);
    s[i..|s| - j]
  }

  /** The slice between the leading run of `i` and a trailing run of `j`
      whitespace characters is trimmed and is what `strip()` keeps. */
  lemma StripSlices(s: string, i: nat, j: nat)
    requires i + j <= |s|
    requires AllSpace(s[..i]) && (i < |s| ==> !IsSpace(s[i]))
    requires AllSpace(s[i..][|s| - i - j..]) && (i + j < |s| ==> !IsSpace(s[i..][|s| - i - 1 - j]))
    ensures Trimmed(s[i..|s| - j]) && Stripped(s, i, s[i..|s| - j])
  {
    var t := s[i..];
    var r := s[i..|s| - j];
    assert t[|t| - j..] == s[|s| - j..];
    assert r == t[..|t| - j];
    assert s[i + |r|..] == t[|t| - j..];
    if r != [] {
      assert r[0] == s[i];
      assert r[|r| - 1] == t[|t| - 1 - j];
    }
  }

  /** `strip()` leaves nothing exactly when the string is all whitespace. */
  lemma StripEmptyIff(s: string)
    ensures Strip(s) == [] <==> AllSpace(s)
  {
    StrippedEmptyIff(s, LeadingSpaces(s), Strip(s));
  }

  /** A trimmed core cut out of `s` between whitespace is empty exactly
      when all of `s` is whitespace. */
  lemma StrippedEmptyIff(s: string, i: nat, r: string)
    requires Stripped(s, i, r) && Trimmed(r)
    ensures r == [] <==> AllSpace(s)
  {
    if r == [] {
      AllSpaceConcat(s[..i], s[i..]);
      assert s[..i] + s[i..] == s;
    } else {
      assert s[i] == r[0];
    }
  }

  /** `s` is `r` with whitespace before it (the first `i` characters) and after it. */
  ghost predicate Stripped(s: string, i: nat, r: string) {
    i + |r| <= |s| && s[i..i + |r|] == r && AllSpace(s[..i]) && AllSpace(s[i + |r|..])
  }

  lemma AllSpaceConcat(a: string, b: string)
    requires AllSpace(a) && AllSpace(b)
    ensures AllSpace(a + b)
  {
  }

  /** `strip()` is determined by its result: removing whitespace on both
      ends of a trimmed string gives that string back. */
  lemma {:induction false} StripUnique(a: string, r: string, b: string)
    requires AllSpace(a) && AllSpace(b) && Trimmed(r)
    ensures Strip(a + r + b) == r
  {
    var s := a + r + b;
    var i := LeadingSpaces(s);
    if r == [] {
      AllSpaceConcat(a, b);
      assert s == a + b;
      StripEmptyIff(s);
    } else {
      assert s[|a|] == r[0];
      assert i == |a|;
      var t := s[i..];
      assert t == r + b;
      var j := TrailingSpaces(t);
      assert t[|t| - 1 - |b|] == r[|r| - 1];
      assert j == |b|;
      assert t[..|t| - j] == r;
    }
  }

  /** `s.strip() == s` exactly when `s` neither starts nor ends with whitespace. */
  lemma StripFixedIff(s: string)
    ensures Strip(s) == s <==> Trimmed(s)
  {
  }

  /** Stripping twice is stripping once. */
  lemma StripIdempotent(s: string)
    ensures Strip(Strip(s)) == Strip(s)
  {
  }

  /** `s.split()`: the maximal runs of non-whitespace characters, in order. */
  function Words(s: string): (ws: seq<string>)
    ensures |ws| == 0 <==> AllSpace(s)
    decreases |s|
  {
    var i := LeadingSpaces(s);
    var t := s[i..];
    if t == [] then
      assert s[..i] == s;
      []
    else
      assert t[0] == s[i];
      var n := WordLength(t);
      [t[..n]] + Words(t[n..])
  }

  /** Every word of `s.split()` is non-empty and holds no whitespace. */
  lemma {:induction false} WordsAreWords(s: string)
    ensures forall k :: 0 <= k < |Words(s)| ==> Words(s)[k] != [] && NoSpace(Words(s)[k])
    decreases |s|
  {
    var i := LeadingSpaces(s);
    var t := s[i..];
    if t != [] {
      assert t[0] == s[i];
      var n := WordLength(t);
      WordsAreWords(t[n..]);
      assert Words(s) == [t[..n]] + Words(t[n..]);
    }
  }

  /** The first word of `s.split()`: after any leading whitespace, the
      non-whitespace run that ends at whitespace or at the end of `s`. */
  lemma {:induction false} FirstWord(lead: string, w: string, rest: string)
    requires AllSpace(lead) && w != [] && NoSpace(w)
    requires rest == [] || IsSpace(rest[0])
    ensures var ws := Words(lead + w + rest); |ws| > 0 && ws[0] == w
  {
    var s := lead + w + rest;
    var i := LeadingSpaces(s);
    assert s[|lead|] == w[0];
    assert i == |lead|;
    var t := s[i..];
    assert t == w + rest;
    var n := WordLength(t);
    assert forall k :: 0 <= k < |w| ==> t[k] == w[k];
    assert |w| < |t| ==> t[|w|] == rest[0];
    assert n == |w|;
    assert t[..n] == w;
  }

  /** The number of occurrences of `c` in `s`. */
  function Count(s: string, c: char): (n: nat)
    ensures n <= |s|
    ensures n == 0 <==> c !in s
  {
    if s == [] then 0 else (if s[0] == c then 1 else 0) + Count(s[1..], c)
  }

  /** `sep.join(parts)`. */
  function Join(parts: seq<string>, sep: char): string {
    if |parts| <= 1 then (if parts == [] then "" else parts[0])
    else parts[0] + [sep] + Join(parts[1..], sep)
  }

  /** `s.split(sep)`: the pieces between the occurrences of `sep`, empty
      pieces included. */
  function Split(s: string, sep: char): (parts: seq<string>)
    ensures |parts| >= 1
    ensures forall k :: 0 <= k < |parts| ==> sep !in parts[k]
    ensures Join(parts, sep) == s
  {
    if s == [] then [""]
    else
      var rest := Split(s[1..], sep);
      if s[0] == sep then
        JoinEmptyFirst(rest, sep);
        assert s == [sep] + s[1..];
        [""] + rest
      else
        JoinExtendFirst(s[0], rest, sep);
        assert s == [s[0]] + s[1..];
        [[s[0]] + rest[0]] + rest[1..]
  }

  lemma JoinEmptyFirst(rest: seq<string>, sep: char)
    requires |rest| >= 1
    ensures Join([""] + rest, sep) == [sep] + Join(rest, sep)
  {
    assert ([""] + rest)[1..] == rest;
  }

  lemma JoinExtendFirst(c: char, rest: seq<string>, sep: char)
    requires |rest| >= 1
    ensures Join([[c] + rest[0]] + rest[1..], sep) == [c] + Join(rest, sep)
  {
    var parts := [[c] + rest[0]] + rest[1..];
    if |rest| > 1 {
      assert parts[1..] == rest[1..];
    }
  }

  /** There is always one more piece than there are separators. */
  lemma {:induction false} SplitCount(s: string, sep: char)
    ensures |Split(s, sep)| == Count(s, sep) + 1
  {
    if s != [] {
      SplitCount(s[1..], sep);
    }
  }

  lemma JoinThree(a: string, b: string, c: string, sep: char)
    ensures Join([a, b, c], sep) == a + [sep] + b + [sep] + c
  {
    assert [a, b, c][1..] == [b, c];
    assert [b, c][1..] == [c];
    assert Join([b, c], sep) == b + [sep] + c;
  }

  /** `split` undoes `join` when no piece contains the separator. */
  lemma {:induction false} SplitJoin(parts: seq<string>, sep: char)
    requires |parts| >= 1
    requires forall k :: 0 <= k < |parts| ==> sep !in parts[k]
    ensures Split(Join(parts, sep), sep) == parts
  {
    if |parts| == 1 {
      SplitNoSep(parts[0], sep);
    } else {
      SplitJoin(parts[1..], sep);
      SplitThrough(parts[0], sep, Join(parts[1..], sep));
    }
  }

  lemma {:induction false} SplitNoSep(s: string, sep: char)
    requires sep !in s
    ensures Split(s, sep) == [s]
  {
    if s != [] {
      SplitNoSep(s[1..], sep);
      assert s == [s[0]] + s[1..];
    }
  }

  lemma {:induction false} SplitThrough(p: string, sep: char, tail: string)
    requires sep !in p
    ensures Split(p + [sep] + tail, sep) == [p] + Split(tail, sep)
  {
    if p == [] {
      assert p + [sep] + tail == [sep] + tail;
      assert ([sep] + tail)[1..] == tail;
    } else {
      var s := p + [sep] + tail;
      assert s[1..] == p[1..] + [sep] + tail;
      SplitThrough(p[1..], sep, tail);
      assert [p[0]] + p[1..] == p;
    }
  }
}

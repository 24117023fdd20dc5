/** The string operations the application relies on: Python's `str.split()` with no
    argument, `sep.join(parts)`, and the decimal rendering of a non-negative integer
    inside an f-string. */
module Text {

  /** The characters Python's `str.split()` treats as whitespace (`str.isspace()`):
      the ASCII controls TAB..CR and FS..US, SPACE, NEL, NO-BREAK SPACE and the
      Unicode space separators and line/paragraph separators. */
  predicate IsSpace(c: char) {
    var n := c as int;
    || (0x09 <= n <= 0x0D)
    || (0x1C <= n <= 0x20)
    || n == 0x85 || n == 0xA0 || n == 0x1680
    || (0x2000 <= n <= 0x200A)
    || n == 0x2028 || n == 0x2029 || n == 0x202F || n == 0x205F || n == 0x3000
  }

  /** A word as `str.split()` produces it: non-empty and free of whitespace. */
  predicate IsWord(w: string) {
    |w| > 0 && forall i :: 0 <= i < |w| ==> !IsSpace(w[i])
  }

  predicate AllWords(ws: seq<string>) {
    forall i :: 0 <= i < |ws| ==> IsWord(ws[i])
  }

  /** Length of the longest whitespace-free prefix of `s`. */
  function WordLength(s: string): (n: nat)
    ensures n <= |s|
    ensures forall i :: 0 <= i < n ==> !IsSpace(s[i])
    ensures n < |s| ==> IsSpace(s[n])
  {
    if s == [] || IsSpace(s[0]) then 0 else 1 + WordLength(s[1..])
  }

  /** `s.split()`: the maximal runs of non-whitespace characters, in order. */
  function Split(s: string): (words: seq<string>)
    ensures AllWords(words)
    decreases |s|
  {
    if s == [] then []
    else if IsSpace(s[0]) then Split(s[1..])
    else
      var n := WordLength(s);
      [s[..n]] + Split(s[n..])
  }

  /** `sep.join(parts)`. */
  function Join(sep: string, parts: seq<string>): string
  {
    if parts == [] then ""
    else if |parts| == 1 then parts[0]
    else parts[0] + sep + Join(sep, parts[1..])
  }

  /** The words of every part, part after part. */
  function WordsOf(parts: seq<string>): (words: seq<string>)
    ensures AllWords(words)
  {
    if parts == [] then [] else Split(parts[0]) + WordsOf(parts[1..])
  }

  /** Concatenation of a sequence of sequences. */
  function Flatten<T>(xss: seq<seq<T>>): seq<T>
  {
    if xss == [] then [] else xss[0] + Flatten(xss[1..])
  }

  // ---------------------------------------------------------------------------
  // Properties of Split

  /** A string splits into no words exactly when it is all whitespace. */
  lemma {:induction false} SplitEmptyIffAllSpace(s: string)
    ensures Split(s) == [] <==> forall i :: 0 <= i < |s| ==> IsSpace(s[i])
    decreases |s|
  {
    if s != [] {
      if IsSpace(s[0]) {
        SplitEmptyIffAllSpace(s[1..]);
        assert forall i :: 1 <= i < |s| ==> s[i] == s[1..][i - 1];
      }
    }
  }

  /** A single word splits into itself. */
  lemma SplitWord(w: string)
    requires IsWord(w)
    ensures Split(w) == [w]
  {
    assert WordLength(w) == |w|;
    assert w[..|w|] == w;
    assert w[|w|..] == [];
  }

  /** A word stops at the first whitespace, whatever follows it. */
  lemma {:induction false} WordLengthStopsAtSpace(a: string, b: string)
    requires b != [] && IsSpace(b[0])
    ensures WordLength(a + b) == WordLength(a)
    decreases |a|
  {
    if a == [] {
      assert a + b == b;
    } else if !IsSpace(a[0]) {
      assert (a + b)[1..] == a[1..] + b;
      WordLengthStopsAtSpace(a[1..], b);
    }
  }

  /** Gluing two strings with a whitespace character in between concatenates their words. */
  lemma {:induction false} SplitAroundSpace(a: string, c: char, b: string)
    requires IsSpace(c)
    ensures Split(a + [c] + b) == Split(a) + Split(b)
    decreases |a|
  {
    var s := a + [c] + b;
    if a == [] {
      assert s == [c] + b;
      assert s[1..] == b;
    } else if IsSpace(a[0]) {
      assert s[1..] == a[1..] + [c] + b;
      SplitAroundSpace(a[1..], c, b);
    } else {
      SplitFirstWord(a, c, b);
      SplitAroundSpace(a[WordLength(a)..], c, b);
    }
  }

  /** When `a` starts with a word, gluing `[c] + b` after it leaves that first word
      as it is. */
  lemma SplitFirstWord(a: string, c: char, b: string)
    requires IsSpace(c) && a != [] && !IsSpace(a[0])
    ensures var n := WordLength(a);
      && Split(a) == [a[..n]] + Split(a[n..])
      && Split(a + [c] + b) == [a[..n]] + Split(a[n..] + [c] + b)
  {
    var s, n := a + [c] + b, WordLength(a);
    assert s == a + ([c] + b);
    WordLengthStopsAtSpace(a, [c] + b);
    assert s[..n] == a[..n];
    assert s[n..] == a[n..] + [c] + b;
  }

  /** The words of `" ".join(parts)` are the words of the parts, in order. */
  lemma {:induction false} SplitJoin(parts: seq<string>)
    ensures Split(Join(" ", parts)) == WordsOf(parts)
  {
    if parts == [] {
    } else if |parts| == 1 {
      assert parts[1..] == [];
    } else {
      SplitJoin(parts[1..]);
      assert parts[0] + " " + Join(" ", parts[1..]) == parts[0] + [' '] + Join(" ", parts[1..]);
      SplitAroundSpace(parts[0], ' ', Join(" ", parts[1..]));
    }
  }

  /** Words are recovered exactly by splitting their space-joined form. */
  lemma {:induction false} SplitJoinWords(ws: seq<string>)
    requires AllWords(ws)
    ensures Split(Join(" ", ws)) == ws
  {
    SplitJoin(ws);
    WordsOfWords(ws);
  }

  lemma {:induction false} WordsOfWords(ws: seq<string>)
    requires AllWords(ws)
    ensures WordsOf(ws) == ws
  {
    if ws != [] {
      SplitWord(ws[0]);
      WordsOfWords(ws[1..]);
    }
  }

  // ---------------------------------------------------------------------------
  // Properties of Join

  /** Where the `i`-th part begins in `sep.join(parts)`. */
  function PartOffset(sep: string, parts: seq<string>, i: nat): nat
    requires i <= |parts|
  {
    if i == 0 then 0 else |parts[0]| + |sep| + PartOffset(sep, parts[1..], i - 1)
  }

  /** From the start of its `i`-th part on, `sep.join(parts)` is the join of the
      remaining parts. */
  lemma {:induction false} JoinFrom(sep: string, parts: seq<string>, i: nat)
    requires i < |parts|
    ensures PartOffset(sep, parts, i) <= |Join(sep, parts)|
    ensures Join(sep, parts)[PartOffset(sep, parts, i)..] == Join(sep, parts[i..])
  {
    if i == 0 {
      assert parts[0..] == parts;
    } else {
      var rest := Join(sep, parts[1..]);
      var k := |parts[0]| + |sep|;
      var s := Join(sep, parts);
      assert s == parts[0] + sep + rest;
      assert s[k..] == rest;
      JoinFrom(sep, parts[1..], i - 1);
      assert parts[1..][i - 1..] == parts[i..];
    }
  }

  /** `sep.join(parts)` holds every part verbatim, in order, with `sep` between each
      part and the next, and nothing after the last one. */
  lemma JoinLayout(sep: string, parts: seq<string>, i: nat)
    requires i < |parts|
    ensures var s, o := Join(sep, parts), PartOffset(sep, parts, i);
      && o + |parts[i]| <= |s|
      && s[o..o + |parts[i]|] == parts[i]
      && (i + 1 < |parts| ==> o + |parts[i]| + |sep| <= |s| && s[o + |parts[i]|..o + |parts[i]| + |sep|] == sep)
      && (i + 1 == |parts| ==> o + |parts[i]| == |s|)
  {
    var s, o := Join(sep, parts), PartOffset(sep, parts, i);
    JoinFrom(sep, parts, i);
    var t := Join(sep, parts[i..]);
    assert s[o..] == t;
    if i + 1 < |parts| {
      assert parts[i..][1..] == parts[i + 1..];
      assert t == parts[i] + sep + Join(sep, parts[i + 1..]);
      assert t[..|parts[i]|] == parts[i];
      assert t[|parts[i]|..|parts[i]| + |sep|] == sep;
    } else {
      assert t == parts[i];
    }
  }

  // ---------------------------------------------------------------------------
  // Decimal rendering, as `f"{n}"` does for a non-negative integer

  predicate IsDigit(c: char) { '0' <= c <= '9' }

  function DigitValue(c: char): nat
    requires IsDigit(c)
  {
    c as int - '0' as int
  }

  function DigitChar(d: nat): (c: char)
    requires d < 10
    ensures IsDigit(c) && DigitValue(c) == d
  {
    ('0' as int + d) as char
  }

  /** Number of decimal digits at the start of `s`. */
  function DigitRun(s: string): (n: nat)
    ensures n <= |s|
  {
    if s != [] && IsDigit(s[0]) then 1 + DigitRun(s[1..]) else 0
  }

  /** The digits of `a` are read up to the first non-digit that follows them. */
  lemma {:induction false} DigitRunOf(a: string, rest: string)
    requires forall i :: 0 <= i < |a| ==> IsDigit(a[i])
    requires rest != [] && !IsDigit(rest[0])
    ensures DigitRun(a + rest) == |a|
  {
    if a == [] {
      assert a + rest == rest;
    } else {
      assert (a + rest)[1..] == a[1..] + rest;
      DigitRunOf(a[1..], rest);
    }
  }

  /** Decimal digits of `n`, most significant first, without leading zeros. */
  function Decimal(n: nat): (s: string)
    ensures |s| >= 1 && forall i :: 0 <= i < |s| ==> IsDigit(s[i])
    ensures s[0] == '0' ==> n == 0
  {
    if n < 10 then [DigitChar(n)] else Decimal(n / 10) + [DigitChar(n % 10)]
  }

  /** The value a string of decimal digits denotes. */
  function DecimalValue(s: string): nat
    requires forall i :: 0 <= i < |s| ==> IsDigit(s[i])
  {
    if s == [] then 0
    else 10 * DecimalValue(s[..|s| - 1]) + DigitValue(s[|s| - 1])
  }

  /** Reading the rendered digits back gives the number: rendering is injective. */
  lemma {:induction false} DecimalRoundTrip(n: nat)
    ensures DecimalValue(Decimal(n)) == n
  {
    var s := Decimal(n);
    if n >= 10 {
      DecimalRoundTrip(n / 10);
      assert s[..|s| - 1] == Decimal(n / 10);
    }
  }

  lemma DecimalInjective(m: nat, n: nat)
    requires Decimal(m) == Decimal(n)
    ensures m == n
  {
    DecimalRoundTrip(m);
    DecimalRoundTrip(n);
  }

  /** A common prefix cancels. */
  lemma PrefixCancel(p: string, x: string, y: string)
    requires p + x == p + y
    ensures x == y
  {
    assert x == (p + x)[|p|..];
    assert y == (p + y)[|p|..];
  }

  /** A number's digits followed by a text that starts with a non-digit determine
      both the number and the text. */
  lemma DecimalThenTextInjective(m: nat, n: nat, r1: string, r2: string)
    requires r1 != [] && !IsDigit(r1[0]) && r2 != [] && !IsDigit(r2[0])
    requires Decimal(m) + r1 == Decimal(n) + r2
    ensures m == n && r1 == r2
  {
    var a, b := Decimal(m), Decimal(n);
    DigitRunOf(a, r1);
    DigitRunOf(b, r2);
    assert a == (a + r1)[..|a|] && b == (b + r2)[..|b|];
    DecimalInjective(m, n);
    assert r1 == (a + r1)[|a|..] && r2 == (b + r2)[|b|..];
  }

  /** Prefixing a fixed text keeps rendering injective. */
  lemma PrefixedDecimalInjective(prefix: string, m: nat, n: nat)
    requires prefix + Decimal(m) == prefix + Decimal(n)
    ensures m == n
  {
    assert Decimal(m) == (prefix + Decimal(m))[|prefix|..];
    assert Decimal(n) == (prefix + Decimal(n))[|prefix|..];
    DecimalInjective(m, n);
  }
}

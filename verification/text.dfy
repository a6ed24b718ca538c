/**
 * The PHP string built-ins the core relies on, over strings in which every
 * character stands for one byte: trim, strtolower, str_replace of one
 * character, str_contains / strpos, stripos, explode, implode, integer to
 * decimal text, and the `/(\d{3})/` match of the status line.
 */
module Text {
  import opened Wrappers

  // ---------------------------------------------------------------- trim()

  /** The characters trim() strips by default: space, tab, LF, CR, NUL, vertical tab. */
  predicate Blank(c: char) {
    c == ' ' || c == '\t' || c == '\n' || c == '\r' || c == '\0' || c == '\U{B}'
  }

  /** A string that trim() leaves as it is. */
  predicate Trimmed(s: string) {
    s == [] || (!Blank(s[0]) && !Blank(s[|s| - 1]))
  }

  /** ltrim(): the suffix left once the leading blanks are gone. */
  function TrimLeft(s: string): (r: string)
    ensures |r| <= |s| && r == s[|s| - |r|..]
    ensures r == [] || !Blank(r[0])
    ensures forall i :: 0 <= i < |s| - |r| ==> Blank(s[i])
  {
    if s != [] && Blank(s[0]) then TrimLeft(s[1..]) else s
  }

  /** rtrim(): the prefix left once the trailing blanks are gone. */
  function TrimRight(s: string): (r: string)
    ensures |r| <= |s| && r == s[..|r|]
    ensures r == [] || !Blank(r[|r| - 1])
    ensures forall i :: |r| <= i < |s| ==> Blank(s[i])
  {
    if s != [] && Blank(s[|s| - 1]) then TrimRight(s[..|s| - 1]) else s
  }

  /** trim(): no blank is left at either end, and a trimmed string is a fixed point. */
  function Trim(s: string): (r: string)
    ensures Trimmed(r)
    ensures Trimmed(s) ==> r == s
  {
    var l := TrimLeft(s);
    var r := TrimRight(l);
    assert r != [] ==> r[0] == l[0];
    r
  }

  // ------------------------------------------------ strtolower(), str_replace()

  /** ASCII case folding, as strtolower() and stripos() do it. */
  function LowerChar(c: char): char {
    if 'A' <= c <= 'Z' then (c as int - 'A' as int + 'a' as int) as char else c
  }

  function Lower(s: string): string {
    seq(|s|, i requires 0 <= i < |s| => LowerChar(s[i]))
  }

  /** str_replace(from, to, s) for one-character needles. */
  function Replace(s: string, from: char, to: char): string {
    seq(|s|, i requires 0 <= i < |s| => if s[i] == from then to else s[i])
  }

  // ------------------------------------------------------------ searching

  /** `d` occurs in `s` starting at index `i`. */
  predicate At(s: string, i: nat, d: string) {
    i + |d| <= |s| && s[i..i + |d|] == d
  }

  function FindFrom(s: string, d: string, from: nat): (r: Option<nat>)
    ensures r.Some? ==> from <= r.value && At(s, r.value, d)
    ensures forall j: nat :: from <= j && (r.None? || j < r.value) ==> !At(s, j, d)
    decreases |s| - from
  {
    if from + |d| > |s| then None
    else if At(s, from, d) then Some(from)
    else FindFrom(s, d, from + 1)
  }

  /** strpos(s, d): the leftmost occurrence of `d` in `s`, if any. */
  function Find(s: string, d: string): (r: Option<nat>)
    ensures r.Some? ==> At(s, r.value, d) && forall j: nat :: j < r.value ==> !At(s, j, d)
    ensures r.None? ==> forall j: nat :: !At(s, j, d)
  {
    FindFrom(s, d, 0)
  }

  /** str_contains(s, d). */
  predicate Contains(s: string, d: string) {
    Find(s, d).Some?
  }

  /** stripos(s, d) !== false: containment up to ASCII case. */
  predicate ContainsFold(s: string, d: string) {
    Contains(Lower(s), Lower(d))
  }

  /** A string in which the first character of `d` never appears cannot contain `d`. */
  lemma NoFirstCharNoOccurrence(s: string, d: string)
    requires d != [] && d[0] !in s
    ensures Find(s, d).None?
  {
    forall j: nat ensures !At(s, j, d) {
      if j + |d| <= |s| {
        assert s[j..j + |d|][0] == s[j];
      }
    }
  }

  /** In `x + d + y` where `x` holds no first character of `d`, the leftmost `d` is the one after `x`. */
  lemma FindAfterClean(x: string, d: string, y: string)
    requires d != [] && d[0] !in x
    ensures Find(x + d + y, d) == Some(|x|)
  {
    var s := x + d + y;
    assert s[|x|..|x| + |d|] == d;
    assert At(s, |x|, d);
    forall j: nat | j < |x|
      ensures !At(s, j, d)
    {
      assert s[j] == x[j];
      if j + |d| <= |s| {
        assert s[j..j + |d|][0] == s[j];
      }
    }
  }

  // --------------------------------------------------- explode(), implode()

  /** explode(d, s) with no limit. */
  function Split(s: string, d: string): (r: seq<string>)
    requires d != []
    ensures |r| >= 1
    ensures forall k :: 0 <= k < |r| ==> !Contains(r[k], d)
    decreases |s|
  {
    match Find(s, d)
    case None => [s]
    case Some(i) =>
      var rest := Split(s[i + |d|..], d);
      PrefixHasNoOccurrence(s, d, i);
      [s[..i]] + rest
  }

  /** No occurrence of `d` lies wholly in front of the leftmost one. */
  lemma PrefixHasNoOccurrence(s: string, d: string, i: nat)
    requires d != [] && Find(s, d) == Some(i)
    ensures !Contains(s[..i], d)
  {
    var p := s[..i];
    forall j: nat ensures !At(p, j, d) {
      if j + |d| <= |p| {
        assert j < i;
        assert !At(s, j, d);
        assert p[j..j + |d|] == s[j..j + |d|];
      }
    }
  }

  /** explode(d, s, 2): the text before the leftmost `d` and everything after it. */
  function SplitOnce(s: string, d: string): (r: seq<string>)
    requires d != []
    ensures |r| == (if Contains(s, d) then 2 else 1)
    ensures |r| == 1 ==> r[0] == s
    ensures |r| == 2 ==> r[0] + d + r[1] == s && !Contains(r[0], d)
  {
    match Find(s, d)
    case None => [s]
    case Some(i) =>
      PrefixHasNoOccurrence(s, d, i);
      assert s[..i] + d + s[i + |d|..] == s by {
        assert s == s[..i] + s[i..i + |d|] + s[i + |d|..];
      }
      [s[..i], s[i + |d|..]]
  }

  /** implode(d, parts). */
  function Join(d: string, parts: seq<string>): string
  {
    if parts == [] then []
    else if |parts| == 1 then parts[0]
    else parts[0] + d + Join(d, parts[1..])
  }

  lemma JoinCons(d: string, a: string, more: seq<string>)
    requires |more| >= 1
    ensures Join(d, [a] + more) == a + d + Join(d, more)
  {
    assert ([a] + more)[1..] == more;
  }

  lemma JoinTwo(d: string, a: string, b: string, more: seq<string>)
    requires |more| >= 1
    ensures Join(d, [a, b] + more) == a + d + b + d + Join(d, more)
  {
    JoinCons(d, b, more);
    assert [a, b] + more == [a] + ([b] + more);
    JoinCons(d, a, [b] + more);
  }

  /** Joining the pieces of an explode() gives the original text back. */
  lemma {:induction false} JoinSplit(s: string, d: string)
    requires d != []
    ensures Join(d, Split(s, d)) == s
    decreases |s|
  {
    var f := Find(s, d);
    if f.Some? {
      var i := f.value;
      var rest := s[i + |d|..];
      var pieces := Split(rest, d);
      JoinSplit(rest, d);
      assert Split(s, d) == [s[..i]] + pieces;
      JoinCons(d, s[..i], pieces);
      assert s[i..i + |d|] == d;
      assert s == s[..i] + d + rest;
    }
  }

  /** Exploding `x + d + y`, where `x` holds no first character of `d`, gives `x` and then the pieces of `y`. */
  lemma SplitAfterClean(x: string, d: string, y: string)
    requires d != [] && d[0] !in x
    ensures Split(x + d + y, d) == [x] + Split(y, d)
  {
    var s := x + d + y;
    FindAfterClean(x, d, y);
    assert s[..|x|] == x;
    assert s[|x| + |d|..] == y;
  }

  /** Exploding a join of pieces free of the delimiter's first character gives the pieces back. */
  lemma {:induction false} SplitJoin(d: string, parts: seq<string>)
    requires d != [] && |parts| >= 1
    requires forall k :: 0 <= k < |parts| ==> d[0] !in parts[k]
    ensures Split(Join(d, parts), d) == parts
    decreases |parts|
  {
    if |parts| == 1 {
      NoFirstCharNoOccurrence(parts[0], d);
    } else {
      var tail := Join(d, parts[1..]);
      SplitAfterClean(parts[0], d, tail);
      SplitJoin(d, parts[1..]);
      assert parts == [parts[0]] + parts[1..];
    }
  }

  /** explode(";", s) yields one piece more than there are `;` in `s`. */
  lemma {:induction false} SplitCount(s: string, c: char)
    ensures |Split(s, [c])| == multiset(s)[c] + 1
    decreases |s|
  {
    match Find(s, [c])
    case None =>
      forall j | 0 <= j < |s| ensures s[j] != c {
        assert !At(s, j, [c]);
        assert s[j..j + 1] == [s[j]];
      }
      assert c !in multiset(s);
    case Some(i) =>
      var rest := s[i + 1..];
      SplitCount(rest, c);
      forall j | 0 <= j < i ensures s[j] != c {
        assert !At(s, j, [c]);
        assert s[j..j + 1] == [s[j]];
      }
      assert c !in multiset(s[..i]);
      assert s == s[..i] + [s[i]] + rest;
      assert s[i..i + 1] == [c];
      assert multiset(s) == multiset(s[..i]) + multiset([s[i]]) + multiset(rest);
      assert Split(s, [c]) == [s[..i]] + Split(rest, [c]);
  }

  // ------------------------------------------------------ CRLF-separated lines

  lemma JoinFirstChar(d: string, parts: seq<string>)
    requires |parts| >= 1 && parts[0] != []
    ensures Join(d, parts) != [] && Join(d, parts)[0] == parts[0][0]
  {
  }

  /** Lines that are non-empty and hold no CR, joined by CRLF, contain no blank line (CRLFCRLF). */
  lemma {:induction false} NoBlankLineInside(lines: seq<string>, tail: string)
    requires forall k :: 0 <= k < |lines| ==> lines[k] != [] && '\r' !in lines[k]
    ensures forall j: nat :: j < |Join("\r\n", lines)| ==> !At(Join("\r\n", lines) + tail, j, "\r\n\r\n")
    decreases |lines|
  {
    var head := Join("\r\n", lines);
    var s := head + tail;
    if |lines| == 1 {
      forall j: nat | j < |head| ensures !At(s, j, "\r\n\r\n") {
        assert s[j] == lines[0][j];
        if j + 4 <= |s| { assert s[j..j + 4][0] == s[j]; }
      }
    } else if |lines| >= 2 {
      var p := lines[0];
      var more := Join("\r\n", lines[1..]);
      NoBlankLineInside(lines[1..], tail);
      JoinFirstChar("\r\n", lines[1..]);
      assert head == p + "\r\n" + more;
      assert s == p + "\r\n" + (more + tail);
      forall j: nat | j < |head| ensures !At(s, j, "\r\n\r\n") {
        if j < |p| {
          assert s[j] == p[j];
          if j + 4 <= |s| { assert s[j..j + 4][0] == s[j]; }
        } else if j == |p| {
          assert s[j + 2] == more[0] == lines[1][0];
          if j + 4 <= |s| { assert s[j..j + 4][2] == s[j + 2]; }
        } else if j == |p| + 1 {
          assert s[j] == '\n';
          if j + 4 <= |s| { assert s[j..j + 4][0] == s[j]; }
        } else {
          var k: nat := j - |p| - 2;
          assert k < |more|;
          assert !At(more + tail, k, "\r\n\r\n");
          if j + 4 <= |s| { assert s[j..j + 4] == (more + tail)[k..k + 4]; }
        }
      }
    }
  }

  /** After such lines, the first blank line is the one that ends them. */
  lemma FirstBlankLineAfterLines(lines: seq<string>, rest: string)
    requires forall k :: 0 <= k < |lines| ==> lines[k] != [] && '\r' !in lines[k]
    ensures Find(Join("\r\n", lines) + "\r\n\r\n" + rest, "\r\n\r\n") == Some(|Join("\r\n", lines)|)
  {
    var head := Join("\r\n", lines);
    var s := head + "\r\n\r\n" + rest;
    NoBlankLineInside(lines, "\r\n\r\n" + rest);
    assert s == head + ("\r\n\r\n" + rest);
    assert s[|head|..|head| + 4] == "\r\n\r\n";
    assert At(s, |head|, "\r\n\r\n");
  }

  // ---------------------------------------------------------------- numbers

  predicate IsDigit(c: char) {
    '0' <= c <= '9'
  }

  function DigitChar(n: nat): (c: char)
    requires n < 10
    ensures IsDigit(c)
  {
    ('0' as int + n) as char
  }

  /** The decimal text of a natural number, as `(string)$n` and `%d` write it. */
  function Decimal(n: nat): (r: string)
    ensures |r| >= 1 && forall i :: 0 <= i < |r| ==> IsDigit(r[i])
    decreases n
  {
    if n < 10 then [DigitChar(n)] else Decimal(n / 10) + [DigitChar(n % 10)]
  }

  /** `(int)` of a string of digits (leading zeros allowed). */
  function DigitsValue(s: string): nat
    requires forall i :: 0 <= i < |s| ==> IsDigit(s[i])
  {
    if s == [] then 0
    else
      var last := s[|s| - 1];
      assert IsDigit(last);
      DigitsValue(s[..|s| - 1]) * 10 + (last as int - '0' as int)
  }

  /** Reading back the decimal text of `n` gives `n`. */
  lemma {:induction false} DecimalRoundTrip(n: nat)
    ensures DigitsValue(Decimal(n)) == n
    decreases n
  {
    if n >= 10 {
      DecimalRoundTrip(n / 10);
      var s := Decimal(n);
      assert s[..|s| - 1] == Decimal(n / 10);
    }
  }

  /** A three-digit number has three-digit decimal text. */
  lemma DecimalOfThreeDigits(n: nat)
    requires 100 <= n < 1000
    ensures |Decimal(n)| == 3
  {
    assert |Decimal(n / 10)| == 2 by {
      assert |Decimal(n / 100)| == 1;
    }
  }

  /** `(string)$i` / `%d` of any integer. */
  function IntText(i: int): string {
    if i < 0 then "-" + Decimal(-i) else Decimal(i)
  }

  // ------------------------------------------------- preg_match('/(\d{3})/')

  /** Three ASCII digits in a row start at index `i`. */
  predicate DigitRunAt(s: string, i: nat) {
    i + 3 <= |s| && IsDigit(s[i]) && IsDigit(s[i + 1]) && IsDigit(s[i + 2])
  }

  function DigitRunFrom(s: string, from: nat): (r: Option<nat>)
    ensures r.Some? ==> from <= r.value && DigitRunAt(s, r.value)
    ensures forall j: nat :: from <= j && (r.None? || j < r.value) ==> !DigitRunAt(s, j)
    decreases |s| - from
  {
    if from + 3 > |s| then None
    else if DigitRunAt(s, from) then Some(from)
    else DigitRunFrom(s, from + 1)
  }

  /** Where the leftmost match of `/(\d{3})/` starts. */
  function FirstDigitRun(s: string): (r: Option<nat>)
    ensures r.Some? ==> DigitRunAt(s, r.value) && forall j: nat :: j < r.value ==> !DigitRunAt(s, j)
    ensures r.None? ==> forall j: nat :: !DigitRunAt(s, j)
  {
    DigitRunFrom(s, 0)
  }
}

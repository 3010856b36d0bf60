/** The parts of java.lang.String, of regular-expression splitting and of
    Integer.parseInt that the task tracker relies on, stated over Dafny strings.
    Case mapping is ASCII only. */
module JavaText {
  import opened Wrappers

  // ------------------------------------------------------------------ characters

  /** The characters String.trim() removes: every code point up to U+0020. */
  predicate IsTrimmable(c: char) { c <= ' ' }

  /** The regular-expression class \s: space, tab, line feed, vertical tab, form feed, carriage return. */
  predicate IsSpace(c: char) {
    c == ' ' || c == '\t' || c == '\n' || c == '\U{000B}' || c == '\U{000C}' || c == '\r'
  }

  predicate IsDigit(c: char) { '0' <= c <= '9' }

  predicate AllDigits(s: string) { forall i :: 0 <= i < |s| ==> IsDigit(s[i]) }

  // ------------------------------------------------------------------ trim

  /** s.trim().isEmpty() */
  predicate IsBlank(s: string) { forall i :: 0 <= i < |s| ==> IsTrimmable(s[i]) }

  /** Neither end of s is a character that trim() would remove. */
  predicate IsTrimmed(s: string) { s == [] || (!IsTrimmable(s[0]) && !IsTrimmable(s[|s| - 1])) }

  /** The position of the first character at or after from that trim() keeps, or |s|. */
  function KeptFrom(s: string, from: nat): (r: nat)
    requires from <= |s|
    ensures from <= r <= |s|
    ensures r < |s| ==> !IsTrimmable(s[r])
    ensures forall j :: from <= j < r ==> IsTrimmable(s[j])
    decreases |s| - from
  {
    if from == |s| || !IsTrimmable(s[from]) then from else KeptFrom(s, from + 1)
  }

  /** One past the last character before position to that trim() keeps, or 0. */
  function KeptUntil(s: string, to: nat): (r: nat)
    requires to <= |s|
    ensures r <= to
    ensures 0 < r ==> !IsTrimmable(s[r - 1])
    ensures forall j :: r <= j < to ==> IsTrimmable(s[j])
  {
    if to == 0 || !IsTrimmable(s[to - 1]) then to else KeptUntil(s, to - 1)
  }

  /** String.trim(): s without its leading and trailing characters up to U+0020. */
  function Trim(s: string): (r: string)
    ensures IsTrimmed(r)
    ensures r == [] <==> IsBlank(s)
    ensures IsTrimmed(s) ==> r == s
  {
    var start := KeptFrom(s, 0);
    var end := KeptUntil(s, |s|);
    if end <= start then []
    else
      assert IsTrimmed(s) ==> start == 0 && end == |s|;
      s[start..end]
  }

  /** One space in front of a trimmed, non-empty text is trimmed away. */
  lemma TrimLeadingSpace(line: string)
    requires line != [] && !IsTrimmable(line[0]) && !IsTrimmable(line[|line| - 1])
    ensures Trim(" " + line) == line && !IsBlank(" " + line)
  {
    var input := " " + line;
    assert input[1..] == line;
    assert KeptFrom(input, 0) == 1 by { assert input[1] == line[0]; }
    assert KeptUntil(input, |input|) == |input| by { assert input[|input| - 1] == line[|line| - 1]; }
  }

  // ------------------------------------------------------------------ case

  function LowerChar(c: char): char {
    if 'A' <= c <= 'Z' then (c as int + 32) as char else c
  }

  function UpperChar(c: char): char {
    if 'a' <= c <= 'z' then (c as int - 32) as char else c
  }

  /** String.toLowerCase() on ASCII letters. */
  function Lower(s: string): (r: string)
    ensures |r| == |s|
    ensures forall i :: 0 <= i < |s| ==> r[i] == LowerChar(s[i])
  {
    seq(|s|, i requires 0 <= i < |s| => LowerChar(s[i]))
  }

  /** String.toUpperCase() on ASCII letters. */
  function Upper(s: string): (r: string)
    ensures |r| == |s|
    ensures forall i :: 0 <= i < |s| ==> r[i] == UpperChar(s[i])
  {
    seq(|s|, i requires 0 <= i < |s| => UpperChar(s[i]))
  }

  /** Lower-casing keeps every character trimmable or not. */
  lemma LowerCharTrimmable(c: char)
    ensures IsTrimmable(LowerChar(c)) <==> IsTrimmable(c)
  {
  }

  lemma {:induction false} LowerKeptFrom(s: string, from: nat)
    requires from <= |s|
    ensures KeptFrom(Lower(s), from) == KeptFrom(s, from)
    decreases |s| - from
  {
    if from < |s| {
      LowerCharTrimmable(s[from]);
      if IsTrimmable(s[from]) { LowerKeptFrom(s, from + 1); }
    }
  }

  lemma {:induction false} LowerKeptUntil(s: string, to: nat)
    requires to <= |s|
    ensures KeptUntil(Lower(s), to) == KeptUntil(s, to)
  {
    if to > 0 {
      LowerCharTrimmable(s[to - 1]);
      if IsTrimmable(s[to - 1]) { LowerKeptUntil(s, to - 1); }
    }
  }

  /** Lower-casing and trimming commute, and lower-casing keeps a string blank or not blank. */
  lemma LowerTrim(s: string)
    ensures Lower(Trim(s)) == Trim(Lower(s))
    ensures IsBlank(Lower(s)) <==> IsBlank(s)
  {
    LowerKeptFrom(s, 0);
    LowerKeptUntil(s, |s|);
    var start := KeptFrom(s, 0);
    var end := KeptUntil(s, |s|);
    if start < end {
      assert Lower(s[start..end]) == Lower(s)[start..end];
    }
    forall i | 0 <= i < |s| ensures IsTrimmable(Lower(s)[i]) <==> IsTrimmable(s[i]) {
      LowerCharTrimmable(s[i]);
    }
  }

  // ------------------------------------------------------------------ searching

  /** k occurs in s starting at position i. */
  predicate OccursAt(s: string, k: string, i: int) {
    0 <= i && i + |k| <= |s| && s[i..i + |k|] == k
  }

  /** s.indexOf(k, from): the first position at or after from where k occurs, or -1. */
  function IndexOfFrom(s: string, k: string, from: nat): (r: int)
    ensures r == -1 || (from <= r && OccursAt(s, k, r))
    ensures forall j :: from <= j && (r == -1 || j < r) ==> !OccursAt(s, k, j)
    decreases |s| - from
  {
    if OccursAt(s, k, from) then from
    else if from >= |s| then -1
    else IndexOfFrom(s, k, from + 1)
  }

  /** s.indexOf(k) */
  function IndexOf(s: string, k: string): int {
    IndexOfFrom(s, k, 0)
  }

  /** s.contains(k) */
  predicate Contains(s: string, k: string) {
    IndexOf(s, k) >= 0
  }

  /** The pattern kw\s+ matches at i: kw occurs at i and at least one \s follows it. */
  predicate KeywordAt(s: string, kw: string, i: int) {
    OccursAt(s, kw, i) && i + |kw| < |s| && IsSpace(s[i + |kw|])
  }

  /** The leftmost match of kw\s+ at or after from, or -1. */
  function KeywordFrom(s: string, kw: string, from: nat): (r: int)
    ensures r == -1 || (from <= r && KeywordAt(s, kw, r))
    ensures forall j :: from <= j && (r == -1 || j < r) ==> !KeywordAt(s, kw, j)
    decreases |s| - from
  {
    if KeywordAt(s, kw, from) then from
    else if from >= |s| then -1
    else KeywordFrom(s, kw, from + 1)
  }

  /** The first position at or after from that holds a \s character, or |s|. */
  function FirstSpace(s: string, from: nat): (r: nat)
    requires from <= |s|
    ensures from <= r <= |s|
    ensures r < |s| ==> IsSpace(s[r])
    ensures forall j :: from <= j < r ==> !IsSpace(s[j])
    decreases |s| - from
  {
    if from == |s| || IsSpace(s[from]) then from else FirstSpace(s, from + 1)
  }

  /** The first position at or after from that holds '|', or |s|. */
  function FirstPipe(s: string, from: nat): (r: nat)
    requires from <= |s|
    ensures from <= r <= |s|
    ensures r < |s| ==> s[r] == '|'
    ensures forall j :: from <= j < r ==> s[j] != '|'
    decreases |s| - from
  {
    if from == |s| || s[from] == '|' then from else FirstPipe(s, from + 1)
  }

  /** The end of the run of \s characters that starts at from: what a greedy \s* consumes. */
  function SkipSpaces(s: string, from: nat): (r: nat)
    requires from <= |s|
    ensures from <= r <= |s|
    ensures r < |s| ==> !IsSpace(s[r])
    ensures forall j :: from <= j < r ==> IsSpace(s[j])
    decreases |s| - from
  {
    if from == |s| || !IsSpace(s[from]) then from else SkipSpaces(s, from + 1)
  }

  /** The start of the run of \s characters that ends at position to. */
  function SpaceRunStart(s: string, to: nat): (r: nat)
    requires to <= |s|
    ensures r <= to
    ensures 0 < r ==> !IsSpace(s[r - 1])
    ensures forall j :: r <= j < to ==> IsSpace(s[j])
  {
    if to == 0 || !IsSpace(s[to - 1]) then to else SpaceRunStart(s, to - 1)
  }

  // ------------------------------------------------------------------ splitting

  /** s.split(kw + "\\s+", 2)[1] when the array has two elements: the text after
      the leftmost kw that is followed by whitespace, without that whitespace.
      None when no such kw occurs (the array then has one element). */
  function AfterKeyword(s: string, kw: string): (r: Option<string>)
    ensures r.None? <==> forall i :: !KeywordAt(s, kw, i)
    ensures r.Some? ==> |r.value| < |s|
    ensures r.Some? ==> r.value == [] || !IsSpace(r.value[0])
  {
    var i := KeywordFrom(s, kw, 0);
    if i < 0 then None else Some(s[SkipSpaces(s, i + |kw|)..])
  }

  /** s.split("\\s*" + delim + "\\s*", 2) for a delimiter whose first character is
      not whitespace: None when delim does not occur; otherwise the text before its
      first occurrence and the text after it, without the whitespace next to it. */
  function SplitAround(s: string, delim: string): (r: Option<(string, string)>)
    ensures r.None? <==> forall i :: !OccursAt(s, delim, i)
    ensures r.Some? ==> var (before, after) := r.value;
      && |before| + |delim| + |after| <= |s|
      && (before == [] || !IsSpace(before[|before| - 1]))
      && (after == [] || !IsSpace(after[0]))
  {
    var p := IndexOf(s, delim);
    if p < 0 then None
    else Some((s[..SpaceRunStart(s, p)], s[SkipSpaces(s, p + |delim|)..]))
  }

  /** The pieces of s between maximal runs of \s, as Java's split computes them
      before it drops trailing empty strings. */
  function SpaceSegments(s: string): (r: seq<string>)
    ensures |r| >= 1 && r[0] == s[..FirstSpace(s, 0)]
    decreases |s|
  {
    var p := FirstSpace(s, 0);
    if p == |s| then [s] else [s[..p]] + SpaceSegments(s[SkipSpaces(s, p)..])
  }

  /** The pieces of s between the matches of \s*\|\s*, before trailing empty strings are dropped. */
  function PipeSegments(s: string): (r: seq<string>)
    ensures |r| >= 1
    decreases |s|
  {
    var p := FirstPipe(s, 0);
    if p == |s| then [s] else [s[..SpaceRunStart(s, p)]] + PipeSegments(s[SkipSpaces(s, p + 1)..])
  }

  /** What split with limit 0 does to its pieces: trailing empty strings are removed. */
  function DropTrailingEmpty(parts: seq<string>): (r: seq<string>)
    ensures |r| <= |parts| && forall i :: 0 <= i < |r| ==> r[i] == parts[i]
    ensures r == [] || r[|r| - 1] != []
    ensures forall i :: |r| <= i < |parts| ==> parts[i] == []
  {
    if parts != [] && parts[|parts| - 1] == [] then DropTrailingEmpty(parts[..|parts| - 1]) else parts
  }

  /** s.split("\\s+"): a string without whitespace splits into itself; otherwise the
      pieces between whitespace runs, trailing empty pieces removed. */
  function SplitSpaces(s: string): (r: seq<string>)
    ensures s != [] && !IsSpace(s[0]) ==> |r| >= 1 && r[0] == s[..FirstSpace(s, 0)] && r[0] != []
  {
    if FirstSpace(s, 0) == |s| then [s] else DropTrailingEmpty(SpaceSegments(s))
  }

  /** s.split("\\s*\\|\\s*"): a string without '|' splits into itself; otherwise the
      pieces between the pipes with the whitespace around each pipe removed,
      trailing empty pieces removed. */
  function SplitPipes(s: string): seq<string>
  {
    if FirstPipe(s, 0) == |s| then [s] else DropTrailingEmpty(PipeSegments(s))
  }

  /** The parts, separated by sep. */
  function Join(parts: seq<string>, sep: string): string
  {
    if parts == [] then [] else if |parts| == 1 then parts[0] else parts[0] + sep + Join(parts[1..], sep)
  }

  /** A field that survives the pipe-separated format: non-empty, trimmed, free of '|'. */
  predicate IsField(s: string) {
    s != [] && IsTrimmed(s) && '|' !in s
  }

  lemma JoinStartsWithFirst(parts: seq<string>, sep: string)
    requires |parts| >= 1
    ensures |Join(parts, sep)| >= |parts[0]| && Join(parts, sep)[..|parts[0]|] == parts[0]
  {
  }

  /** A clean field is one piece. */
  lemma PipeSegmentsOfField(f: string)
    requires IsField(f)
    ensures PipeSegments(f) == [f]
  {
    forall j | 0 <= j < |f| ensures f[j] != '|' {
      assert f[j] in f;
    }
    assert FirstPipe(f, 0) == |f|;
  }

  /** A clean field, " | ", then text that does not open with whitespace: the field
      is the first piece and the text gives the rest. */
  lemma PipeSegmentsStep(f: string, rest: string)
    requires IsField(f) && rest != [] && !IsSpace(rest[0])
    ensures PipeSegments(f + " | " + rest) == [f] + PipeSegments(rest)
  {
    var s := f + " | " + rest;
    var n := |f|;
    assert s[n] == ' ' && s[n + 1] == '|' && s[n + 2] == ' ';
    var p := FirstPipe(s, 0);
    assert p == n + 1 by {
      forall j | 0 <= j < n ensures s[j] != '|' {
        assert s[j] == f[j] && f[j] in f;
      }
    }
    assert !IsSpace(s[n - 1]) by { assert s[n - 1] == f[n - 1]; }
    assert SpaceRunStart(s, p) == n;
    assert SkipSpaces(s, p + 1) == n + 3;
    assert s[..n] == f;
    assert s[n + 3..] == rest;
  }

  lemma {:induction false} PipeSegmentsOfJoin(fields: seq<string>)
    requires |fields| >= 1
    requires forall i :: 0 <= i < |fields| ==> IsField(fields[i])
    ensures PipeSegments(Join(fields, " | ")) == fields
  {
    if |fields| == 1 {
      PipeSegmentsOfField(fields[0]);
    } else {
      var rest := Join(fields[1..], " | ");
      assert Join(fields, " | ") == fields[0] + " | " + rest;
      JoinStartsWithFirst(fields[1..], " | ");
      assert rest[0] == fields[1][0];
      PipeSegmentsStep(fields[0], rest);
      PipeSegmentsOfJoin(fields[1..]);
      assert [fields[0]] + fields[1..] == fields;
    }
  }

  /** Splitting a line of clean fields joined by " | " gives the fields back. */
  lemma SplitPipesOfJoin(fields: seq<string>)
    requires |fields| >= 1
    requires forall i :: 0 <= i < |fields| ==> IsField(fields[i])
    ensures SplitPipes(Join(fields, " | ")) == fields
  {
    var s := Join(fields, " | ");
    PipeSegmentsOfJoin(fields);
    if |fields| == 1 {
      forall j | 0 <= j < |s| ensures s[j] != '|' {
        assert s[j] in fields[0];
      }
      assert FirstPipe(s, 0) == |s|;
    } else {
      var rest := Join(fields[1..], " | ");
      assert s == fields[0] + " | " + rest;
      assert s[|fields[0]| + 1] == '|';
      assert FirstPipe(s, 0) < |s|;
      assert fields[|fields| - 1] != [];
      assert DropTrailingEmpty(fields) == fields;
    }
  }

  /** No piece of a pipe split holds a '|'. */
  lemma {:induction false} PipeSegmentsHaveNoPipe(s: string)
    ensures forall i :: 0 <= i < |PipeSegments(s)| ==> '|' !in PipeSegments(s)[i]
    decreases |s|
  {
    var p := FirstPipe(s, 0);
    if p < |s| {
      var first := s[..SpaceRunStart(s, p)];
      forall j | 0 <= j < |first| ensures first[j] != '|' {
        assert first[j] == s[j];
      }
      PipeSegmentsHaveNoPipe(s[SkipSpaces(s, p + 1)..]);
    }
  }

  /** No field of s.split("\\s*\\|\\s*") holds a '|'. */
  lemma SplitPipesHaveNoPipe(s: string)
    ensures forall i :: 0 <= i < |SplitPipes(s)| ==> '|' !in SplitPipes(s)[i]
  {
    PipeSegmentsHaveNoPipe(s);
  }

  /** Trimming removes characters and adds none. */
  lemma TrimKeepsOut(s: string, c: char)
    requires c !in s
    ensures c !in Trim(s)
  {
    var r := Trim(s);
    forall j | 0 <= j < |r| ensures r[j] != c {
      assert r[j] in s;
    }
  }

  /** s holds no \s character. */
  predicate NoSpace(s: string) { forall i :: 0 <= i < |s| ==> !IsSpace(s[i]) }

  /** In a + " " + k + rest, the first occurrence of k is right after the space when
      k does not occur inside a and k holds no space. */
  lemma FirstOccurrenceAfterSpace(a: string, k: string, rest: string)
    requires forall i :: !OccursAt(a, k, i)
    requires forall i :: 0 <= i < |k| ==> k[i] != ' '
    ensures IndexOf(a + " " + k + rest, k) == |a| + 1
  {
    var s := a + " " + k + rest;
    assert s[|a| + 1..|a| + 1 + |k|] == k;
    assert OccursAt(s, k, |a| + 1);
    forall j | 0 <= j <= |a| ensures !OccursAt(s, k, j) {
      if j + |k| <= |a| {
        assert s[j..j + |k|] == a[j..j + |k|];
        assert !OccursAt(a, k, j);
      } else if j + |k| <= |s| {
        assert s[j..j + |k|][|a| - j] == ' ';
        assert k[|a| - j] != ' ';
      }
    }
  }

  /** Splitting a + " " + k + " " + b around its first k gives a and b, when k
      occurs only there, k holds no space, and a and b carry no outer whitespace
      on the sides that face k. */
  lemma SplitAroundSpaced(a: string, k: string, b: string)
    requires a != [] && !IsSpace(a[|a| - 1])
    requires b != [] && !IsSpace(b[0])
    requires forall i :: !OccursAt(a, k, i)
    requires forall i :: 0 <= i < |k| ==> k[i] != ' '
    ensures SplitAround(a + (" " + k + " ") + b, k) == Some((a, b))
  {
    var s := a + " " + k + " " + b;
    assert a + (" " + k + " ") + b == s;
    FirstOccurrenceAfterSpace(a, k, " " + b);
    assert s == a + " " + k + (" " + b);
    var p := |a| + 1;
    assert s[p - 1] == ' ' && s[p - 2] == a[|a| - 1];
    assert SpaceRunStart(s, p) == |a|;
    assert s[p + |k|] == ' ' && s[p + |k| + 1] == b[0];
    assert SkipSpaces(s, p + |k|) == p + |k| + 1;
    assert s[..|a|] == a;
    assert s[p + |k| + 1..] == b;
  }

  /** A string that opens with kw and a space has kw as its first whitespace
      token, and the text after kw and the whitespace is the rest. */
  lemma KeywordAtStart(kw: string, b: string)
    requires kw != [] && NoSpace(kw)
    requires b == [] || !IsSpace(b[0])
    ensures FirstSpace(kw + " " + b, 0) == |kw|
    ensures AfterKeyword(kw + " " + b, kw) == Some(b)
  {
    var s := kw + " " + b;
    assert s[..|kw|] == kw;
    assert KeywordAt(s, kw, 0);
    assert SkipSpaces(s, |kw|) == |kw| + 1 by {
      assert s[|kw|] == ' ';
      if b != [] { assert s[|kw| + 1] == b[0]; }
    }
    assert s[|kw| + 1..] == b;
  }

  /** Two whitespace-free words joined by one space split into exactly those two words. */
  lemma SplitSpacesPair(a: string, b: string)
    requires a != [] && NoSpace(a) && b != [] && NoSpace(b)
    ensures SpaceSegments(a + " " + b) == [a, b]
    ensures SplitSpaces(a + " " + b) == [a, b]
  {
    var s := a + " " + b;
    KeywordAtStart(a, b);
    assert SkipSpaces(s, |a|) == |a| + 1 by {
      assert s[|a|] == ' ' && s[|a| + 1] == b[0];
    }
    assert s[|a| + 1..] == b;
    assert FirstSpace(b, 0) == |b|;
    assert s[..|a|] == a;
    assert SpaceSegments(s) == [a] + SpaceSegments(b);
  }

  /** Whitespace in front makes an empty first piece: " " + a + " " + b splits
      into "", a and b. */
  lemma SplitSpacesLeadingSpace(a: string, b: string)
    requires a != [] && NoSpace(a) && b != [] && NoSpace(b)
    ensures SplitSpaces(" " + (a + " " + b)) == ["", a, b]
  {
    var s := " " + (a + " " + b);
    assert FirstSpace(s, 0) == 0;
    assert SkipSpaces(s, 0) == 1 by { assert s[1] == a[0]; }
    assert s[1..] == a + " " + b;
    SplitSpacesPair(a, b);
    assert SpaceSegments(s) == [""] + [a, b];
  }

  // ------------------------------------------------------------------ numbers

  function DigitChar(d: nat): char
    requires d < 10
  {
    ('0' as int + d) as char
  }

  function DigitValue(c: char): nat
    requires IsDigit(c)
  {
    c as int - '0' as int
  }

  /** The value of a string of decimal digits; leading zeros are allowed. */
  function DigitsValue(s: string): nat
    requires AllDigits(s)
  {
    if s == [] then 0 else DigitsValue(s[..|s| - 1]) * 10 + DigitValue(s[|s| - 1])
  }

  function Pow10(n: nat): (r: nat)
    ensures r >= 1
  {
    if n == 0 then 1 else 10 * Pow10(n - 1)
  }

  /** n printed in exactly width decimal digits, zero-padded on the left; only the
      last width digits are kept when n is larger. */
  function Digits(n: nat, width: nat): (r: string)
    ensures |r| == width && AllDigits(r)
  {
    if width == 0 then [] else Digits(n / 10, width - 1) + [DigitChar(n % 10)]
  }

  /** Reading back a zero-padded number gives the number, when it fits the width. */
  lemma {:induction false} DigitsValueOfDigits(n: nat, width: nat)
    requires n < Pow10(width)
    ensures DigitsValue(Digits(n, width)) == n
  {
    if width > 0 {
      var r := Digits(n, width);
      var init := Digits(n / 10, width - 1);
      assert r == init + [DigitChar(n % 10)];
      assert r[..width - 1] == init;
      assert n / 10 < Pow10(width - 1);
      DigitsValueOfDigits(n / 10, width - 1);
      assert DigitsValue(r) == DigitsValue(init) * 10 + n % 10;
    }
  }

  /** Appending a digit d to a number v below p gives one below 10p, and the digit
      and v come back from division and remainder by ten. */
  lemma AppendDigit(v: nat, d: nat, p: nat)
    requires d < 10 && v < p
    ensures v * 10 + d < 10 * p
    ensures (v * 10 + d) / 10 == v && (v * 10 + d) % 10 == d
  {
  }

  /** Printing the value of a digit string in as many digits gives the string back. */
  lemma {:induction false} DigitsOfDigitsValue(s: string)
    requires AllDigits(s)
    ensures DigitsValue(s) < Pow10(|s|)
    ensures Digits(DigitsValue(s), |s|) == s
  {
    if s != [] {
      var init := s[..|s| - 1];
      var last := s[|s| - 1];
      DigitsOfDigitsValue(init);
      var v := DigitsValue(init);
      var d := DigitValue(last);
      AppendDigit(v, d, Pow10(|init|));
      assert DigitsValue(s) == v * 10 + d;
      assert DigitChar(d) == last;
      calc {
        Digits(v * 10 + d, |s|);
        Digits(v, |init|) + [DigitChar(d)];
        init + [last];
        { assert init + [last] == s; }
        s;
      }
    }
  }

  const IntMin: int := -0x8000_0000
  const IntMax: int := 0x7FFF_FFFF

  /** Integer.parseInt(s) over ASCII digits: an optional '+' or '-', then at least
      one digit, with a value inside the 32-bit range; None where Java throws
      NumberFormatException. */
  function ParseInt(s: string): (r: Option<int>)
    ensures r.Some? ==> IntMin <= r.value <= IntMax
    ensures r.Some? && r.value > 0 ==> s != [] && s[0] != '-'
    ensures s != [] && AllDigits(s) && DigitsValue(s) <= IntMax ==> r == Some(DigitsValue(s))
    ensures s == [] || (!AllDigits(s) && s[0] != '-' && s[0] != '+') ==> r.None?
  {
    var negative := s != [] && s[0] == '-';
    var digits := if s != [] && (s[0] == '-' || s[0] == '+') then s[1..] else s;
    if digits == [] || !AllDigits(digits) then None
    else
      var value: int := DigitsValue(digits);
      var n := if negative then -value else value;
      if IntMin <= n <= IntMax then Some(n) else None
  }
}

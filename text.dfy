/** String helpers shared by every scraper module: character classes, Python's
    `strip`, `startswith`, `in`, `lower`/`upper`, `split`, `splitlines`, `join`
    and decimal conversion, over `string` (a sequence of Unicode characters).

    Python's Unicode classes (`\d`, `\w`, `\s`, `str.isspace`, `str.isupper`) are
    read on ASCII and the Latin-1 space characters only. */
module Text {
  import opened Wrappers

  // ---------------------------------------------------------------------------
  // Character classes

  predicate IsDigit(c: char) { '0' <= c <= '9' }
  predicate IsUpper(c: char) { 'A' <= c <= 'Z' }
  predicate IsLower(c: char) { 'a' <= c <= 'z' }
  predicate IsAlnum(c: char) { IsDigit(c) || IsUpper(c) || IsLower(c) }

  /** Python's `\w` on ASCII. */
  predicate IsWordChar(c: char) { IsAlnum(c) || c == '_' }

  /** Python's `str.isspace` (and regex `\s`) below U+0100. */
  predicate IsSpace(c: char) {
    var n := c as int;
    n == 32 || 9 <= n <= 13 || 28 <= n <= 31 || n == 0x85 || n == 0xA0
  }

  /** The characters at which Python's `str.splitlines` breaks a line. */
  predicate IsLineBreak(c: char) {
    var n := c as int;
    10 <= n <= 13 || 28 <= n <= 30 || n == 0x85 || n == 0x2028 || n == 0x2029
  }

  function ToLower(c: char): char {
    if IsUpper(c) then (c as int + 32) as char else c
  }

  function ToUpper(c: char): char {
    if IsLower(c) then (c as int - 32) as char else c
  }

  /** `str.lower()` on ASCII letters. */
  function Lower(s: string): (r: string)
    ensures |r| == |s|
    ensures forall i :: 0 <= i < |s| ==> r[i] == ToLower(s[i])
  {
    seq(|s|, i requires 0 <= i < |s| => ToLower(s[i]))
  }

  /** `str.upper()` on ASCII letters. */
  function Upper(s: string): (r: string)
    ensures |r| == |s|
    ensures forall i :: 0 <= i < |s| ==> r[i] == ToUpper(s[i])
  {
    seq(|s|, i requires 0 <= i < |s| => ToUpper(s[i]))
  }

  predicate HasDigit(s: string) { exists i :: 0 <= i < |s| && IsDigit(s[i]) }
  predicate HasAlnum(s: string) { exists i :: 0 <= i < |s| && IsAlnum(s[i]) }

  /** `str.isupper()`: at least one cased character and no lower-case one. */
  predicate IsUpperText(s: string) {
    (exists i :: 0 <= i < |s| && IsUpper(s[i])) && forall i :: 0 <= i < |s| ==> !IsLower(s[i])
  }

  // ---------------------------------------------------------------------------
  // Prefixes and substrings

  predicate StartsWith(s: string, p: string) {
    |p| <= |s| && s[..|p|] == p
  }

  /** Python's `sub in s`. */
  predicate Contains(s: string, sub: string)
    decreases |s|
  {
    StartsWith(s, sub) || (|s| > 0 && Contains(s[1..], sub))
  }

  lemma {:induction false} ContainsAt(s: string, sub: string, i: nat)
    requires i + |sub| <= |s| && s[i..i + |sub|] == sub
    ensures Contains(s, sub)
    decreases i
  {
    if i > 0 {
      assert s[1..][i - 1..i - 1 + |sub|] == sub;
      ContainsAt(s[1..], sub, i - 1);
    }
  }

  lemma ContainsChar(s: string, c: char, i: nat)
    requires i < |s| && s[i] == c
    ensures Contains(s, [c])
  {
    assert s[i..i + 1] == [c];
    ContainsAt(s, [c], i);
  }

  lemma {:induction false} ContainsWitness(s: string, sub: string) returns (i: nat)
    requires Contains(s, sub)
    ensures i + |sub| <= |s| && s[i..i + |sub|] == sub
    decreases |s|
  {
    if StartsWith(s, sub) {
      i := 0;
    } else {
      var j := ContainsWitness(s[1..], sub);
      i := j + 1;
      assert s[i..i + |sub|] == s[1..][j..j + |sub|];
    }
  }

  // ---------------------------------------------------------------------------
  // strip

  /** The number of white-space characters `s` starts with. */
  function LeadingSpace(s: string): (k: nat)
    ensures k <= |s|
    ensures forall j :: 0 <= j < k ==> IsSpace(s[j])
    ensures k < |s| ==> !IsSpace(s[k])
    decreases |s|
  {
    if s != [] && IsSpace(s[0]) then 1 + LeadingSpace(s[1..]) else 0
  }

  /** The number of white-space characters `s` ends with. */
  function TrailingSpace(s: string): (k: nat)
    ensures k <= |s|
    ensures forall j :: |s| - k <= j < |s| ==> IsSpace(s[j])
    ensures k < |s| ==> !IsSpace(s[|s| - 1 - k])
    decreases |s|
  {
    if s != [] && IsSpace(s[|s| - 1]) then 1 + TrailingSpace(s[..|s| - 1]) else 0
  }

  /** `str.lstrip()`. */
  function LStrip(s: string): (r: string)
    ensures r == [] || !IsSpace(r[0])
  {
    s[LeadingSpace(s)..]
  }

  /** No white space at either end. */
  predicate IsStripped(s: string) {
    s == [] || (!IsSpace(s[0]) && !IsSpace(s[|s| - 1]))
  }

  /** Where `str.strip()` starts and ends its result. */
  function StripBounds(s: string): (b: (nat, nat))
    ensures b.0 <= b.1 <= |s|
    ensures IsStripped(s[b.0..b.1])
    ensures forall j :: 0 <= j < b.0 ==> IsSpace(s[j])
    ensures forall j :: b.1 <= j < |s| ==> IsSpace(s[j])
  {
    var a := LeadingSpace(s);
    var t := TrailingSpace(s[a..]);
    (a, |s| - t)
  }

  /** `str.strip()`. */
  function Strip(s: string): (r: string)
    ensures |r| <= |s|
    ensures IsStripped(r)
  {
    s[StripBounds(s).0..StripBounds(s).1]
  }

  /** Stripping a stripped string changes nothing. */
  lemma StripStripped(s: string)
    requires IsStripped(s)
    ensures Strip(s) == s
  {
  }

  lemma SliceOfSlice(s: string, x: nat, y: nat, a: nat, b: nat)
    requires x <= y <= |s| && a <= b <= y - x
    ensures s[x..y][a..b] == s[x + a..x + b]
  {
    assert forall k :: 0 <= k < b - a ==> s[x..y][a..b][k] == s[x + a..x + b][k];
  }

  /** Stripping a piece of `s` leaves a piece of `s`. */
  lemma StripOfSlice(s: string, x: nat, y: nat) returns (i: nat)
    requires x <= y <= |s|
    ensures i + |Strip(s[x..y])| <= |s| && s[i..i + |Strip(s[x..y])|] == Strip(s[x..y])
  {
    var piece := s[x..y];
    var b := StripBounds(piece);
    i := x + b.0;
    SliceOfSlice(s, x, y, b.0, b.1);
  }

  /** `str.strip(c)` for a single character `c`. */
  function StripChar(s: string, c: char): (r: string)
    ensures |r| <= |s|
    ensures r == [] || (r[0] != c && r[|r| - 1] != c)
    decreases |s|
  {
    if s == [] then []
    else if s[0] == c then StripChar(s[1..], c)
    else if s[|s| - 1] == c then StripChar(s[..|s| - 1], c)
    else s
  }

  /** `str.strip(c)` removes copies of `c` from the two ends and nothing else. */
  lemma {:induction false} StripCharIsSlice(s: string, c: char) returns (i: nat)
    ensures IsTrimmedSlice(s, StripChar(s, c), c, i)
    decreases |s|
  {
    if s == [] {
      i := 0;
    } else if s[0] == c {
      var k := StripCharIsSlice(s[1..], c);
      i := k + 1;
      TrimmedFront(s, StripChar(s, c), c, k);
    } else if s[|s| - 1] == c {
      i := StripCharIsSlice(s[..|s| - 1], c);
      TrimmedBack(s, StripChar(s, c), c, i);
    } else {
      i := 0;
    }
  }

  /** `r` sits at `i` in `s`, and only copies of `c` surround it. */
  predicate IsTrimmedSlice(s: string, r: string, c: char, i: nat) {
    && i + |r| <= |s| && s[i..i + |r|] == r
    && (forall j :: 0 <= j < i ==> s[j] == c)
    && (forall j :: i + |r| <= j < |s| ==> s[j] == c)
  }

  /** One more `c` in front shifts the slice by one. */
  lemma TrimmedFront(s: string, r: string, c: char, k: nat)
    requires s != [] && s[0] == c && IsTrimmedSlice(s[1..], r, c, k)
    ensures IsTrimmedSlice(s, r, c, k + 1)
  {
    var t := s[1..];
    assert s[k + 1..k + 1 + |r|] == t[k..k + |r|];
    assert forall j :: 0 < j < |s| ==> s[j] == t[j - 1];
  }

  /** One more `c` at the back keeps the slice where it is. */
  lemma TrimmedBack(s: string, r: string, c: char, i: nat)
    requires s != [] && s[|s| - 1] == c && IsTrimmedSlice(s[..|s| - 1], r, c, i)
    ensures IsTrimmedSlice(s, r, c, i)
  {
    var t := s[..|s| - 1];
    assert s[i..i + |r|] == t[i..i + |r|];
    assert forall j :: 0 <= j < |t| ==> s[j] == t[j];
  }

  // ---------------------------------------------------------------------------
  // split, splitlines, join

  /** The index of the first `c` in `s`, or `|s|` when there is none. */
  function IndexOfChar(s: string, c: char): (k: nat)
    ensures k <= |s|
    ensures k < |s| ==> s[k] == c
    ensures forall j :: 0 <= j < k ==> s[j] != c
    decreases |s|
  {
    if s == [] then 0 else if s[0] == c then 0 else 1 + IndexOfChar(s[1..], c)
  }

  /** Text-mode reading: `\r\n` and a lone `\r` become `\n`. */
  function TranslateNewlines(s: string): (r: string)
    ensures '\r' !in r
    decreases |s|
  {
    if s == [] then []
    else if s[0] == '\r' then
      if |s| >= 2 && s[1] == '\n' then "\n" + TranslateNewlines(s[2..]) else "\n" + TranslateNewlines(s[1..])
    else [s[0]] + TranslateNewlines(s[1..])
  }

  /** Text without a carriage return reads back unchanged. */
  lemma {:induction false} NoReturnUnchanged(s: string)
    requires '\r' !in s
    ensures TranslateNewlines(s) == s
    decreases |s|
  {
    if s != [] {
      assert s[0] in s;
      assert forall c :: c in s[1..] ==> c in s;
      NoReturnUnchanged(s[1..]);
    }
  }

  /** `s.split(sep)` for a one-character separator. */
  function SplitOn(s: string, sep: char): (parts: seq<string>)
    ensures |parts| >= 1
    decreases |s|
  {
    var k := IndexOfChar(s, sep);
    if k == |s| then [s] else [s[..k]] + SplitOn(s[k + 1..], sep)
  }

  /** `s.split(sep, maxsplit)`: at most `maxsplit` splits, the rest stays whole. */
  function SplitMax(s: string, sep: char, maxsplit: nat): (parts: seq<string>)
    ensures 1 <= |parts| <= maxsplit + 1
    decreases maxsplit
  {
    var k := IndexOfChar(s, sep);
    if maxsplit == 0 || k == |s| then [s] else [s[..k]] + SplitMax(s[k + 1..], sep, maxsplit - 1)
  }

  /** A piece without the separator, followed by the separator, is split off first. */
  lemma SplitMaxPeel(w: string, rest: string, sep: char, maxsplit: nat)
    requires maxsplit > 0 && sep !in w
    ensures SplitMax(w + [sep] + rest, sep, maxsplit) == [w] + SplitMax(rest, sep, maxsplit - 1)
  {
    var s := w + [sep] + rest;
    var k := IndexOfChar(s, sep);
    assert s[|w|] == sep;
    assert forall j :: 0 <= j < |w| ==> s[j] == w[j];
    assert k == |w|;
    assert s[..k] == w && s[k + 1..] == rest;
  }

  /** When a split happened, the first piece holds no separator and is followed by one. */
  lemma SplitMaxStep(s: string, sep: char, maxsplit: nat) returns (head: string, tail: string)
    requires |SplitMax(s, sep, maxsplit)| >= 2
    ensures maxsplit > 0 && sep !in head && s == head + [sep] + tail
    ensures SplitMax(s, sep, maxsplit) == [head] + SplitMax(tail, sep, maxsplit - 1)
  {
    var k := IndexOfChar(s, sep);
    head, tail := s[..k], s[k + 1..];
    assert forall j :: 0 <= j < k ==> head[j] == s[j];
    assert s == head + [s[k]] + tail;
  }

  /** Python's `<` on strings: code point by code point, a proper prefix first. */
  predicate StrLess(a: string, b: string)
    decreases |a|
  {
    b != [] && (a == [] || a[0] < b[0] || (a[0] == b[0] && StrLess(a[1..], b[1..])))
  }

  lemma {:induction false} StrLessIrreflexive(a: string)
    ensures !StrLess(a, a)
    decreases |a|
  {
    if a != [] {
      StrLessIrreflexive(a[1..]);
    }
  }

  lemma {:induction false} StrLessTransitive(a: string, b: string, c: string)
    requires StrLess(a, b) && StrLess(b, c)
    ensures StrLess(a, c)
    decreases |a|
  {
    if a != [] && a[0] == b[0] && b[0] == c[0] {
      StrLessTransitive(a[1..], b[1..], c[1..]);
    }
  }

  lemma {:induction false} StrLessTotal(a: string, b: string)
    requires a != b
    ensures StrLess(a, b) || StrLess(b, a)
    decreases |a|
  {
    if a != [] && b != [] && a[0] == b[0] {
      assert a == [a[0]] + a[1..] && b == [b[0]] + b[1..];
      StrLessTotal(a[1..], b[1..]);
    }
  }

  /** The length of the longest prefix of `s` without white space. */
  function WordLength(s: string): (k: nat)
    ensures k <= |s|
    ensures k < |s| ==> IsSpace(s[k])
    ensures forall j :: 0 <= j < k ==> !IsSpace(s[j])
    decreases |s|
  {
    if s == [] || IsSpace(s[0]) then 0 else 1 + WordLength(s[1..])
  }

  /** `s.split()`: the maximal runs of non-white-space characters, in order. */
  function Words(s: string): (ws: seq<string>)
    decreases |s|
  {
    var a := LeadingSpace(s);
    if a == |s| then [] else
      var k := WordLength(s[a..]);
      [s[a..a + k]] + Words(s[a + k..])
  }

  /** Every word is non-empty and holds no white space. */
  lemma {:induction false} WordsAreWords(s: string)
    ensures forall i :: 0 <= i < |Words(s)| ==> Words(s)[i] != []
    ensures forall i, j :: 0 <= i < |Words(s)| && 0 <= j < |Words(s)[i]| ==> !IsSpace(Words(s)[i][j])
    decreases |s|
  {
    if LeadingSpace(s) < |s| {
      var w, rest := WordsHead(s);
      WordsAreWords(rest);
      WordsCons(w, Words(rest));
    }
  }

  /** One unfolding of `Words` when `s` is not all white space. */
  lemma WordsUnfold(s: string, a: nat, k: nat)
    requires a == LeadingSpace(s) < |s| && k == WordLength(s[a..])
    ensures Words(s) == [s[a..a + k]] + Words(s[a + k..])
  {
  }

  /** When `s` is not all white space, its words are a first word and the
      words of what follows it. */
  lemma WordsHead(s: string) returns (w: string, rest: string)
    requires LeadingSpace(s) < |s|
    ensures Words(s) == [w] + Words(rest) && |rest| < |s|
    ensures w != [] && forall j :: 0 <= j < |w| ==> !IsSpace(w[j])
  {
    var a := LeadingSpace(s);
    var k := WordLength(s[a..]);
    WordsUnfold(s, a, k);
    w, rest := s[a..a + k], s[a + k..];
    assert k > 0 by { assert s[a..][0] == s[a]; }
    assert forall j :: 0 <= j < |w| ==> w[j] == s[a..][j];
  }

  /** A word in front of words keeps every entry a word. */
  lemma WordsCons(w: string, ws: seq<string>)
    requires w != [] && forall j :: 0 <= j < |w| ==> !IsSpace(w[j])
    requires forall i :: 0 <= i < |ws| ==> ws[i] != []
    requires forall i, j :: 0 <= i < |ws| && 0 <= j < |ws[i]| ==> !IsSpace(ws[i][j])
    ensures forall i :: 0 <= i < |[w] + ws| ==> ([w] + ws)[i] != []
    ensures forall i, j :: 0 <= i < |[w] + ws| && 0 <= j < |([w] + ws)[i]| ==> !IsSpace(([w] + ws)[i][j])
  {
    forall i | 0 <= i < |[w] + ws| ensures ([w] + ws)[i] == if i == 0 then w else ws[i - 1] {
    }
  }

  /** The length of the longest prefix of `s` without a line break. */
  function LineLength(s: string): (k: nat)
    ensures k <= |s|
    ensures k < |s| ==> IsLineBreak(s[k])
    ensures forall j :: 0 <= j < k ==> !IsLineBreak(s[j])
    decreases |s|
  {
    if s == [] || IsLineBreak(s[0]) then 0 else 1 + LineLength(s[1..])
  }

  /** The index where the line after the first break of `s` starts:
      "\r\n" is one break. */
  function NextLineStart(s: string): (j: nat)
    requires LineLength(s) < |s|
    ensures LineLength(s) < j <= |s|
  {
    var k := LineLength(s);
    if s[k] == '\r' && k + 1 < |s| && s[k + 1] == '\n' then k + 2 else k + 1
  }

  /** The start and end of each line of `s` from index `from` on, the line
      breaks left out. */
  function LineSpans(s: string, from: nat): (spans: seq<(nat, nat)>)
    requires from <= |s|
    ensures forall k :: 0 <= k < |spans| ==> from <= spans[k].0 <= spans[k].1 <= |s|
    decreases |s| - from
  {
    if from == |s| then []
    else
      var rest := s[from..];
      var k := LineLength(rest);
      if k == |rest| then [(from, |s|)]
      else [(from, from + k)] + LineSpans(s, from + NextLineStart(rest))
  }

  /** `s.splitlines()`: a final break opens no empty line. */
  function SplitLines(s: string): (lines: seq<string>)
    ensures |lines| == |LineSpans(s, 0)|
  {
    var spans := LineSpans(s, 0);
    seq(|spans|, k requires 0 <= k < |spans| => s[spans[k].0..spans[k].1])
  }

  /** Every line `splitlines` yields is a contiguous piece of the text. */
  lemma SplitLinesAreSlices(s: string, n: nat) returns (i: nat)
    requires n < |SplitLines(s)|
    ensures i + |SplitLines(s)[n]| <= |s| && s[i..i + |SplitLines(s)[n]|] == SplitLines(s)[n]
  {
    i := LineSpans(s, 0)[n].0;
  }

  /** `sep.join(parts)`. */
  function Join(parts: seq<string>, sep: string): string
    decreases |parts|
  {
    if |parts| == 0 then ""
    else if |parts| == 1 then parts[0]
    else parts[0] + sep + Join(parts[1..], sep)
  }

  /** Splitting at a separator that none of the parts holds undoes joining. */
  lemma {:induction false} SplitOnJoin(parts: seq<string>, sep: char)
    requires |parts| >= 1
    requires forall i :: 0 <= i < |parts| ==> sep !in parts[i]
    ensures SplitOn(Join(parts, [sep]), sep) == parts
    decreases |parts|
  {
    var p0 := parts[0];
    if |parts| == 1 {
      assert IndexOfChar(p0, sep) == |p0|;
    } else {
      var more := parts[1..];
      var rest := Join(more, [sep]);
      assert forall i :: 0 <= i < |more| ==> more[i] == parts[i + 1];
      SplitOnJoin(more, sep);
      assert parts == [p0] + more;
      JoinFront(p0, more, [sep]);
      SplitOnPeel(p0, rest, sep);
    }
  }

  /** A piece without the separator, followed by the separator, is split off first. */
  lemma SplitOnPeel(w: string, rest: string, sep: char)
    requires sep !in w
    ensures SplitOn(w + [sep] + rest, sep) == [w] + SplitOn(rest, sep)
  {
    var s := w + [sep] + rest;
    assert s[|w|] == sep;
    assert forall j :: 0 <= j < |w| ==> s[j] == w[j];
    assert IndexOfChar(s, sep) == |w|;
    assert s[..|w|] == w && s[|w| + 1..] == rest;
  }

  /** Splitting separator-free pieces joined by the separator, at most as often as they were joined, gives them back. */
  lemma {:induction false} SplitMaxJoin(parts: seq<string>, sep: char, maxsplit: nat)
    requires |parts| == maxsplit + 1
    requires forall i :: 0 <= i < maxsplit ==> sep !in parts[i]
    ensures SplitMax(Join(parts, [sep]), sep, maxsplit) == parts
    decreases maxsplit
  {
    var p0 := parts[0];
    if maxsplit == 0 {
      assert parts == [p0];
      assert Join(parts, [sep]) == p0;
      assert SplitMax(p0, sep, 0) == [p0];
    } else {
      var more := parts[1..];
      assert parts == [p0] + more;
      forall i | 0 <= i < maxsplit - 1 ensures sep !in more[i] {
        assert more[i] == parts[i + 1];
      }
      SplitMaxJoin(more, sep, maxsplit - 1);
      SplitMaxJoinStep(p0, more, sep, maxsplit);
    }
  }

  /** One more separator-free piece in front: the split peels it off first. */
  lemma SplitMaxJoinStep(p0: string, more: seq<string>, sep: char, maxsplit: nat)
    requires maxsplit > 0 && more != [] && sep !in p0
    requires SplitMax(Join(more, [sep]), sep, maxsplit - 1) == more
    ensures SplitMax(Join([p0] + more, [sep]), sep, maxsplit) == [p0] + more
  {
    var rest := Join(more, [sep]);
    JoinFront(p0, more, [sep]);
    SplitMaxPeel(p0, rest, sep, maxsplit);
  }

  /** Joining the pieces of a bounded split gives the text back; only the last piece may hold the separator. */
  lemma JoinSplitMax(s: string, sep: char, maxsplit: nat)
    ensures Join(SplitMax(s, sep, maxsplit), [sep]) == s
    ensures forall i :: 0 <= i < |SplitMax(s, sep, maxsplit)| - 1 ==> sep !in SplitMax(s, sep, maxsplit)[i]
  {
    JoinSplitMaxText(s, sep, maxsplit);
    SplitMaxPieces(s, sep, maxsplit);
  }

  lemma {:induction false} JoinSplitMaxText(s: string, sep: char, maxsplit: nat)
    ensures Join(SplitMax(s, sep, maxsplit), [sep]) == s
    decreases maxsplit
  {
    var k := IndexOfChar(s, sep);
    if maxsplit == 0 || k == |s| {
      assert SplitMax(s, sep, maxsplit) == [s];
    } else {
      var head, tail := s[..k], s[k + 1..];
      var more := SplitMax(tail, sep, maxsplit - 1);
      assert SplitMax(s, sep, maxsplit) == [head] + more;
      JoinSplitMaxText(tail, sep, maxsplit - 1);
      JoinFront(head, more, [sep]);
      assert s == head + [s[k]] + tail;
    }
  }

  lemma {:induction false} SplitMaxPieces(s: string, sep: char, maxsplit: nat)
    ensures forall i :: 0 <= i < |SplitMax(s, sep, maxsplit)| - 1 ==> sep !in SplitMax(s, sep, maxsplit)[i]
    decreases maxsplit
  {
    var parts := SplitMax(s, sep, maxsplit);
    if |parts| >= 2 {
      var head, tail := SplitMaxStep(s, sep, maxsplit);
      var more := SplitMax(tail, sep, maxsplit - 1);
      assert parts == [head] + more;
      SplitMaxPieces(tail, sep, maxsplit - 1);
      forall i | 0 <= i < |parts| - 1 ensures sep !in parts[i] {
        if i > 0 {
          assert parts[i] == more[i - 1];
        }
      }
    }
  }

  /** Joining a piece in front of more pieces puts the separator between. */
  lemma JoinFront(p: string, parts: seq<string>, sep: string)
    requires parts != []
    ensures Join([p] + parts, sep) == p + sep + Join(parts, sep)
  {
    assert ([p] + parts)[1..] == parts;
  }

  /** No piece of a split holds the separator. */
  lemma {:induction false} SplitOnPieces(s: string, sep: char)
    ensures forall i :: 0 <= i < |SplitOn(s, sep)| ==> sep !in SplitOn(s, sep)[i]
    decreases |s|
  {
    var k := IndexOfChar(s, sep);
    if k < |s| {
      SplitOnPieces(s[k + 1..], sep);
    }
  }

  /** Joining the pieces of a split gives the text back. */
  lemma {:induction false} JoinSplitOn(s: string, sep: char)
    ensures Join(SplitOn(s, sep), [sep]) == s
    decreases |s|
  {
    var k := IndexOfChar(s, sep);
    if k < |s| {
      var head, rest := s[..k], s[k + 1..];
      var tail := SplitOn(rest, sep);
      JoinSplitOn(rest, sep);
      assert SplitOn(s, sep) == [head] + tail;
      JoinFront(head, tail, [sep]);
      assert s == head + [sep] + rest;
    }
  }

  /** The values `parse` gives for these lines, in order, skipping the lines
      it rejects. */
  function Kept<T>(lines: seq<string>, parse: string -> Option<T>): seq<T>
    decreases |lines|
  {
    if lines == [] then []
    else
      var kept := Kept(lines[..|lines| - 1], parse);
      match parse(lines[|lines| - 1])
      case None => kept
      case Some(u) => kept + [u]
  }

  /** Reading two runs of lines one after the other. */
  lemma {:induction false} KeptAppend<T>(a: seq<string>, b: seq<string>, parse: string -> Option<T>)
    ensures Kept(a + b, parse) == Kept(a, parse) + Kept(b, parse)
    decreases |b|
  {
    if b == [] {
      assert a + b == a;
    } else {
      var b0 := b[..|b| - 1];
      assert (a + b)[..|a + b| - 1] == a + b0;
      assert (a + b)[|a + b| - 1] == b[|b| - 1];
      KeptAppend(a, b0, parse);
      var ka, kb := Kept(a, parse), Kept(b0, parse);
      match parse(b[|b| - 1])
      case None =>
      case Some(u) =>
        assert Kept(a + b, parse) == (ka + kb) + [u];
        assert (ka + kb) + [u] == ka + (kb + [u]);
    }
  }

  /** Every value kept has a property every parsed value has. */
  lemma {:induction false} KeptSatisfy<T>(lines: seq<string>, parse: string -> Option<T>, good: T -> bool)
    requires forall x :: parse(x).Some? ==> good(parse(x).value)
    ensures forall k :: 0 <= k < |Kept(lines, parse)| ==> good(Kept(lines, parse)[k])
    decreases |lines|
  {
    if lines != [] {
      KeptSatisfy(lines[..|lines| - 1], parse, good);
    }
  }

  /** One more line adds its value, if it has one. */
  lemma KeptNext<T>(lines: seq<string>, i: nat, parse: string -> Option<T>)
    requires i < |lines|
    ensures Kept(lines[..i + 1], parse)
         == if parse(lines[i]).Some? then Kept(lines[..i], parse) + [parse(lines[i]).value] else Kept(lines[..i], parse)
  {
    assert lines[..i + 1][..i] == lines[..i];
  }

  /** Lines that each parse give their values, one for one. */
  lemma {:induction false} KeptAll<T>(lines: seq<string>, us: seq<T>, parse: string -> Option<T>)
    requires |lines| == |us|
    requires forall i :: 0 <= i < |lines| ==> parse(lines[i]) == Some(us[i])
    ensures Kept(lines, parse) == us
    decreases |lines|
  {
    if lines != [] {
      KeptAll(lines[..|lines| - 1], us[..|us| - 1], parse);
      assert us == us[..|us| - 1] + [us[|us| - 1]];
    }
  }

  /** Python's `s[:b]`, where a negative `b` counts from the end. */
  function Prefix<T>(s: seq<T>, b: int): (r: seq<T>)
    ensures |r| <= |s| && r == s[..|r|]
    ensures b >= 0 ==> |r| == if b < |s| then b else |s|
    ensures b < 0 ==> |r| == if |s| + b > 0 then |s| + b else 0
  {
    if b >= 0 then (if b < |s| then s[..b] else s)
    else (if |s| + b > 0 then s[..|s| + b] else [])
  }

  // ---------------------------------------------------------------------------
  // Decimal numbers

  predicate AllDigits(s: string) { forall i :: 0 <= i < |s| ==> IsDigit(s[i]) }

  /** `int(s)` for a string of ASCII digits. */
  function DigitsValue(s: string): nat
    requires AllDigits(s)
    decreases |s|
  {
    if s == [] then 0 else DigitsValue(s[..|s| - 1]) * 10 + (s[|s| - 1] as int - '0' as int)
  }

  function DigitChar(d: nat): (c: char)
    requires d < 10
    ensures IsDigit(c) && c as int - '0' as int == d
  {
    ('0' as int + d) as char
  }

  /** `str(n)` for a natural number. */
  function NatToString(n: nat): (s: string)
    ensures s != [] && AllDigits(s)
    decreases n
  {
    if n < 10 then [DigitChar(n)] else NatToString(n / 10) + [DigitChar(n % 10)]
  }

  lemma {:induction false} NatToStringValue(n: nat)
    ensures DigitsValue(NatToString(n)) == n
    decreases n
  {
    var s := NatToString(n);
    if n >= 10 {
      assert s[..|s| - 1] == NatToString(n / 10);
      NatToStringValue(n / 10);
    }
  }

  /** The number of leading ASCII digits of `s`. */
  function DigitRun(s: string): (k: nat)
    ensures k <= |s| && AllDigits(s[..k])
    ensures k < |s| ==> !IsDigit(s[k])
    decreases |s|
  {
    if s != [] && IsDigit(s[0]) then
      var k := 1 + DigitRun(s[1..]);
      assert s[..k] == [s[0]] + s[1..][..k - 1];
      k
    else 0
  }

  lemma {:induction false} DigitRunOfDigits(d: string, rest: string)
    requires AllDigits(d)
    requires rest == [] || !IsDigit(rest[0])
    ensures DigitRun(d + rest) == |d|
    decreases |d|
  {
    if d != [] {
      assert (d + rest)[1..] == d[1..] + rest;
      DigitRunOfDigits(d[1..], rest);
    }
  }
}

/** Bytes, as the scraper's file checks and the relay's header splice see them:
    Python's `bytes` methods `startswith`, `partition`, `split`, `join`,
    `lower` and the `in` test, on sequences of byte values. */
module Bytes {

  newtype byte = x: int | 0 <= x < 256

  /** Python's `bytes.startswith`. */
  predicate BytesStartWith(s: seq<byte>, prefix: seq<byte>) {
    |prefix| <= |s| && s[..|prefix|] == prefix
  }

  /** `pat` occurs in `s` starting at `j`. */
  predicate OccursAt(s: seq<byte>, pat: seq<byte>, j: nat) {
    j + |pat| <= |s| && s[j..j + |pat|] == pat
  }

  /** Where `pat` first occurs in `s`, or `|s|` when it does not (`bytes.find`,
      with -1 read as `|s|`). */
  function Find(s: seq<byte>, pat: seq<byte>): (k: nat)
    requires pat != []
    ensures k <= |s|
    ensures k < |s| ==> OccursAt(s, pat, k)
    decreases |s|
  {
    if |s| < |pat| then |s|
    else if s[..|pat|] == pat then 0
    else
      var k := 1 + Find(s[1..], pat);
      assert k < |s| ==> s[1..][k - 1..k - 1 + |pat|] == s[k..k + |pat|];
      k
  }

  /** `Find` gives the first occurrence, and `|s|` only when there is none. */
  lemma {:induction false} FindIsFirst(s: seq<byte>, pat: seq<byte>)
    requires pat != []
    ensures forall j :: 0 <= j < Find(s, pat) ==> !OccursAt(s, pat, j)
    ensures Find(s, pat) == |s| ==> forall j :: 0 <= j <= |s| ==> !OccursAt(s, pat, j)
    decreases |s|
  {
    if |s| >= |pat| && s[..|pat|] != pat {
      FindIsFirst(s[1..], pat);
      forall j | 1 <= j <= |s| && OccursAt(s, pat, j) ensures OccursAt(s[1..], pat, j - 1) {
        assert s[1..][j - 1..j - 1 + |pat|] == s[j..j + |pat|];
      }
    }
  }

  /** An occurrence with none before it is the one `Find` gives. */
  lemma FindAt(s: seq<byte>, pat: seq<byte>, k: nat)
    requires pat != [] && OccursAt(s, pat, k)
    requires forall j :: 0 <= j < k ==> !OccursAt(s, pat, j)
    ensures Find(s, pat) == k
  {
    FindIsFirst(s, pat);
  }

  /** `pat in s`. */
  predicate ContainsBytes(s: seq<byte>, pat: seq<byte>)
    requires pat != []
  {
    Find(s, pat) < |s|
  }

  /** `s.partition(sep)`: what precedes the first `sep`, `sep` itself, and what
      follows it; `(s, b"", b"")` when `sep` does not occur. */
  function Partition(s: seq<byte>, sep: seq<byte>): (r: (seq<byte>, seq<byte>, seq<byte>))
    requires sep != []
    ensures r.0 + r.1 + r.2 == s
    ensures r.1 == [] || r.1 == sep
    ensures r.1 == [] <==> forall j :: 0 <= j <= |s| ==> !OccursAt(s, sep, j)
    ensures r.1 != [] ==> OccursAt(s, sep, |r.0|) && forall j :: 0 <= j < |r.0| ==> !OccursAt(s, sep, j)
  {
    var k := Find(s, sep);
    FindIsFirst(s, sep);
    if k == |s| then (s, [], [])
    else
      assert s[..k] + sep + s[k + |sep|..] == s by {
        assert s[k..k + |sep|] == sep;
        assert s == s[..k] + s[k..k + |sep|] + s[k + |sep|..];
      }
      (s[..k], sep, s[k + |sep|..])
  }

  /** `s.split(sep)` for a non-empty separator. */
  function SplitBytes(s: seq<byte>, sep: seq<byte>): (parts: seq<seq<byte>>)
    requires sep != []
    ensures |parts| >= 1
    decreases |s|
  {
    var k := Find(s, sep);
    if k == |s| then [s] else [s[..k]] + SplitBytes(s[k + |sep|..], sep)
  }

  /** `sep.join(parts)`. */
  function JoinBytes(parts: seq<seq<byte>>, sep: seq<byte>): seq<byte>
    decreases |parts|
  {
    if |parts| == 0 then []
    else if |parts| == 1 then parts[0]
    else parts[0] + sep + JoinBytes(parts[1..], sep)
  }

  /** Joining what `split` cut gives back the original bytes. */
  lemma {:induction false} JoinSplit(s: seq<byte>, sep: seq<byte>)
    requires sep != []
    ensures JoinBytes(SplitBytes(s, sep), sep) == s
    decreases |s|
  {
    var k := Find(s, sep);
    if k < |s| {
      var rest := s[k + |sep|..];
      var tail := SplitBytes(rest, sep);
      assert SplitBytes(s, sep) == [s[..k]] + tail;
      JoinSplit(rest, sep);
      JoinCons(s[..k], tail, sep);
      Reassemble(s, sep, k);
    } else {
      assert SplitBytes(s, sep) == [s];
    }
  }

  /** Cutting out an occurrence and putting it back gives the bytes again. */
  lemma Reassemble(s: seq<byte>, sep: seq<byte>, k: nat)
    requires OccursAt(s, sep, k)
    ensures s[..k] + sep + s[k + |sep|..] == s
  {
    assert s == s[..k] + s[k..k + |sep|] + s[k + |sep|..];
  }

  /** The first piece of a split is what precedes the first separator. */
  lemma FirstPiece(s: seq<byte>, sep: seq<byte>)
    requires sep != []
    ensures SplitBytes(s, sep)[0] == s[..Find(s, sep)]
  {
  }

  /** Joining with one more part in front adds that part and a separator. */
  lemma JoinCons(a: seq<byte>, parts: seq<seq<byte>>, sep: seq<byte>)
    requires parts != []
    ensures JoinBytes([a] + parts, sep) == a + sep + JoinBytes(parts, sep)
  {
    assert ([a] + parts)[1..] == parts;
  }

  /** `bytes.lower()`: ASCII capitals become small letters, every other byte
      stays. */
  function LowerByte(b: byte): byte {
    if 65 <= b <= 90 then b + 32 else b
  }

  function LowerBytes(s: seq<byte>): (r: seq<byte>)
    ensures |r| == |s| && forall i :: 0 <= i < |s| ==> r[i] == LowerByte(s[i])
  {
    seq(|s|, i requires 0 <= i < |s| => LowerByte(s[i]))
  }

  /** Every character is ASCII. */
  predicate IsAscii(s: string) {
    forall i :: 0 <= i < |s| ==> s[i] as int < 128
  }

  /** An ASCII text as the bytes of a Python `b"..."` literal. */
  function Ascii(s: string): (r: seq<byte>)
    requires IsAscii(s)
    ensures |r| == |s| && forall i :: 0 <= i < |s| ==> r[i] as int == s[i] as int
  {
    seq(|s|, i requires 0 <= i < |s| => s[i] as int as byte)
  }

  /** The UTF-8 bytes of one character: one byte below 0x80, two below
      0x800, three below 0x10000, four otherwise. */
  function Utf8Char(c: char): (r: seq<byte>)
    ensures 1 <= |r| <= 4
    ensures |r| == 1 <==> c as int < 128
  {
    var n := c as int;
    if n < 0x80 then [n as byte]
    else if n < 0x800 then [(0xC0 + n / 64) as byte, (0x80 + n % 64) as byte]
    else if n < 0x10000 then [(0xE0 + n / 4096) as byte, (0x80 + n / 64 % 64) as byte, (0x80 + n % 64) as byte]
    else [(0xF0 + n / 262144) as byte, (0x80 + n / 4096 % 64) as byte, (0x80 + n / 64 % 64) as byte, (0x80 + n % 64) as byte]
  }

  /** `s.encode("utf-8")`: each character's bytes in turn. */
  function Utf8(s: string): seq<byte>
    decreases |s|
  {
    if s == [] then [] else Utf8(s[..|s| - 1]) + Utf8Char(s[|s| - 1])
  }

  /** Encoding a concatenation concatenates the encodings. */
  lemma {:induction false} Utf8Append(s: string, t: string)
    ensures Utf8(s + t) == Utf8(s) + Utf8(t)
    decreases |t|
  {
    if t != [] {
      var u, c := t[..|t| - 1], t[|t| - 1];
      var st := s + t;
      calc {
        Utf8(st);
        { Utf8Snoc(st); assert st[..|st| - 1] == s + u && st[|st| - 1] == c; }
        Utf8(s + u) + Utf8Char(c);
        { Utf8Append(s, u); }
        Utf8(s) + Utf8(u) + Utf8Char(c);
        { Utf8Snoc(t); }
        Utf8(s) + Utf8(t);
      }
    } else {
      assert s + t == s;
    }
  }

  /** The bytes of a text are those of all but its last character, then
      those of the last. */
  lemma Utf8Snoc(s: string)
    requires s != []
    ensures Utf8(s) == Utf8(s[..|s| - 1]) + Utf8Char(s[|s| - 1])
  {
  }

  /** Each character gives one to four bytes. */
  lemma {:induction false} Utf8Length(s: string)
    ensures |s| <= |Utf8(s)| <= 4 * |s|
    decreases |s|
  {
    if s != [] {
      Utf8Length(s[..|s| - 1]);
    }
  }

  /** ASCII text encodes byte for byte. */
  lemma {:induction false} Utf8Ascii(s: string)
    requires IsAscii(s)
    ensures Utf8(s) == Ascii(s)
    decreases |s|
  {
    if s != [] {
      var u := s[..|s| - 1];
      Utf8Ascii(u);
      assert Ascii(s) == Ascii(u) + [s[|s| - 1] as int as byte];
    }
  }
}

// The search keywords: every three-character string over `0-9A-Z`, written
// one file per first character, each file in `itertools.product` order of
// the second and third characters.
module Keywords {
  import opened Text

  /** `string.digits + string.ascii_uppercase`. */
  const Chars: string := "0123456789ABCDEFGHIJKLMNOPQRSTUVWXYZ"

  /** The `i`-th character of the alphabet, by its code point. */
  function CharOf(i: nat): (c: char)
    requires i < 36
    ensures c as int == if i < 10 then '0' as int + i else 'A' as int + (i - 10)
    ensures IsDigit(c) || IsUpper(c)
  {
    if i < 10 then ('0' as int + i) as char else ('A' as int + (i - 10)) as char
  }

  /** The alphabet is the ten digits, then the 26 capitals. */
  lemma CharsAreCharOf(i: nat)
    requires i < 36
    ensures Chars[i] == CharOf(i)
    ensures IsDigit(Chars[i]) || IsUpper(Chars[i])
  {
  }

  /** The alphabet is in increasing code point order, so no character repeats. */
  lemma CharsIncreasing(i: nat, j: nat)
    requires i < j < 36
    ensures CharOf(i) < CharOf(j)
  {
  }

  /** The keyword `f"{first_char}{mid}{last}"` for the given positions in the alphabet. */
  function Keyword(f: nat, m: nat, l: nat): string
    requires f < 36 && m < 36 && l < 36
  {
    [CharOf(f), CharOf(m), CharOf(l)]
  }

  /** The keywords with middle character `m`, last character running through the alphabet. */
  function Row(f: nat, m: nat): (r: seq<string>)
    requires f < 36 && m < 36
    ensures |r| == 36
  {
    seq(36, l requires 0 <= l < 36 => Keyword(f, m, l))
  }

  /** The keywords of the first `m` rows, in `itertools.product` order. */
  function Rows(f: nat, m: nat): (r: seq<string>)
    requires f < 36 && m <= 36
    ensures |r| == 36 * m
  {
    if m == 0 then [] else Rows(f, m - 1) + Row(f, m - 1)
  }

  /** The keywords of one file: middle character outer, last character inner. */
  function Group(f: nat): (g: seq<string>)
    requires f < 36
    ensures |g| == 1296
  {
    Rows(f, 36)
  }

  /** Row `m`, column `l` of the product holds the keyword of those characters. */
  lemma {:induction false} RowsPosition(f: nat, n: nat, m: nat, l: nat)
    requires f < 36 && m < n <= 36 && l < 36
    ensures Rows(f, n)[36 * m + l] == Keyword(f, m, l)
    decreases n
  {
    if m < n - 1 {
      RowsPosition(f, n - 1, m, l);
    }
  }

  lemma ProductPosition(f: nat, m: nat, l: nat)
    requires f < 36 && m < 36 && l < 36
    ensures 36 * m + l < 1296 && Group(f)[36 * m + l] == Keyword(f, m, l)
  {
    RowsPosition(f, 36, m, l);
  }

  /** Every position of a file is some row and column of the product. */
  lemma PositionOf(i: nat) returns (m: nat, l: nat)
    requires i < 1296
    ensures m < 36 && l < 36 && i == 36 * m + l
  {
    m, l := i / 36, i % 36;
  }

  /** `main`: the three nested loops writing each file's lines and counting them. */
  method CreateKeywords() returns (files: seq<seq<string>>, total: nat)
    ensures |files| == 36
    ensures forall f :: 0 <= f < 36 ==> files[f] == Group(f)
    ensures total == 46656
  {
    files := [];
    total := 0;
    var f := 0;
    while f < |Chars|
      invariant f <= 36 && |files| == f
      invariant forall g :: 0 <= g < f ==> files[g] == Group(g)
      invariant total == 1296 * f
    {
      var lines := WriteGroup(f);
      files := files + [lines];
      total := total + |lines|;
      f := f + 1;
    }
  }

  /** The loop over `product(CHARS, repeat=2)` for one first character. */
  method WriteGroup(f: nat) returns (lines: seq<string>)
    requires f < 36
    ensures lines == Group(f)
  {
    lines := [];
    var m := 0;
    while m < |Chars|
      invariant m <= 36
      invariant lines == Rows(f, m)
    {
      var l := 0;
      while l < |Chars|
        invariant l <= 36
        invariant lines == Rows(f, m) + Row(f, m)[..l]
      {
        assert Row(f, m)[..l + 1] == Row(f, m)[..l] + [Keyword(f, m, l)];
        lines := lines + [[CharOf(f), CharOf(m), CharOf(l)]];
        l := l + 1;
      }
      assert Row(f, m)[..36] == Row(f, m);
      m := m + 1;
    }
  }

  /**
   * Every keyword of file `f` is three digits or capitals and starts with
   * the file's character `CharOf(f)`, which is `Chars[f]`.
   */
  lemma GroupShape(f: nat, i: nat)
    requires f < 36 && i < 1296
    ensures |Group(f)[i]| == 3 && Group(f)[i][0] == CharOf(f)
    ensures forall j :: 0 <= j < 3 ==> IsDigit(Group(f)[i][j]) || IsUpper(Group(f)[i][j])
  {
    var m, l := PositionOf(i);
    ProductPosition(f, m, l);
  }

  /** Every three-character keyword starting with the file's character is in that file. */
  lemma GroupComplete(f: nat, m: nat, l: nat)
    requires f < 36 && m < 36 && l < 36
    ensures Keyword(f, m, l) in Group(f)
  {
    ProductPosition(f, m, l);
  }

  /** Within a file the keywords are strictly increasing, as strings. */
  lemma GroupIncreasing(f: nat, i: nat, j: nat)
    requires f < 36 && i < j < 1296
    ensures StrLess(Group(f)[i], Group(f)[j])
  {
    var mi, li := PositionOf(i);
    var mj, lj := PositionOf(j);
    ProductPosition(f, mi, li);
    ProductPosition(f, mj, lj);
    assert mi < mj || (mi == mj && li < lj);
    KeywordsIncreasing(f, mi, li, mj, lj);
  }

  /** Keywords in product order compare as strings in the same order. */
  lemma KeywordsIncreasing(f: nat, mi: nat, li: nat, mj: nat, lj: nat)
    requires f < 36 && mi < 36 && li < 36 && mj < 36 && lj < 36
    requires mi < mj || (mi == mj && li < lj)
    ensures StrLess(Keyword(f, mi, li), Keyword(f, mj, lj))
  {
    var a, b := Keyword(f, mi, li), Keyword(f, mj, lj);
    assert a[1..] == [CharOf(mi), CharOf(li)] && b[1..] == [CharOf(mj), CharOf(lj)];
    assert a[1..][1..] == [CharOf(li)] && b[1..][1..] == [CharOf(lj)];
    if mi < mj {
      CharsIncreasing(mi, mj);
    } else {
      CharsIncreasing(li, lj);
    }
  }

  /** ...so no keyword is written twice in a file. */
  lemma GroupDistinct(f: nat, i: nat, j: nat)
    requires f < 36 && i < j < 1296
    ensures Group(f)[i] != Group(f)[j]
  {
    GroupIncreasing(f, i, j);
    StrLessIrreflexive(Group(f)[i]);
  }

  /** Files of different first characters share no keyword. */
  lemma GroupsDisjoint(f: nat, g: nat, i: nat, j: nat)
    requires f < g < 36 && i < 1296 && j < 1296
    ensures Group(f)[i] != Group(g)[j]
  {
    GroupShape(f, i);
    GroupShape(g, j);
    CharsIncreasing(f, g);
  }
}

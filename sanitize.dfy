/** `sanitize_for_filename`: a keyword made safe for a file name. Every
    maximal run of characters outside `[A-Za-z0-9]` becomes one `_`, `_` is
    stripped from both ends, and an empty result becomes "kw". */
module Sanitize {
  import opened Text

  /** The length of the leading run of characters outside `[A-Za-z0-9]`. */
  function OtherRun(s: string): (k: nat)
    ensures k <= |s|
    ensures k < |s| ==> IsAlnum(s[k])
    ensures forall j :: 0 <= j < k ==> !IsAlnum(s[j])
    decreases |s|
  {
    if s != [] && !IsAlnum(s[0]) then 1 + OtherRun(s[1..]) else 0
  }

  predicate FileChar(c: char) { IsAlnum(c) || c == '_' }

  predicate NoDoubleUnderscore(t: string) {
    forall i :: 0 <= i < |t| - 1 ==> !(t[i] == '_' && t[i + 1] == '_')
  }

  /** `re.sub(r"[^A-Za-z0-9]+", "_", s)`. */
  function Collapse(s: string): (r: string)
    ensures forall i :: 0 <= i < |r| ==> FileChar(r[i])
    ensures NoDoubleUnderscore(r)
    ensures s != [] && IsAlnum(s[0]) ==> r != [] && r[0] == s[0]
    ensures s != [] && !IsAlnum(s[0]) ==> r != [] && r[0] == '_'
    ensures s == [] <==> r == []
    decreases |s|
  {
    if s == [] then []
    else if IsAlnum(s[0]) then [s[0]] + Collapse(s[1..])
    else "_" + Collapse(s[OtherRun(s)..])
  }

  /** `sanitize_for_filename(s)`. */
  function SanitizeForFilename(s: string): string {
    var t := StripChar(Collapse(s), '_');
    if t == [] then "kw" else t
  }

  /** The letters and digits of `s`, in order. */
  function AlnumOf(s: string): string
    decreases |s|
  {
    if s == [] then [] else (if IsAlnum(s[0]) then [s[0]] else []) + AlnumOf(s[1..])
  }

  /** A name the sanitiser could have produced: non-empty, only `[A-Za-z0-9_]`,
      no `_` at either end and no `__`. */
  predicate SafeName(t: string) {
    && t != []
    && (forall i :: 0 <= i < |t| ==> FileChar(t[i]))
    && t[0] != '_' && t[|t| - 1] != '_'
    && NoDoubleUnderscore(t)
  }

  lemma {:induction false} AlnumOfAppend(a: string, b: string)
    ensures AlnumOf(a + b) == AlnumOf(a) + AlnumOf(b)
    decreases |a|
  {
    if a != [] {
      assert (a + b)[0] == a[0] && (a + b)[1..] == a[1..] + b;
      AlnumOfAppend(a[1..], b);
      var h := if IsAlnum(a[0]) then [a[0]] else [];
      assert AlnumOf(a + b) == h + (AlnumOf(a[1..]) + AlnumOf(b));
      assert h + (AlnumOf(a[1..]) + AlnumOf(b)) == (h + AlnumOf(a[1..])) + AlnumOf(b);
    } else {
      assert a + b == b;
    }
  }

  lemma {:induction false} AlnumOfNone(s: string)
    requires forall i :: 0 <= i < |s| ==> !IsAlnum(s[i])
    ensures AlnumOf(s) == []
    decreases |s|
  {
    if s != [] { AlnumOfNone(s[1..]); }
  }

  lemma {:induction false} AlnumOfEmpty(s: string)
    requires AlnumOf(s) == []
    ensures !HasAlnum(s)
    decreases |s|
  {
    if s != [] {
      AlnumOfEmpty(s[1..]);
      assert forall i :: 1 <= i < |s| ==> s[i] == s[1..][i - 1];
    }
  }

  /** Collapsing runs keeps every letter and digit, in order. */
  lemma {:induction false} CollapseKeepsAlnum(s: string)
    ensures AlnumOf(Collapse(s)) == AlnumOf(s)
    decreases |s|
  {
    if s != [] {
      if IsAlnum(s[0]) {
        CollapseKeepsAlnum(s[1..]);
        AlnumOfAppend([s[0]], Collapse(s[1..]));
      } else {
        var k := OtherRun(s);
        CollapseKeepsAlnum(s[k..]);
        AlnumOfAppend("_", Collapse(s[k..]));
        assert s == s[..k] + s[k..];
        AlnumOfAppend(s[..k], s[k..]);
        AlnumOfNone(s[..k]);
      }
    }
  }

  /** Stripping `_` from the ends keeps every letter and digit. */
  lemma StripKeepsAlnum(t: string)
    ensures AlnumOf(StripChar(t, '_')) == AlnumOf(t)
  {
    var r := StripChar(t, '_');
    var i := StripCharIsSlice(t, '_');
    UnderscoresAround(t, r, i);
  }

  /** Copies of `_` around a slice add no letter or digit. */
  lemma UnderscoresAround(t: string, r: string, i: nat)
    requires IsTrimmedSlice(t, r, '_', i)
    ensures AlnumOf(r) == AlnumOf(t)
  {
    var a, b := t[..i], t[i + |r|..];
    assert t == a + r + b by {
      assert t == t[..i] + t[i..i + |r|] + t[i + |r|..];
    }
    assert forall j :: 0 <= j < |b| ==> b[j] == t[i + |r| + j];
    AlnumOfNone(a);
    AlnumOfNone(b);
    AlnumOfAppend(a + r, b);
    AlnumOfAppend(a, r);
  }

  /** The result is always a safe file name. */
  lemma SanitizedIsSafe(s: string)
    ensures SafeName(SanitizeForFilename(s))
  {
    var c := Collapse(s);
    var t := StripChar(c, '_');
    if t != [] {
      var i := StripCharIsSlice(c, '_');
      assert IsTrimmedSlice(c, t, '_', i);
      assert c[i..i + |t|] == t;
      assert forall j :: 0 <= j < |t| ==> t[j] == c[i + j];
    }
  }

  /** A keyword with no letter or digit becomes "kw"; otherwise the result
      holds exactly the letters and digits of the keyword, in order. */
  lemma SanitizedLetters(s: string)
    ensures !HasAlnum(s) ==> SanitizeForFilename(s) == "kw"
    ensures HasAlnum(s) ==> AlnumOf(SanitizeForFilename(s)) == AlnumOf(s)
  {
    var c := Collapse(s);
    var t := StripChar(c, '_');
    CollapseKeepsAlnum(s);
    StripKeepsAlnum(c);
    if !HasAlnum(s) {
      AlnumOfNone(s);
      SanitizedIsSafe(s);
      assert t == [] by {
        if t != [] {
          AlnumHead(t);
        }
      }
    } else if t == [] {
      AlnumOfEmpty(s);
    }
  }

  lemma AlnumHead(t: string)
    requires t != [] && IsAlnum(t[0])
    ensures AlnumOf(t) != []
  {
  }

  /** A safe name collapses to itself. */
  lemma {:induction false} CollapseSafe(t: string)
    requires forall i :: 0 <= i < |t| ==> FileChar(t[i])
    requires NoDoubleUnderscore(t)
    ensures Collapse(t) == t
    decreases |t|
  {
    if t != [] {
      if !IsAlnum(t[0]) {
        assert OtherRun(t) == 1 by {
          if |t| > 1 { assert t[1] != '_'; }
        }
      }
      CollapseSafe(t[1..]);
    }
  }

  /** Sanitising a sanitised name changes nothing. */
  lemma SanitizeIdempotent(s: string)
    ensures SanitizeForFilename(SanitizeForFilename(s)) == SanitizeForFilename(s)
  {
    var t := SanitizeForFilename(s);
    SanitizedIsSafe(s);
    CollapseSafe(t);
  }
}

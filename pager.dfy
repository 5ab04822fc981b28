/** `parse_pager`: the results grid's pager text
    "Page X of Y, records A to B of C" read into five integers, with the
    "Page 0 of 0, records 0 to 0 of 0" placeholder rejected.

    The regular expression
    `Page\s+(\d+)\s+of\s+(\d+),\s*records\s+(\d+)\s+to\s+(\d+)\s+of\s+(\d+)`
    (case-insensitive) is read step by step. Every `\s+`, `\s*` and `(\d+)` in
    it is followed by a piece that cannot start with a character of its own
    class, so at a given start position the greedy reading below is the only
    way the expression can match, and the leftmost match of `re.search` is the
    first position where that reading succeeds. */
module Pager {
  import opened Wrappers
  import opened Text

  /** The five groups, in order: current page, page count, first record,
      last record, record count. */
  datatype PagerInfo = PagerInfo(page: nat, totalPages: nat, start: nat, end: nat, total: nat)

  // ---------------------------------------------------------------------------
  // The pieces of the expression; each returns the text after what it read

  /** The number of leading white-space characters of `s`. */
  function SpaceRun(s: string): (k: nat)
    ensures k <= |s|
    ensures k < |s| ==> !IsSpace(s[k])
    ensures forall j :: 0 <= j < k ==> IsSpace(s[j])
    decreases |s|
  {
    if s != [] && IsSpace(s[0]) then 1 + SpaceRun(s[1..]) else 0
  }

  /** A literal word, matched without regard to case. */
  function Word(s: string, w: string): (r: Option<string>)
    ensures r.Some? <==> |w| <= |s| && Lower(s[..|w|]) == Lower(w)
    ensures r.Some? ==> r.value == s[|w|..]
  {
    if |w| <= |s| && Lower(s[..|w|]) == Lower(w) then Some(s[|w|..]) else None
  }

  /** `\s+` (when `atLeastOne`) or `\s*`, greedy. */
  function Spaces(s: string, atLeastOne: bool): (r: Option<string>)
    ensures r.Some? <==> !atLeastOne || (s != [] && IsSpace(s[0]))
    ensures r.Some? ==> |r.value| <= |s| && r.value == s[|s| - |r.value|..]
    ensures r.Some? && r.value != [] ==> !IsSpace(r.value[0])
  {
    var k := SpaceRun(s);
    if atLeastOne && k == 0 then None else Some(s[k..])
  }

  /** `(\d+)`, greedy: the value of the digits and the text after them. */
  function Number(s: string): (r: Option<(nat, string)>)
    ensures r.Some? <==> s != [] && IsDigit(s[0])
    ensures r.Some? ==> r.value.1 == [] || !IsDigit(r.value.1[0])
  {
    var k := DigitRun(s);
    if k == 0 then None else Some((DigitsValue(s[..k]), s[k..]))
  }

  /** `\s+` when `spaced`, then the word `w`, `\s+` and `(\d+)`: one labelled
      number of the pager. */
  function Labelled(s: string, spaced: bool, w: string): Option<(nat, string)> {
    var s1 :- if spaced then Spaces(s, true) else Some(s);
    var s2 :- Word(s1, w);
    var s3 :- Spaces(s2, true);
    Number(s3)
  }

  /** The anchored match of the pager expression at the start of `s`. */
  function MatchAt(s: string): Option<PagerInfo> {
    var a :- Labelled(s, false, "Page");
    var b :- Labelled(a.1, true, "of");
    var s1 :- Word(b.1, ",");
    var s2 :- Spaces(s1, false);
    var r :- RecordsAt(s2);
    Some(PagerInfo(a.0, b.0, r.0, r.1, r.2))
  }

  /** The `records A to B of C` part of the expression. */
  function RecordsAt(s: string): Option<(nat, nat, nat)> {
    var c :- Labelled(s, false, "records");
    var d :- Labelled(c.1, true, "to");
    var e :- Labelled(d.1, true, "of");
    Some((c.0, d.0, e.0))
  }

  /** `re.search`: the groups of the leftmost position where the expression matches. */
  function Search(s: string): Option<PagerInfo> {
    FirstMatch(s, MatchAt)
  }

  /** The result of `m` at the leftmost position of `s` where it has one. */
  function FirstMatch<T>(s: string, m: string -> Option<T>): Option<T>
    decreases |s|
  {
    if m(s).Some? then m(s)
    else if s == [] then None
    else FirstMatch(s[1..], m)
  }

  /** `parse_pager(html)`: the first pager of the page, unless it has no pages
      or no records. */
  function ParsePager(html: string): (r: Option<PagerInfo>)
    ensures r.Some? ==> r.value.totalPages > 0 && r.value.total > 0
  {
    var g :- Search(html);
    if g.totalPages == 0 || g.total == 0 then None else Some(g)
  }

  /** `Search` reports the match at the leftmost position that has one, and
      finds nothing only when no position has one. */
  lemma SearchIsLeftmost(s: string) returns (p: nat)
    requires Search(s).Some?
    ensures p <= |s| && MatchAt(s[p..]) == Search(s)
    ensures forall q :: 0 <= q < p ==> MatchAt(s[q..]).None?
  {
    p := FirstMatchIsLeftmost(s, MatchAt);
  }

  lemma SearchFindsAny(s: string, q: nat)
    requires q <= |s| && MatchAt(s[q..]).Some?
    ensures Search(s).Some?
  {
    FirstMatchFindsAny(s, MatchAt, q);
  }

  lemma {:induction false} FirstMatchIsLeftmost<T>(s: string, m: string -> Option<T>) returns (p: nat)
    requires FirstMatch(s, m).Some?
    ensures p <= |s| && m(s[p..]) == FirstMatch(s, m)
    ensures forall q :: 0 <= q < p ==> m(s[q..]).None?
    decreases |s|
  {
    if m(s).Some? {
      p := 0;
      assert s[0..] == s;
    } else {
      var p' := FirstMatchIsLeftmost(s[1..], m);
      p := p' + 1;
      assert s[p..] == s[1..][p'..];
      forall q | 0 <= q < p ensures m(s[q..]).None? {
        if q > 0 { assert s[q..] == s[1..][q - 1..]; } else { assert s[0..] == s; }
      }
    }
  }

  lemma {:induction false} FirstMatchFindsAny<T>(s: string, m: string -> Option<T>, q: nat)
    requires q <= |s| && m(s[q..]).Some?
    ensures FirstMatch(s, m).Some?
    decreases q
  {
    if q > 0 && m(s).None? {
      assert s[1..][q - 1..] == s[q..];
      FirstMatchFindsAny(s[1..], m, q - 1);
    } else if q == 0 {
      assert s[0..] == s;
    }
  }

  // ---------------------------------------------------------------------------
  // The pager as the grid renders it, and reading it back

  /** One labelled number as the grid renders it, followed by `rest`. */
  function LabelledText(spaced: bool, w: string, n: nat, rest: string): string {
    (if spaced then " " else "") + (w + (" " + (NatToString(n) + rest)))
  }

  /** "Page X of Y, records A to B of C" followed by `rest`. */
  function PagerText(p: PagerInfo, rest: string): string {
    LabelledText(false, "Page", p.page,
      LabelledText(true, "of", p.totalPages,
        "," + (" " + LabelledText(false, "records", p.start,
          LabelledText(true, "to", p.end,
            LabelledText(true, "of", p.total, rest))))))
  }

  lemma WordThen(w: string, rest: string)
    ensures Word(w + rest, w) == Some(rest)
  {
    assert (w + rest)[..|w|] == w;
    assert (w + rest)[|w|..] == rest;
  }

  lemma SpaceThen(rest: string, atLeastOne: bool)
    requires rest == [] || !IsSpace(rest[0])
    ensures Spaces(" " + rest, atLeastOne) == Some(rest)
  {
    assert (" " + rest)[1..] == rest;
    assert SpaceRun(" " + rest) == 1;
  }

  lemma NumberThen(n: nat, rest: string)
    requires rest == [] || !IsDigit(rest[0])
    ensures Number(NatToString(n) + rest) == Some((n, rest))
  {
    var d := NatToString(n);
    DigitRunOfDigits(d, rest);
    assert (d + rest)[..|d|] == d;
    assert (d + rest)[|d|..] == rest;
    NatToStringValue(n);
  }

  lemma StartsWithDigit(n: nat, rest: string)
    ensures NatToString(n) + rest != [] && IsDigit((NatToString(n) + rest)[0])
  {
  }

  lemma LabelledThen(spaced: bool, w: string, n: nat, rest: string)
    requires w != [] && !IsSpace(w[0])
    requires rest == [] || !IsDigit(rest[0])
    ensures Labelled(LabelledText(spaced, w, n, rest), spaced, w) == Some((n, rest))
  {
    var t := w + (" " + (NatToString(n) + rest));
    if spaced {
      SpaceThen(t, true);
    } else {
      assert LabelledText(spaced, w, n, rest) == t;
    }
    WordThen(w, " " + (NatToString(n) + rest));
    StartsWithDigit(n, rest);
    SpaceThen(NatToString(n) + rest, true);
    NumberThen(n, rest);
  }

  /** The rendered pager is read back as exactly its five numbers. */
  lemma MatchRendered(p: PagerInfo, rest: string)
    requires rest == [] || !IsDigit(rest[0])
    ensures MatchAt(PagerText(p, rest)) == Some(p)
  {
    var t5 := LabelledText(true, "of", p.total, rest);
    var t4 := LabelledText(true, "to", p.end, t5);
    var t3 := LabelledText(false, "records", p.start, t4);
    var t2 := LabelledText(true, "of", p.totalPages, "," + (" " + t3));
    LabelledThen(false, "Page", p.page, t2);
    LabelledThen(true, "of", p.totalPages, "," + (" " + t3));
    WordThen(",", " " + t3);
    SpaceThen(t3, false);
    RecordsRendered(p, rest);
    MatchOfParts(PagerText(p, rest), t2, "," + (" " + t3), " " + t3, t3, p);
  }

  /** `MatchAt` reads its pieces one after the other. */
  lemma MatchOfParts(s: string, s1: string, s2: string, s3: string, s4: string, p: PagerInfo)
    requires Labelled(s, false, "Page") == Some((p.page, s1))
    requires Labelled(s1, true, "of") == Some((p.totalPages, s2))
    requires Word(s2, ",") == Some(s3) && Spaces(s3, false) == Some(s4)
    requires RecordsAt(s4) == Some((p.start, p.end, p.total))
    ensures MatchAt(s) == Some(p)
  {
  }

  /** The rendered `records A to B of C` is read back as its three numbers. */
  lemma RecordsRendered(p: PagerInfo, rest: string)
    requires rest == [] || !IsDigit(rest[0])
    ensures RecordsAt(LabelledText(false, "records", p.start,
              LabelledText(true, "to", p.end, LabelledText(true, "of", p.total, rest))))
         == Some((p.start, p.end, p.total))
  {
    var t5 := LabelledText(true, "of", p.total, rest);
    var t4 := LabelledText(true, "to", p.end, t5);
    var t3 := LabelledText(false, "records", p.start, t4);
    LabelledThen(false, "records", p.start, t4);
    LabelledThen(true, "to", p.end, t5);
    LabelledThen(true, "of", p.total, rest);
    RecordsOfParts(t3, t4, t5, rest, p.start, p.end, p.total);
  }

  /** `RecordsAt` reads its three labelled numbers one after the other. */
  lemma RecordsOfParts(s3: string, s4: string, s5: string, rest: string, a: nat, b: nat, c: nat)
    requires Labelled(s3, false, "records") == Some((a, s4))
    requires Labelled(s4, true, "to") == Some((b, s5))
    requires Labelled(s5, true, "of") == Some((c, rest))
    ensures RecordsAt(s3) == Some((a, b, c))
  {
  }

  /** The pager the grid shows is read back as exactly its five numbers when
      it has pages and records, and is rejected when either count is 0. */
  lemma PagerRoundTrip(p: PagerInfo, rest: string)
    requires rest == [] || !IsDigit(rest[0])
    ensures ParsePager(PagerText(p, rest))
         == if p.totalPages == 0 || p.total == 0 then None else Some(p)
  {
    MatchRendered(p, rest);
  }

  /** "Page 0 of 0, records 0 to 0 of 0" is the empty-grid placeholder, not a page. */
  lemma PlaceholderRejected(rest: string)
    requires rest == [] || !IsDigit(rest[0])
    ensures ParsePager(PagerText(PagerInfo(0, 0, 0, 0, 0), rest)) == None
  {
    PagerRoundTrip(PagerInfo(0, 0, 0, 0, 0), rest);
  }

  /** Only the first pager on the page is read: an empty one ahead of a real
      one hides it. */
  lemma FirstMatchOnly(p: PagerInfo, q: PagerInfo)
    requires p.totalPages == 0
    ensures ParsePager(PagerText(p, " " + PagerText(q, ""))) == None
  {
    PagerRoundTrip(p, " " + PagerText(q, ""));
  }

  /** A text with no pager expression anywhere in it yields nothing. */
  lemma NoPagerNoResult(html: string)
    requires forall q :: 0 <= q <= |html| ==> MatchAt(html[q..]).None?
    ensures ParsePager(html) == None
  {
    if Search(html).Some? {
      var p := SearchIsLeftmost(html);
    }
  }
}

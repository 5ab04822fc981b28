/** The heuristics that read a filing PDF's extracted text:
    `extract_phone_email_from_pdf_text` and `extract_executors_from_pdf_text`.
    Both work on the text's lines (`splitlines`, each line stripped). */
module PdfText {
  import opened Wrappers
  import opened Text
  import opened Flags

  /** `[ln.strip() for ln in text.splitlines()]`. */
  function StrippedLines(text: string): (lines: seq<string>)
    ensures |lines| == |SplitLines(text)|
    ensures forall i :: 0 <= i < |lines| ==> lines[i] == Strip(SplitLines(text)[i])
    ensures forall i :: 0 <= i < |lines| ==> IsStripped(lines[i])
  {
    seq(|SplitLines(text)|, i requires 0 <= i < |SplitLines(text)| => Strip(SplitLines(text)[i]))
  }

  /** Every stripped line is a contiguous piece of the text. */
  lemma LineIsSlice(text: string, n: nat) returns (i: nat)
    requires n < |StrippedLines(text)|
    ensures i + |StrippedLines(text)[n]| <= |text|
    ensures text[i..i + |StrippedLines(text)[n]|] == StrippedLines(text)[n]
  {
    var span := LineSpans(text, 0)[n];
    assert StrippedLines(text)[n] == Strip(text[span.0..span.1]);
    i := StripOfSlice(text, span.0, span.1);
  }

  // ---------------------------------------------------------------------------
  // The e-mail expression `[\w.\-+]+@[\w.\-]+`

  predicate LocalChar(c: char) { IsWordChar(c) || c == '.' || c == '-' || c == '+' }
  predicate DomainChar(c: char) { IsWordChar(c) || c == '.' || c == '-' }

  function LocalRun(s: string): (k: nat)
    ensures k <= |s|
    ensures forall j :: 0 <= j < k ==> LocalChar(s[j])
    ensures k < |s| ==> !LocalChar(s[k])
    decreases |s|
  {
    if s != [] && LocalChar(s[0]) then 1 + LocalRun(s[1..]) else 0
  }

  function DomainRun(s: string): (k: nat)
    ensures k <= |s|
    ensures forall j :: 0 <= j < k ==> DomainChar(s[j])
    ensures k < |s| ==> !DomainChar(s[k])
    decreases |s|
  {
    if s != [] && DomainChar(s[0]) then 1 + DomainRun(s[1..]) else 0
  }

  /** An address the expression can match: a non-empty local part, one `@`,
      a non-empty domain part. */
  predicate EmailShape(e: string) {
    exists k :: 0 < k < |e| - 1 && e[k] == '@'
      && (forall j :: 0 <= j < k ==> LocalChar(e[j]))
      && (forall j :: k < j < |e| ==> DomainChar(e[j]))
  }

  /** The anchored match at the start of `s`. The local run cannot contain
      `@`, so the greedy run is the only candidate. */
  function EmailAt(s: string): (r: Option<string>)
    ensures r.Some? ==> EmailShape(r.value)
    ensures r.Some? ==> |r.value| <= |s| && s[..|r.value|] == r.value
  {
    var k := LocalRun(s);
    if k == 0 || k == |s| || s[k] != '@' then None
    else
      var m := DomainRun(s[k + 1..]);
      if m == 0 then None
      else
        var e := s[..k + 1 + m];
        assert forall j :: k < j < |e| ==> e[j] == s[k + 1..][j - k - 1];
        Some(e)
  }

  /** An anchored match survives when more text follows the matched piece. */
  lemma EmailAtExtends(s: string, t: string)
    requires EmailAt(s).Some? && |s| <= |t| && forall j :: 0 <= j < |s| ==> t[j] == s[j]
    ensures EmailAt(t).Some?
  {
    var k := LocalRun(s);
    assert LocalRun(t) == k;
    assert t[k + 1..][0] == s[k + 1..][0];
  }

  /** `re.search(r"[\w.\-+]+@[\w.\-]+", s).group(0)`, or None. */
  function EmailSearch(s: string): (r: Option<string>)
    ensures r.Some? ==> EmailShape(r.value)
    decreases |s|
  {
    if EmailAt(s).Some? then EmailAt(s)
    else if s == [] then None
    else EmailSearch(s[1..])
  }

  /** A matched address holds exactly one `@`. */
  lemma OneAt(e: string)
    requires EmailShape(e)
    ensures multiset(e)['@'] == 1
  {
    var k :| 0 < k < |e| - 1 && e[k] == '@'
      && (forall j :: 0 <= j < k ==> LocalChar(e[j]))
      && (forall j :: k < j < |e| ==> DomainChar(e[j]));
    assert e == e[..k] + [e[k]] + e[k + 1..];
    assert '@' !in e[..k];
    assert '@' !in e[k + 1..];
    assert multiset(e) == multiset(e[..k]) + multiset{'@'} + multiset(e[k + 1..]);
  }

  /** The expression matches somewhere in `s`. */
  predicate HasEmail(s: string) {
    exists p :: 0 <= p <= |s| && EmailAt(s[p..]).Some?
  }

  /** The search finds a match exactly when there is one. */
  lemma {:induction false} EmailSearchFinds(s: string)
    ensures EmailSearch(s).Some? <==> HasEmail(s)
    decreases |s|
  {
    assert s[0..] == s;
    if EmailAt(s).None? && s != [] {
      EmailSearchFinds(s[1..]);
      if HasEmail(s) {
        var p :| 0 <= p <= |s| && EmailAt(s[p..]).Some?;
        assert s[1..][p - 1..] == s[p..];
      }
      if HasEmail(s[1..]) {
        var p :| 0 <= p <= |s[1..]| && EmailAt(s[1..][p..]).Some?;
        assert s[1..][p..] == s[p + 1..];
      }
    }
  }

  /** An anchored match has its `@` right after the local run. */
  lemma EmailAtAt(t: string)
    requires EmailAt(t).Some?
    ensures LocalRun(t) < |t| && t[LocalRun(t)] == '@'
  {
  }

  /** A text with a match holds an `@`. */
  lemma {:induction false} EmailHasAt(s: string)
    ensures EmailSearch(s).Some? ==> Contains(s, "@")
    decreases |s|
  {
    if EmailAt(s).Some? {
      EmailAtAt(s);
      ContainsChar(s, '@', LocalRun(s));
    } else if s != [] {
      EmailHasAt(s[1..]);
    }
  }

  /** A match inside a piece of a text is a match in the text. */
  lemma EmailInSlice(text: string, i: nat, piece: string)
    requires i + |piece| <= |text| && text[i..i + |piece|] == piece
    requires EmailSearch(piece).Some?
    ensures HasEmail(text)
  {
    EmailSearchFinds(piece);
    var p :| 0 <= p <= |piece| && EmailAt(piece[p..]).Some?;
    forall j | 0 <= j < |piece| - p
      ensures text[i + p..][j] == piece[p..][j]
    {
      assert piece[p + j] == text[i + p + j];
    }
    EmailAtExtends(piece[p..], text[i + p..]);
  }

  /** A match inside one stripped line is a match in the whole text. */
  lemma LineEmailInText(text: string, n: nat)
    requires n < |StrippedLines(text)| && EmailSearch(StrippedLines(text)[n]).Some?
    ensures HasEmail(text)
  {
    var i := LineIsSlice(text, n);
    EmailInSlice(text, i, StrippedLines(text)[n]);
  }

  // ---------------------------------------------------------------------------
  // Phone and e-mail

  /** `phone` read from the value after a "Phone:" label on line `i`. */
  predicate PhoneOnLabelLine(lines: seq<string>, phone: string) {
    exists i :: 0 <= i < |lines| && StartsWith(lines[i], "Phone:") && phone == Strip(lines[i][6..])
  }

  /** `phone` read from one of the three lines after a "Phone:" label. */
  predicate PhoneOnNextLine(lines: seq<string>, phone: string) {
    exists i, j :: 0 <= i < j < |lines| && j < i + 4 && StartsWith(lines[i], "Phone:")
      && phone == Strip(lines[j]) && !StartsWith(phone, "Email:") && HasDigit(phone)
  }

  /** The value after the "Phone:" label of line `i`, stripped. */
  function LabelValue(lines: seq<string>, i: nat): string
    requires i < |lines| && StartsWith(lines[i], "Phone:")
  {
    Strip(lines[i][6..])
  }

  /** A line that can stand for the phone below an empty label. */
  predicate PhoneCandidate(line: string) {
    line != [] && !StartsWith(line, "Email:") && HasDigit(line)
  }

  /** The phone the look-ahead below the label of line `i` finds from line
      `j` on: the first candidate among lines `j` up to `i + 3`. */
  function PhoneBelowFrom(lines: seq<string>, i: nat, j: nat): Option<string>
    decreases |lines| - j
  {
    if j >= |lines| || j >= i + 4 then None
    else if PhoneCandidate(Strip(lines[j])) then Some(Strip(lines[j]))
    else PhoneBelowFrom(lines, i, j + 1)
  }

  /** One line of the look-ahead: a candidate at `j` is taken, otherwise the
      search goes on from the next line. */
  lemma PhoneBelowFromStep(lines: seq<string>, i: nat, j: nat)
    requires j < |lines| && j < i + 4
    ensures PhoneCandidate(Strip(lines[j])) ==> PhoneBelowFrom(lines, i, j) == Some(Strip(lines[j]))
    ensures !PhoneCandidate(Strip(lines[j])) ==> PhoneBelowFrom(lines, i, j) == PhoneBelowFrom(lines, i, j + 1)
  {
  }

  /** The phone line `i` yields on its own: none without a "Phone:" label,
      the label's value when it has one, otherwise the look-ahead below it. */
  function PhoneOf(lines: seq<string>, i: nat): Option<string>
    requires i < |lines|
  {
    if !StartsWith(lines[i], "Phone:") then None
    else if LabelValue(lines, i) != [] then Some(LabelValue(lines, i))
    else PhoneBelowFrom(lines, i, i + 1)
  }

  /** The e-mail the look-ahead from the label of line `i` finds from line
      `j` on: the first match among lines `j` up to `i + 5`. */
  function EmailBelowFrom(lines: seq<string>, i: nat, j: nat): Option<string>
    decreases |lines| - j
  {
    if j >= |lines| || j >= i + 6 then None
    else if EmailSearch(lines[j]).Some? then EmailSearch(lines[j])
    else EmailBelowFrom(lines, i, j + 1)
  }

  /** The e-mail line `i` yields on its own: none without an "Email:" label,
      otherwise the first match in it or in the five lines after it. */
  function EmailOf(lines: seq<string>, i: nat): Option<string>
    requires i < |lines|
  {
    if StartsWith(lines[i], "Email:") then EmailBelowFrom(lines, i, i) else None
  }

  /** The phone each line yields on its own, line by line. */
  function PhoneYields(lines: seq<string>): (ys: seq<Option<string>>)
    ensures |ys| == |lines|
    ensures forall i :: 0 <= i < |lines| ==> ys[i] == PhoneOf(lines, i)
  {
    seq(|lines|, i requires 0 <= i < |lines| => PhoneOf(lines, i))
  }

  /** The e-mail each line yields on its own, line by line. */
  function EmailYields(lines: seq<string>): (ys: seq<Option<string>>)
    ensures |ys| == |lines|
    ensures forall i :: 0 <= i < |lines| ==> ys[i] == EmailOf(lines, i)
  {
    seq(|lines|, i requires 0 <= i < |lines| => EmailOf(lines, i))
  }

  /** What the scan over the first `n` lines holds when each line's value,
      when it has one, overwrites the one before. */
  function LastSome(ys: seq<Option<string>>, n: nat): Option<string>
    requires n <= |ys|
  {
    if n == 0 then None
    else if ys[n - 1].Some? then ys[n - 1]
    else LastSome(ys, n - 1)
  }

  /** The scan keeps the value of the LAST line that has one, and has none
      exactly when no line has one. */
  lemma {:induction false} LastSomeIsLast(ys: seq<Option<string>>, n: nat)
    requires n <= |ys|
    ensures LastSome(ys, n).None? <==> forall i :: 0 <= i < n ==> ys[i].None?
    ensures LastSome(ys, n).Some? ==>
      exists i :: 0 <= i < n && LastSome(ys, n) == ys[i] && forall l :: i < l < n ==> ys[l].None?
  {
    if n > 0 {
      LastSomeIsLast(ys, n - 1);
      if ys[n - 1].Some? {
        assert LastSome(ys, n) == ys[n - 1];
      } else if LastSome(ys, n - 1).Some? {
        var i :| 0 <= i < n - 1 && LastSome(ys, n - 1) == ys[i] && forall l :: i < l < n - 1 ==> ys[l].None?;
        assert forall l :: i < l < n ==> ys[l].None?;
      }
    }
  }

  /** The phone and e-mail `extract_phone_email_from_pdf_text` returns: the
      scan's results, the e-mail falling back to the first match in the text. */
  function Contact(text: string): (Option<string>, Option<string>) {
    var lines := StrippedLines(text);
    var email := LastSome(EmailYields(lines), |lines|);
    (LastSome(PhoneYields(lines), |lines|), if email.Some? then email else EmailSearch(text))
  }

  /** The look-ahead below an empty "Phone:" label finds a phone exactly when
      one of its lines is a candidate, and what it finds sits below the label. */
  lemma PhoneBelowFromFirst(lines: seq<string>, i: nat, j: nat)
    requires i < j && i < |lines| && StartsWith(lines[i], "Phone:")
    ensures PhoneBelowFrom(lines, i, j).None? <==>
      forall k :: j <= k < |lines| && k < i + 4 ==> !PhoneCandidate(Strip(lines[k]))
    ensures PhoneBelowFrom(lines, i, j).Some? ==>
      PhoneOnNextLine(lines, PhoneBelowFrom(lines, i, j).value) && PhoneBelowFrom(lines, i, j).value != []
  {
    PhoneBelowFromNone(lines, i, j);
    if PhoneBelowFrom(lines, i, j).Some? {
      var k := PhoneBelowFromFound(lines, i, j);
      var phone := Strip(lines[k]);
      assert PhoneOnNextLine(lines, phone) by {
        assert 0 <= i < k < |lines| && k < i + 4 && StartsWith(lines[i], "Phone:");
        assert phone == Strip(lines[k]) && !StartsWith(phone, "Email:") && HasDigit(phone);
      }
    }
  }

  /** The look-ahead finds nothing exactly when no line of its window is a
      candidate. */
  lemma PhoneBelowFromNone(lines: seq<string>, i: nat, j: nat)
    ensures PhoneBelowFrom(lines, i, j).None? <==>
      forall k :: j <= k < |lines| && k < i + 4 ==> !PhoneCandidate(Strip(lines[k]))
  {
    if PhoneBelowFrom(lines, i, j).Some? {
      var k := PhoneBelowFromFound(lines, i, j);
      assert PhoneCandidate(Strip(lines[k]));
    } else {
      PhoneBelowFromMisses(lines, i, j);
    }
  }

  /** When the look-ahead finds nothing, no line of its window is a candidate. */
  lemma {:induction false} PhoneBelowFromMisses(lines: seq<string>, i: nat, j: nat)
    requires PhoneBelowFrom(lines, i, j).None?
    ensures forall k :: j <= k < |lines| && k < i + 4 ==> !PhoneCandidate(Strip(lines[k]))
    decreases |lines| - j
  {
    if j < |lines| && j < i + 4 {
      PhoneBelowFromMisses(lines, i, j + 1);
    }
  }

  /** What the look-ahead finds is a candidate line of its window. */
  lemma {:induction false} PhoneBelowFromFound(lines: seq<string>, i: nat, j: nat) returns (k: nat)
    requires PhoneBelowFrom(lines, i, j).Some?
    ensures j <= k < |lines| && k < i + 4
    ensures PhoneBelowFrom(lines, i, j) == Some(Strip(lines[k])) && PhoneCandidate(Strip(lines[k]))
    decreases |lines| - j
  {
    if PhoneCandidate(Strip(lines[j])) {
      k := j;
    } else {
      k := PhoneBelowFromFound(lines, i, j + 1);
    }
  }

  /** The look-ahead from line `j` finds the match of the first line of the
      window that has one, and none when no line of it has one. */
  lemma {:induction false} EmailBelowFromFirst(lines: seq<string>, i: nat, j: nat)
    ensures EmailBelowFrom(lines, i, j).None? <==>
      forall k :: j <= k < |lines| && k < i + 6 ==> EmailSearch(lines[k]).None?
    ensures EmailBelowFrom(lines, i, j).Some? ==>
      exists k :: j <= k < |lines| && k < i + 6 && EmailBelowFrom(lines, i, j) == EmailSearch(lines[k])
                  && forall l :: j <= l < k ==> EmailSearch(lines[l]).None?
    decreases |lines| - j
  {
    if j < |lines| && j < i + 6 && EmailSearch(lines[j]).None? {
      EmailBelowFromFirst(lines, i, j + 1);
      if EmailBelowFrom(lines, i, j).Some? {
        var k :| j + 1 <= k < |lines| && k < i + 6 && EmailBelowFrom(lines, i, j + 1) == EmailSearch(lines[k])
                 && forall l :: j + 1 <= l < k ==> EmailSearch(lines[l]).None?;
        assert forall l :: j <= l < k ==> EmailSearch(lines[l]).None?;
      }
    }
  }

  /** The look-ahead below a "Phone:" label whose value is empty: the first of
      the next three lines that is non-empty, is not an "Email:" line and
      holds a digit. */
  method PhoneBelow(lines: seq<string>, i: nat) returns (phone: Option<string>)
    requires i < |lines| && StartsWith(lines[i], "Phone:")
    ensures phone == PhoneBelowFrom(lines, i, i + 1)
    ensures phone.Some? ==> PhoneOnNextLine(lines, phone.value) && phone.value != []
    ensures phone.None? <==>
      forall j :: i < j < |lines| && j < i + 4 ==> !PhoneCandidate(Strip(lines[j]))
  {
    phone := None;
    var j := i + 1;
    var end := if i + 4 < |lines| then i + 4 else |lines|;
    while j < end
      invariant i + 1 <= j && phone.None?
      invariant PhoneBelowFrom(lines, i, i + 1) == PhoneBelowFrom(lines, i, j)
    {
      // skip blank and "Email:" lines; take the first that holds a digit
      var candidate := Strip(lines[j]);
      PhoneBelowFromStep(lines, i, j);
      if PhoneCandidate(candidate) {
        phone := Some(candidate);
        break;
      }
      j := j + 1;
    }
    PhoneBelowFromFirst(lines, i, i + 1);
  }

  /** The look-ahead from an "Email:" label: the first match in it or in the
      next five lines, and (as a ghost) the line it came from. */
  method EmailBelow(lines: seq<string>, i: nat) returns (email: Option<string>, ghost at: nat)
    requires i < |lines|
    ensures email == EmailBelowFrom(lines, i, i)
    ensures email.Some? ==> i <= at < |lines| && at < i + 6 && email == EmailSearch(lines[at])
    ensures email.None? ==> forall j :: i <= j < |lines| && j < i + 6 ==> EmailSearch(lines[j]).None?
  {
    email, at := None, i;
    var j := i;
    var end := if i + 6 < |lines| then i + 6 else |lines|;
    while j < end
      invariant i <= j
      invariant forall l :: i <= l < j && l < end ==> EmailSearch(lines[l]).None?
      invariant EmailBelowFrom(lines, i, i) == EmailBelowFrom(lines, i, j)
    {
      var candidate := lines[j];
      EmailHasAt(candidate);
      if Contains(candidate, "@") {
        var m := EmailSearch(candidate);
        if m.Some? {
          email, at := m, j;
          return;
        }
      }
      j := j + 1;
    }
  }

  /** The phone line `i` yields: the value after its "Phone:" label, or when
      that is empty the look-ahead below it. */
  method PhoneOfLine(lines: seq<string>, i: nat) returns (phone: Option<string>)
    requires i < |lines|
    ensures phone == PhoneOf(lines, i)
    ensures !StartsWith(lines[i], "Phone:") ==> phone.None?
    ensures StartsWith(lines[i], "Phone:") && LabelValue(lines, i) != [] ==> phone == Some(LabelValue(lines, i))
    ensures phone.Some? ==> phone.value != []
    ensures phone.Some? ==> PhoneOnLabelLine(lines, phone.value) || PhoneOnNextLine(lines, phone.value)
  {
    var line := lines[i];
    if !StartsWith(line, "Phone:") {
      return None;
    }
    var after := Strip(line[6..]);
    if after != [] {
      phone := Some(after);
      assert PhoneOnLabelLine(lines, after) by {
        assert 0 <= i < |lines| && StartsWith(lines[i], "Phone:") && after == Strip(lines[i][6..]);
      }
    } else {
      phone := PhoneBelow(lines, i);
    }
  }

  /** What the scan knows of the phone after the first `i` lines: none
      without a "Phone:" label, none only when every label was empty, and a
      found phone is non-empty and sits on or below a label. */
  predicate PhoneScanned(lines: seq<string>, i: nat, phone: Option<string>)
    requires i <= |lines|
  {
    && ((forall l :: 0 <= l < i ==> !StartsWith(lines[l], "Phone:")) ==> phone.None?)
    && (phone.None? ==> forall l :: 0 <= l < i && StartsWith(lines[l], "Phone:") ==> LabelValue(lines, l) == [])
    && (phone.Some? ==> phone.value != [])
    && (phone.Some? ==> PhoneOnLabelLine(lines, phone.value) || PhoneOnNextLine(lines, phone.value))
  }

  /** One more line: its phone, when it yields one, replaces the old. */
  lemma PhoneScanStep(lines: seq<string>, i: nat, phone: Option<string>, found: Option<string>)
    requires i < |lines| && PhoneScanned(lines, i, phone)
    requires !StartsWith(lines[i], "Phone:") ==> found.None?
    requires StartsWith(lines[i], "Phone:") && LabelValue(lines, i) != [] ==> found == Some(LabelValue(lines, i))
    requires found.Some? ==> found.value != []
    requires found.Some? ==> PhoneOnLabelLine(lines, found.value) || PhoneOnNextLine(lines, found.value)
    ensures PhoneScanned(lines, i + 1, if found.Some? then found else phone)
  {
  }

  /** The scan over the lines: the phone of the last "Phone:" label that
      yields one, the e-mail of the last "Email:" label that yields one, and
      (as a ghost) the line that e-mail came from. */
  method ScanLines(lines: seq<string>) returns (phone: Option<string>, email: Option<string>, ghost at: nat)
    ensures (forall i :: 0 <= i < |lines| ==> !StartsWith(lines[i], "Phone:")) ==> phone.None?
    ensures phone.None? ==> forall i :: 0 <= i < |lines| && StartsWith(lines[i], "Phone:") ==> LabelValue(lines, i) == []
    ensures phone.Some? ==> phone.value != []
    ensures phone.Some? ==> PhoneOnLabelLine(lines, phone.value) || PhoneOnNextLine(lines, phone.value)
    ensures email.Some? ==> at < |lines| && email == EmailSearch(lines[at])
    ensures phone == LastSome(PhoneYields(lines), |lines|) && email == LastSome(EmailYields(lines), |lines|)
  {
    phone, email, at := None, None, 0;
    for i := 0 to |lines|
      invariant Scanned(lines, i, phone, email, at)
    {
      phone, email, at := ScanLine(lines, i, phone, email, at);
    }
  }

  /** What the scan holds after the first `i` lines. */
  ghost predicate Scanned(lines: seq<string>, i: nat, phone: Option<string>, email: Option<string>, at: nat)
    requires i <= |lines|
  {
    && PhoneScanned(lines, i, phone)
    && (email.Some? ==> at < |lines| && email == EmailSearch(lines[at]))
    && phone == LastSome(PhoneYields(lines), i) && email == LastSome(EmailYields(lines), i)
  }

  /** One line of the scan. */
  method ScanLine(lines: seq<string>, i: nat, phone: Option<string>, email: Option<string>, ghost at: nat)
    returns (phone': Option<string>, email': Option<string>, ghost at': nat)
    requires i < |lines| && Scanned(lines, i, phone, email, at)
    ensures Scanned(lines, i + 1, phone', email', at')
  {
    phone' := ScanPhone(lines, i, phone);
    email', at' := ScanEmail(lines, i, email, at);
  }

  /** One line of the scan for the phone: line `i`'s phone, when it has one,
      replaces the one found so far. */
  method ScanPhone(lines: seq<string>, i: nat, phone: Option<string>) returns (next: Option<string>)
    requires i < |lines| && PhoneScanned(lines, i, phone)
    requires phone == LastSome(PhoneYields(lines), i)
    ensures PhoneScanned(lines, i + 1, next)
    ensures next == LastSome(PhoneYields(lines), i + 1)
  {
    var found := PhoneOfLine(lines, i);
    PhoneScanStep(lines, i, phone, found);
    next := if found.Some? then found else phone;
  }

  /** One line of the scan for the e-mail: an "Email:" label whose window
      holds an address replaces the one found so far. */
  method ScanEmail(lines: seq<string>, i: nat, email: Option<string>, ghost at: nat)
    returns (next: Option<string>, ghost nextAt: nat)
    requires i < |lines| && (email.Some? ==> at < |lines| && email == EmailSearch(lines[at]))
    requires email == LastSome(EmailYields(lines), i)
    ensures next.Some? ==> nextAt < |lines| && next == EmailSearch(lines[nextAt])
    ensures next == LastSome(EmailYields(lines), i + 1)
  {
    next, nextAt := email, at;
    if StartsWith(lines[i], "Email:") {
      var below, line := EmailBelow(lines, i);
      if below.Some? {
        next, nextAt := below, line;
      }
    }
  }

  /** `extract_phone_email_from_pdf_text(text)`: the scan over the stripped
      lines, then for the e-mail the first address anywhere in the text. */
  method ExtractPhoneEmail(text: string) returns (phone: Option<string>, email: Option<string>)
    ensures (phone, email) == Contact(text)
    ensures email.None? <==> !HasEmail(text)
    ensures email.Some? ==> EmailShape(email.value) && multiset(email.value)['@'] == 1
    ensures (forall i :: 0 <= i < |StrippedLines(text)| ==> !StartsWith(StrippedLines(text)[i], "Phone:"))
            ==> phone.None?
    ensures phone.None? ==> forall i :: 0 <= i < |StrippedLines(text)| && StartsWith(StrippedLines(text)[i], "Phone:")
                                        ==> LabelValue(StrippedLines(text), i) == []
    ensures phone.Some? ==> phone.value != []
    ensures phone.Some? ==> (PhoneOnLabelLine(StrippedLines(text), phone.value)
                          || PhoneOnNextLine(StrippedLines(text), phone.value))
  {
    var lines := StrippedLines(text);
    ghost var at;
    phone, email, at := ScanLines(lines);
    if email.Some? {
      LineEmailInText(text, at);
    } else {
      email := EmailSearch(text);
    }
    EmailSearchFinds(text);
    if email.Some? {
      OneAt(email.value);
    }
  }

  // ---------------------------------------------------------------------------
  // Executors

  datatype Executor = Executor(role: string, entityType: string, entityName: string,
                               firstName: string, lastName: string, address: Option<string>)

  /** A line that opens an executor record: "EXECUTOR " and at least three tokens. */
  predicate IsExecutorLine(line: string) {
    StartsWith(line, "EXECUTOR ") && |Words(line)| >= 3
  }

  /** A line short and upper-case enough to be a heading. */
  predicate HeadingLike(line: string) {
    IsUpperText(line) && |Words(line)| <= 3
  }

  /** The address lines above line `j + 1`, looking back down to line `lo`:
      empty lines are skipped, another executor line ends the address, a
      heading-like line is kept and ends it. The lines come in text order.
      The lines are already stripped, so stripping them again is left out. */
  function AddressLines(lines: seq<string>, j: int, lo: nat): (a: seq<string>)
    requires -1 <= j < |lines|
    ensures |a| <= j - lo + 1 || a == []
    ensures forall k :: 0 <= k < |a| ==> a[k] != [] && !StartsWith(a[k], "EXECUTOR ")
    decreases j + 1
  {
    if j < lo then []
    else
      var prev := lines[j];
      if prev == [] then AddressLines(lines, j - 1, lo)
      else if StartsWith(prev, "EXECUTOR ") then []
      else if HeadingLike(prev) then [prev]
      else AddressLines(lines, j - 1, lo) + [prev]
  }

  /** One step of the look-back at line `j`. */
  lemma AddressLinesStep(lines: seq<string>, j: int, lo: nat)
    requires lo <= j < |lines|
    ensures lines[j] == [] ==> AddressLines(lines, j, lo) == AddressLines(lines, j - 1, lo)
    ensures lines[j] != [] && StartsWith(lines[j], "EXECUTOR ") ==> AddressLines(lines, j, lo) == []
    ensures lines[j] != [] && !StartsWith(lines[j], "EXECUTOR ") && HeadingLike(lines[j]) ==>
      AddressLines(lines, j, lo) == [lines[j]]
    ensures lines[j] != [] && !StartsWith(lines[j], "EXECUTOR ") && !HeadingLike(lines[j]) ==>
      AddressLines(lines, j, lo) == AddressLines(lines, j - 1, lo) + [lines[j]]
  {
  }

  /** Every address line is one of the (at most three) lines just above. */
  lemma {:induction false} AddressLinesFrom(lines: seq<string>, j: int, lo: nat, k: nat) returns (m: nat)
    requires -1 <= j < |lines| && k < |AddressLines(lines, j, lo)|
    ensures lo <= m <= j && AddressLines(lines, j, lo)[k] == lines[m]
    decreases j + 1
  {
    var prev := lines[j];
    var a := AddressLines(lines, j, lo);
    if prev == [] {
      m := AddressLinesFrom(lines, j - 1, lo, k);
    } else if HeadingLike(prev) {
      assert a == [prev];
      m := j;
    } else {
      var before := AddressLines(lines, j - 1, lo);
      assert a == before + [prev];
      if k < |before| {
        m := AddressLinesFrom(lines, j - 1, lo, k);
        assert a[k] == before[k];
      } else {
        m := j;
      }
    }
  }

  function Max0(x: int): nat { if x < 0 then 0 else x }

  /** The executor record of line `i`. */
  function ExecutorOf(lines: seq<string>, i: nat): Executor
    requires i < |lines| && IsExecutorLine(lines[i])
  {
    var tokens := Words(lines[i]);
    var last := if |tokens| >= 4 then Join(tokens[3..], " ") else "";
    var name := if |tokens| >= 4 then tokens[2] + " " + last else tokens[2];
    Executor(tokens[0], tokens[1], name, tokens[2], last, AddressOf(lines, i))
  }

  /** The address of executor line `i`: its address lines joined by ", ", or None. */
  function AddressOf(lines: seq<string>, i: nat): Option<string>
    requires i < |lines|
  {
    var a := AddressLines(lines, i - 1, Max0(i - 3));
    if a == [] then None else Some(Join(a, ", "))
  }

  /** The records of the executor lines among the first `n` lines, in order. */
  function ExecutorsUpTo(lines: seq<string>, n: nat): seq<Executor>
    requires n <= |lines|
  {
    if n == 0 then []
    else ExecutorsUpTo(lines, n - 1) + (if IsExecutorLine(lines[n - 1]) then [ExecutorOf(lines, n - 1)] else [])
  }

  lemma ExecutorsUpToStep(lines: seq<string>, n: nat)
    requires n < |lines|
    ensures IsExecutorLine(lines[n]) ==> ExecutorsUpTo(lines, n + 1) == ExecutorsUpTo(lines, n) + [ExecutorOf(lines, n)]
    ensures !IsExecutorLine(lines[n]) ==> ExecutorsUpTo(lines, n + 1) == ExecutorsUpTo(lines, n)
  {
  }

  /** `extract_executors_from_pdf_text(text)`. */
  method ExtractExecutors(text: string) returns (executors: seq<Executor>)
    ensures executors == ExecutorsUpTo(StrippedLines(text), |StrippedLines(text)|)
  {
    var lines := StrippedLines(text);
    executors := [];
    for i := 0 to |lines|
      invariant executors == ExecutorsUpTo(lines, i)
    {
      var line := lines[i];
      ExecutorsUpToStep(lines, i);
      if !StartsWith(line, "EXECUTOR ") {
        continue;
      }
      var tokens := Words(line);
      if |tokens| < 3 {
        continue;
      }
      var role := tokens[0];
      var entityType := tokens[1];
      var firstName, lastName, entityName;
      if |tokens| >= 4 {
        firstName := tokens[2];
        lastName := Join(tokens[3..], " ");
        entityName := firstName + " " + lastName;
      } else {
        firstName := tokens[2];
        lastName := "";
        entityName := firstName;
      }
      var address := AddressAbove(lines, i);
      var executor := Executor(role, entityType, entityName, firstName, lastName, address);
      assert IsExecutorLine(lines[i]);
      assert executor == ExecutorOf(lines, i);
      executors := executors + [executor];
    }
  }

  /** The look-back over the (at most three) lines above executor line `i`
      that collects its address. */
  method AddressAbove(lines: seq<string>, i: nat) returns (address: Option<string>)
    requires i < |lines|
    requires forall k :: 0 <= k < |lines| ==> IsStripped(lines[k])
    ensures address == AddressOf(lines, i)
  {
    var addressLines: seq<string> := [];
    var lo := Max0(i - 3);
    var j := i - 1;
    var stop := false;
    while j >= lo && !stop
      invariant -1 <= j < i
      invariant !stop ==> AddressLines(lines, i - 1, lo) == AddressLines(lines, j, lo) + addressLines
      invariant stop ==> AddressLines(lines, i - 1, lo) == addressLines
      decreases j + 1, if stop then 0 else 1
    {
      var prev := Strip(lines[j]);
      StripStripped(lines[j]);
      AddressLinesStep(lines, j, lo);
      if prev == [] {
        j := j - 1;
        continue;
      }
      if StartsWith(prev, "EXECUTOR ") {
        stop := true;
      } else if HeadingLike(prev) {
        addressLines := [prev] + addressLines;
        stop := true;
      } else {
        ghost var before := AddressLines(lines, j - 1, lo);
        assert before + [prev] + addressLines == before + ([prev] + addressLines);
        addressLines := [prev] + addressLines;
        j := j - 1;
      }
    }
    if !stop {
      assert AddressLines(lines, j, lo) == [];
      assert [] + addressLines == addressLines;
    }
    address := if addressLines != [] then Some(Join(addressLines, ", ")) else None;
  }

  lemma {:induction false} JoinNonEmpty(parts: seq<string>, sep: string)
    requires parts != [] && parts[0] != []
    ensures Join(parts, sep) != []
  {
  }

  /** A line opening with "EXECUTOR " has "EXECUTOR" as its first token. */
  lemma FirstTokenIsExecutor(line: string)
    requires StartsWith(line, "EXECUTOR ")
    ensures Words(line) != [] && Words(line)[0] == "EXECUTOR"
  {
    assert LeadingSpace(line) == 0 by {
      assert line[0] == 'E';
    }
    assert line[8] == ' ';
    assert WordLength(line[0..]) == 8;
    assert line[..8] == "EXECUTOR";
  }

  /** What each executor record holds: the role is "EXECUTOR"; the entity name
      is the first name, followed by the rest of the name when there is one;
      the address is None exactly when no line above qualified. */
  lemma ExecutorFields(lines: seq<string>, i: nat)
    requires i < |lines| && IsExecutorLine(lines[i])
    ensures ExecutorOf(lines, i).role == "EXECUTOR"
    ensures ExecutorOf(lines, i).lastName == "" ==> ExecutorOf(lines, i).entityName == ExecutorOf(lines, i).firstName
    ensures ExecutorOf(lines, i).lastName != "" ==>
      ExecutorOf(lines, i).entityName == ExecutorOf(lines, i).firstName + " " + ExecutorOf(lines, i).lastName
    ensures ExecutorOf(lines, i).address.None? <==> AddressLines(lines, i - 1, Max0(i - 3)) == []
  {
    FirstTokenIsExecutor(lines[i]);
    WordsAreWords(lines[i]);
    var tokens := Words(lines[i]);
    if |tokens| >= 4 {
      JoinNonEmpty(tokens[3..], " ");
    }
  }

  /** Which lines are executor lines. */
  function ExecutorFlags(lines: seq<string>): (flags: seq<bool>)
    ensures |flags| == |lines|
    ensures forall k :: 0 <= k < |lines| ==> (flags[k] <==> IsExecutorLine(lines[k]))
  {
    seq(|lines|, k requires 0 <= k < |lines| => IsExecutorLine(lines[k]))
  }

  /** One record per executor line: the number of records is the number of
      such lines. */
  lemma {:induction false} ExecutorsCount(lines: seq<string>, n: nat)
    requires n <= |lines|
    ensures |ExecutorsUpTo(lines, n)| == |SetIndices(ExecutorFlags(lines), n)|
  {
    if n > 0 {
      ExecutorsCount(lines, n - 1);
      ExecutorsUpToLength(lines, n - 1);
      SetIndicesStep(ExecutorFlags(lines), n - 1);
    }
  }

  /** One more line adds a record exactly when it is an executor line. */
  lemma ExecutorsUpToLength(lines: seq<string>, n: nat)
    requires n < |lines|
    ensures |ExecutorsUpTo(lines, n + 1)| == |ExecutorsUpTo(lines, n)| + (if ExecutorFlags(lines)[n] then 1 else 0)
  {
    ExecutorsUpToStep(lines, n);
  }
}

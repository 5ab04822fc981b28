/** The scraper's proxy pool: reading the proxy list and the list of proxies
    that failed before (`load_proxies_from_file`, `load_excluded_proxies`),
    recording a failed proxy (`append_bad_proxy`), and handing each keyword
    of a batch its own tested proxy (`assign_proxies_for_batch`).

    The health probe `is_proxy_working` is network I/O; it is the parameter
    `works`. `random.choice` is an arbitrary element of what remains. */
module ProxyPool {
  import opened Wrappers
  import opened Text

  // ---------------------------------------------------------------------------
  // load_proxies_from_file

  /** `re.match(r"^https?://", t, re.IGNORECASE)`. */
  predicate HasScheme(t: string) {
    StartsWith(Lower(t), "http://") || StartsWith(Lower(t), "https://")
  }

  lemma PrefixedHasScheme(t: string)
    ensures HasScheme("http://" + t)
  {
    var p := "http://" + t;
    assert Lower(p)[..7] == "http://" by {
      forall k | 0 <= k < 7 ensures Lower(p)[k] == "http://"[k] {
        assert p[k] == "http://"[k];
      }
    }
  }

  /** One line of the proxy list: stripped; blank lines and `#` comments are
      dropped; a line without an `http://` or `https://` scheme gets `http://`. */
  function NormaliseLine(line: string): (r: Option<string>)
    ensures r.Some? ==> r.value != [] && IsStripped(r.value) && HasScheme(r.value) && r.value[0] != '#'
  {
    var t := Strip(line);
    if t == [] || StartsWith(t, "#") then None
    else if HasScheme(t) then Some(t)
    else
      PrefixedHasScheme(t);
      Some("http://" + t)
  }

  /** The proxies a list of lines yields, in line order. */
  function ProxiesOf(lines: seq<string>): seq<string> {
    Kept(lines, NormaliseLine)
  }

  /** `load_proxies_from_file(path)`: `file` is the file's text, or None when
      it does not exist. Reading in text mode turns `\r\n` and `\r` into `\n`
      before `splitlines`, which splits at all three alike. */
  method LoadProxiesFromFile(file: Option<string>) returns (proxies: seq<string>)
    ensures file.None? ==> proxies == []
    ensures file.Some? ==> proxies == ProxiesOf(SplitLines(file.value))
  {
    proxies := [];
    if file.None? {
      return;
    }
    var lines := SplitLines(file.value);
    for i := 0 to |lines|
      invariant proxies == ProxiesOf(lines[..i])
    {
      KeptNext(lines, i, NormaliseLine);
      var line := Strip(lines[i]);
      if line == [] || StartsWith(line, "#") {
        continue;
      }
      if !HasScheme(line) {
        line := "http://" + line;
      }
      proxies := proxies + [line];
    }
    assert lines[..|lines|] == lines;
  }

  /** The list is read line by line, in order: the proxies of two pieces of a
      file are those of each piece, one after the other. */
  lemma ProxiesOfAppend(a: seq<string>, b: seq<string>)
    ensures ProxiesOf(a + b) == ProxiesOf(a) + ProxiesOf(b)
  {
    KeptAppend(a, b, NormaliseLine);
  }

  /** Every proxy read is non-blank, stripped, not a comment and has a scheme. */
  lemma ProxiesNormalised(lines: seq<string>)
    ensures forall k :: 0 <= k < |ProxiesOf(lines)| ==>
      (ProxiesOf(lines)[k] != [] && IsStripped(ProxiesOf(lines)[k])
       && HasScheme(ProxiesOf(lines)[k]) && ProxiesOf(lines)[k][0] != '#')
  {
    var good := (p: string) => p != [] && IsStripped(p) && HasScheme(p) && p[0] != '#';
    KeptSatisfy(lines, NormaliseLine, good);
  }

  /** A normalised proxy reads back as itself. */
  lemma NormaliseNormalised(p: string)
    requires p != [] && IsStripped(p) && HasScheme(p) && p[0] != '#'
    ensures NormaliseLine(p) == Some(p)
  {
    StripStripped(p);
  }

  /** Writing the loaded proxies back out and loading them again gives the
      same list. */
  lemma {:induction false} ReloadUnchanged(lines: seq<string>)
    ensures ProxiesOf(ProxiesOf(lines)) == ProxiesOf(lines)
    decreases |lines|
  {
    if lines != [] {
      var init := lines[..|lines| - 1];
      ReloadUnchanged(init);
      var tail := match NormaliseLine(lines[|lines| - 1]) { case None => [] case Some(p) => [p] };
      ProxiesOfAppend(ProxiesOf(init), tail);
      if tail != [] {
        NormaliseNormalised(tail[0]);
        KeptAll(tail, tail, NormaliseLine);
      }
    }
  }

  // ---------------------------------------------------------------------------
  // load_excluded_proxies

  /** `load_excluded_proxies(path)`: each line of the file, stripped, unless
      it strips to nothing or the line as read starts with `#` (a comment
      indented by white space is kept). `file` is None when it does not exist. */
  function LoadExcludedProxies(file: Option<string>): (excluded: set<string>)
    ensures file.None? ==> excluded == {}
    ensures forall p :: p in excluded ==> p != [] && IsStripped(p)
  {
    if file.None? then {}
    else
      set line | line in SplitOn(TranslateNewlines(file.value), '\n')
                 && Strip(line) != [] && !StartsWith(line, "#") :: Strip(line)
  }

  /** Text without the separator is one piece. */
  lemma NoSeparatorOnePiece(s: string, sep: char)
    requires sep !in s
    ensures SplitOn(s, sep) == [s]
  {
  }

  /** Stripping a stripped text behind one blank gives back the text. */
  lemma StripIndented(t: string)
    requires t != [] && IsStripped(t)
    ensures Strip(" " + t) == t
  {
    var s := " " + t;
    assert s[1..] == t;
    assert LeadingSpace(t) == 0;
    assert LeadingSpace(s) == 1;
    assert s[1..][..|t|] == t;
  }

  /** A file of one line that is neither blank nor a comment excludes that
      line, stripped. */
  lemma OneLineExcluded(line: string)
    requires '\r' !in line && '\n' !in line
    requires Strip(line) != [] && !StartsWith(line, "#")
    ensures LoadExcludedProxies(Some(line)) == {Strip(line)}
  {
    NoReturnUnchanged(line);
    NoSeparatorOnePiece(line, '\n');
    assert SplitOn(TranslateNewlines(line), '\n') == [line];
  }

  /** The `#` test looks at the line as read, so a comment indented by one
      blank is taken for a proxy that failed before, while
      `load_proxies_from_file` strips first and skips it. */
  lemma IndentedCommentExcluded(comment: string)
    requires comment != [] && comment[0] == '#' && IsStripped(comment)
    requires '\r' !in comment && '\n' !in comment
    ensures LoadExcludedProxies(Some(" " + comment)) == {comment}
    ensures NormaliseLine(" " + comment) == None
  {
    var line := " " + comment;
    StripIndented(comment);
    assert line[0] == ' ';
    assert '\r' !in line && '\n' !in line by {
      assert forall k :: 1 <= k < |line| ==> line[k] == comment[k - 1];
    }
    OneLineExcluded(line);
    assert StartsWith(comment, "#");
  }

  // ---------------------------------------------------------------------------
  // append_bad_proxy and assign_proxies_for_batch

  /** Why `assign_proxies_for_batch` raised. */
  datatype AssignError =
    | AllExcluded          // every listed proxy is excluded
    | NotEnough(assignedSoFar: nat)  // the pool ran dry after that many keywords

  /** The lines `append_bad_proxy` writes for these proxies, in order. */
  function BadLines(proxies: seq<string>): seq<string> {
    Written(proxies, BadLine)
  }

  /** The line `append_bad_proxy` writes for one proxy: none when it is blank. */
  function BadLine(proxy: string): seq<string> {
    var t := Strip(proxy);
    if t == [] then [] else [t]
  }

  /** What a file holds after `line(p)` was appended for each `p`, in order. */
  function Written(proxies: seq<string>, line: string -> seq<string>): seq<string> {
    if proxies == [] then []
    else Written(proxies[..|proxies| - 1], line) + line(proxies[|proxies| - 1])
  }

  lemma {:induction false} WrittenAppend(a: seq<string>, b: seq<string>, line: string -> seq<string>)
    ensures Written(a + b, line) == Written(a, line) + Written(b, line)
    decreases |b|
  {
    if b == [] {
      assert a + b == a;
    } else {
      var init, last := b[..|b| - 1], b[|b| - 1];
      WrittenAppend(a, init, line);
      assert (a + b)[..|a + b| - 1] == a + init;
      assert (a + b)[|a + b| - 1] == last;
      var wa, wi, wl := Written(a, line), Written(init, line), line(last);
      assert Written(a + b, line) == (wa + wi) + wl;
      assert Written(b, line) == wi + wl;
      assert (wa + wi) + wl == wa + (wi + wl);
    }
  }

  /** The set of elements of a sequence. */
  function Elements(s: seq<string>): set<string> {
    set x | x in s
  }

  /** No element appears twice. */
  predicate Distinct(s: seq<string>) {
    forall i, j :: 0 <= i < j < |s| ==> s[i] != s[j]
  }

  /** The `remaining` list of `assign_proxies_for_batch`, as a set: the
      proxies of `all` that are neither excluded nor used in this batch. */
  function Remaining(all: seq<string>, excluded: set<string>, used: set<string>): set<string> {
    set p | p in all && p !in excluded && p !in used
  }

  /** The proxies of `all` that were not excluded and pass the probe: the
      most keywords one batch can be given. */
  function Working(all: seq<string>, excluded: set<string>, works: string -> bool): set<string> {
    set p | p in all && p !in excluded && works(p)
  }

  /** When nothing remains, every working proxy that was not excluded before
      the batch is already in use, since only failing proxies were excluded. */
  lemma ExhaustedPool(all: seq<string>, ex0: set<string>, ex: set<string>, used: set<string>,
                      failed: seq<string>, works: string -> bool)
    requires ex == ex0 + Elements(failed)
    requires forall p :: p in failed ==> !works(p)
    requires Remaining(all, ex, used) == {}
    ensures Working(all, ex0, works) <= used
  {
    forall p | p in Working(all, ex0, works) ensures p in used {
      assert p !in Elements(failed);
      assert p !in Remaining(all, ex, used);
    }
  }

  /** When nothing remains after `i` keywords got their own proxies, those
      proxies are all the working ones, so `i` is the size of that set. */
  lemma ExhaustedCount(all: seq<string>, ex0: set<string>, ex: set<string>, used: set<string>,
                       failed: seq<string>, works: string -> bool, batch: seq<string>, i: nat)
    requires ex == ex0 + Elements(failed)
    requires forall p :: p in failed ==> !works(p)
    requires Remaining(all, ex, used) == {}
    requires used <= Working(all, ex0, works) && |used| == i < |batch|
    ensures |Working(all, ex0, works)| == i < |batch|
  {
    ExhaustedPool(all, ex0, ex, used, failed, works);
    assert used == Working(all, ex0, works);
  }

  /** When the pool runs out at keyword `i`, the first `i` keywords took
      every working proxy. */
  lemma ExhaustedAssigned(all: seq<string>, works: string -> bool, ex0: set<string>, file0: seq<string>,
                          ex: set<string>, file: seq<string>, failed: seq<string>,
                          batch: seq<string>, i: nat, assignments: map<string, string>, used: set<string>)
    requires i < |batch|
    requires FailedSoFar(all, works, ex0, file0, ex, file, failed, used)
    requires AssignedSoFar(batch, i, assignments, used, Working(all, ex0, works))
    requires Remaining(all, ex, used) == {}
    ensures |Working(all, ex0, works)| == i && |assignments| == |Elements(batch[..i])|
  {
    ExhaustedCount(all, ex0, ex, used, failed, works, batch, i);
    assert |assignments| == |assignments.Keys|;
  }

  /** Assigning a fresh working proxy to keyword `i` extends the assignment
      by one keyword. */
  lemma AssignedStep(batch: seq<string>, i: nat, assignments: map<string, string>,
                     used: set<string>, working: set<string>, p: string)
    requires i < |batch| && AssignedSoFar(batch, i, assignments, used, working)
    requires p in working && p !in used
    ensures AssignedSoFar(batch, i + 1, assignments[batch[i] := p], used + {p}, working)
  {
    AssignFresh(assignments, used, batch[i], p);
    UsedGrows(used, working, p);
    assert batch[..i + 1] == batch[..i] + [batch[i]];
  }

  /** A proxy that did not fail may join the used set. */
  lemma FailedSoFarGrows(all: seq<string>, works: string -> bool, ex0: set<string>, file0: seq<string>,
                         ex: set<string>, file: seq<string>, failed: seq<string>, used: set<string>, p: string)
    requires FailedSoFar(all, works, ex0, file0, ex, file, failed, used) && p !in failed
    ensures FailedSoFar(all, works, ex0, file0, ex, file, failed, used + {p})
  {
  }

  /** Using one more working proxy grows the used set by one. */
  lemma UsedGrows(used: set<string>, working: set<string>, p: string)
    requires used <= working && p in working && p !in used
    ensures used + {p} <= working && |used + {p}| == |used| + 1
  {
  }

  /** The proxies in use are working ones that were never excluded: not
      before the batch, and not since, since only failing proxies were. */
  lemma UsedNotExcluded(all: seq<string>, ex0: set<string>, ex: set<string>, used: set<string>,
                        failed: seq<string>, works: string -> bool)
    requires ex == ex0 + Elements(failed)
    requires forall p :: p in failed ==> !works(p)
    requires used <= Working(all, ex0, works)
    ensures forall p :: p in used ==> p in all && p !in ex && works(p)
  {
    forall p | p in used ensures p in all && p !in ex && works(p) {
      assert p in Working(all, ex0, works);
      assert p !in Elements(failed);
    }
  }

  /** A subset is no larger. */
  lemma {:induction false} SubsetCard(a: set<string>, b: set<string>)
    requires a <= b
    ensures |a| <= |b|
    decreases |a|
  {
    if a != {} {
      var x :| x in a;
      SubsetCard(a - {x}, b - {x});
    }
  }

  /** Excluding one remaining proxy leaves one fewer. */
  lemma RemainingShrinks(all: seq<string>, excluded: set<string>, used: set<string>, p: string)
    requires p in Remaining(all, excluded, used)
    ensures Remaining(all, excluded + {p}, used) == Remaining(all, excluded, used) - {p}
    ensures |Remaining(all, excluded + {p}, used)| < |Remaining(all, excluded, used)|
  {
  }

  /** The proxies that failed before and the file that records them: the
      state `assign_proxies_for_batch` and `append_bad_proxy` change, which
      outlives one batch. */
  class DenyList {
    var excluded: set<string>
    var excFile: seq<string>

    constructor(excluded0: set<string>, excFile0: seq<string>)
      ensures excluded == excluded0 && excFile == excFile0
    {
      excluded := excluded0;
      excFile := excFile0;
    }

    /** `append_bad_proxy(path, proxy)`: the stripped proxy becomes a line of
        the file, unless it is blank. */
    method AppendBadProxy(proxy: string)
      modifies this
      ensures excluded == old(excluded)
      ensures excFile == old(excFile) + BadLine(proxy)
    {
      var p := Strip(proxy);
      if p == [] {
        return;
      }
      excFile := excFile + [p];
    }

    /** A proxy that failed its probe: it is excluded for the rest of the run
        and `append_bad_proxy` records it. */
    method RecordFailure(proxy: string, ghost excluded0: set<string>, ghost file0: seq<string>,
                         ghost failed: seq<string>)
      requires excluded == excluded0 + Elements(failed)
      requires excFile == file0 + BadLines(failed)
      modifies this
      ensures excluded == old(excluded) + {proxy}
      ensures excluded == excluded0 + Elements(failed + [proxy])
      ensures excFile == file0 + BadLines(failed + [proxy])
    {
      excluded := excluded + {proxy};
      AppendBadProxy(proxy);
      FailedJoin(failed, [proxy]);
      assert [proxy][..0] == [];
    }

    /** The inner `while True` loop of `assign_proxies_for_batch`: probe
        remaining proxies until one works, excluding and recording each one
        that fails; None when none remains (the RuntimeError). The ghost
        `failed` lists the proxies that failed the probe, in order. */
    method PickProxy(all: seq<string>, used: set<string>, works: string -> bool)
      returns (proxy: Option<string>, ghost failed: seq<string>)
      modifies this
      ensures proxy.Some? ==> proxy.value in all && proxy.value !in excluded && proxy.value !in used
                              && works(proxy.value)
      ensures proxy.None? ==> Remaining(all, excluded, used) == {}
      ensures Distinct(failed)
      ensures forall p :: p in failed ==> p in all && p !in old(excluded) && p !in used && !works(p)
      ensures proxy.Some? ==> proxy.value !in failed
      ensures excluded == old(excluded) + Elements(failed)
      ensures excFile == old(excFile) + BadLines(failed)
    {
      failed := [];
      ghost var excluded0, file0 := excluded, excFile;
      while true
        invariant excluded0 == old(excluded) && file0 == old(excFile)
        invariant excluded == excluded0 + Elements(failed)
        invariant excFile == file0 + BadLines(failed)
        invariant Distinct(failed)
        invariant forall p :: p in failed ==> p in all && p !in old(excluded) && p !in used && !works(p)
        decreases |Remaining(all, excluded, used)|
      {
        var remaining := Remaining(all, excluded, used);
        if remaining == {} {
          return None, failed;
        }
        var candidate :| candidate in remaining;
        if works(candidate) {
          return Some(candidate), failed;
        }
        ghost var before := failed;
        RemainingShrinks(all, excluded, used, candidate);
        RecordFailure(candidate, excluded0, file0, failed);
        failed := failed + [candidate];
        assert forall p :: p in failed ==> p in before || p == candidate;
      }
    }

    /** `assign_proxies_for_batch(all_proxies, excluded, keywords, batch_size)`:
        each keyword of the batch gets its own working proxy, or the call
        fails; either way every proxy that failed its probe stays excluded.
        The ghost `failed` lists those proxies, in order. */
    method AssignProxiesForBatch(all: seq<string>, keywords: seq<string>, batchSize: int, works: string -> bool)
      returns (r: Result<map<string, string>, AssignError>, ghost failed: seq<string>)
      modifies this
      ensures (forall p :: p in all ==> p in old(excluded)) <==> r == Err(AllExcluded)
      ensures r.Ok? <==> (exists p :: p in all && p !in old(excluded))
                         && |Prefix(keywords, batchSize)| <= |Working(all, old(excluded), works)|
      ensures r.Err? && r.error.NotEnough? ==>
        |Working(all, old(excluded), works)| < |Prefix(keywords, batchSize)|
        && r.error.assignedSoFar == |Elements(Prefix(keywords, batchSize)[..|Working(all, old(excluded), works)|])|
      ensures r.Ok? ==> r.value.Keys == Elements(Prefix(keywords, batchSize))
      ensures r.Ok? ==> forall kw :: kw in r.value ==>
        r.value[kw] in all && r.value[kw] !in excluded && works(r.value[kw])
      ensures r.Ok? ==> Injective(r.value)
      ensures Distinct(failed)
      ensures forall p :: p in failed ==> p in all && p !in old(excluded) && !works(p)
      ensures excluded == old(excluded) + Elements(failed)
      ensures excFile == old(excFile) + BadLines(failed)
    {
      failed := [];
      var candidates := set p | p in all && p !in excluded;
      if candidates == {} {
        assert forall p :: p in all ==> p in excluded by {
          forall p | p in all ensures p in excluded {
            assert p !in excluded ==> p in candidates;
          }
        }
        return Err(AllExcluded), failed;
      }
      ghost var someCandidate :| someCandidate in candidates;
      assert !(forall p :: p in all ==> p in old(excluded)) by {
        assert someCandidate in all && someCandidate !in old(excluded);
      }
      var batch := Prefix(keywords, batchSize);
      if batch == [] {
        return Ok(map[]), failed;
      }
      r, failed := AssignBatch(all, batch, works);
    }

    /** The `for kw in batch_keywords` loop of `assign_proxies_for_batch`. */
    method AssignBatch(all: seq<string>, batch: seq<string>, works: string -> bool)
      returns (r: Result<map<string, string>, AssignError>, ghost failed: seq<string>)
      modifies this
      ensures r.Ok? <==> |batch| <= |Working(all, old(excluded), works)|
      ensures r.Err? ==>
        |Working(all, old(excluded), works)| < |batch|
        && r.error == NotEnough(|Elements(batch[..|Working(all, old(excluded), works)|])|)
      ensures r.Ok? ==> r.value.Keys == Elements(batch)
      ensures r.Ok? ==> forall kw :: kw in r.value ==>
        r.value[kw] in all && r.value[kw] !in excluded && works(r.value[kw])
      ensures r.Ok? ==> Injective(r.value)
      ensures Distinct(failed)
      ensures forall p :: p in failed ==> p in all && p !in old(excluded) && !works(p)
      ensures excluded == old(excluded) + Elements(failed)
      ensures excFile == old(excFile) + BadLines(failed)
    {
      failed := [];
      var assignments: map<string, string> := map[];
      var used: set<string> := {};
      for i := 0 to |batch|
        invariant FailedSoFar(all, works, old(excluded), old(excFile), excluded, excFile, failed, used)
        invariant AssignedSoFar(batch, i, assignments, used, Working(all, old(excluded), works))
      {
        var proxy;
        proxy, assignments, used, failed := AssignNext(all, batch, works, i, assignments, used,
                                                       old(excluded), old(excFile), failed);
        if proxy.None? {
          return Err(NotEnough(|assignments|)), failed;
        }
      }
      assert batch[..|batch|] == batch;
      SubsetCard(used, Working(all, old(excluded), works));
      UsedNotExcluded(all, old(excluded), excluded, used, failed, works);
      r := Ok(assignments);
    }

    /** The turn of keyword `i`: the next working proxy is assigned to it, or,
        when the pool has none left, the batch has used every working proxy. */
    method AssignNext(all: seq<string>, batch: seq<string>, works: string -> bool, i: nat,
                      assignments: map<string, string>, used: set<string>,
                      ghost ex0: set<string>, ghost file0: seq<string>, ghost failed: seq<string>)
      returns (proxy: Option<string>, assignments': map<string, string>, used': set<string>,
               ghost failed': seq<string>)
      modifies this
      requires i < |batch|
      requires FailedSoFar(all, works, ex0, file0, excluded, excFile, failed, used)
      requires AssignedSoFar(batch, i, assignments, used, Working(all, ex0, works))
      ensures FailedSoFar(all, works, ex0, file0, excluded, excFile, failed', used')
      ensures proxy.Some? ==> AssignedSoFar(batch, i + 1, assignments', used', Working(all, ex0, works))
      ensures proxy.None? ==>
        && |Working(all, ex0, works)| == i
        && assignments' == assignments && |assignments| == |Elements(batch[..i])|
    {
      assignments', used' := assignments, used;
      proxy, failed' := PickNext(all, used, works, ex0, file0, failed);
      if proxy.None? {
        ExhaustedAssigned(all, works, ex0, file0, excluded, excFile, failed', batch, i, assignments, used);
        return;
      }
      AssignedStep(batch, i, assignments, used, Working(all, ex0, works), proxy.value);
      FailedSoFarGrows(all, works, ex0, file0, excluded, excFile, failed', used, proxy.value);
      used' := used + {proxy.value};
      assignments' := assignments[batch[i] := proxy.value];
    }

    /** One keyword's turn: `PickProxy`, with the failures of this batch so
        far (`failed`, against the state `ex0`, `file0` at its start) joined
        to the new ones. */
    method PickNext(all: seq<string>, used: set<string>, works: string -> bool,
                    ghost ex0: set<string>, ghost file0: seq<string>, ghost failed: seq<string>)
      returns (proxy: Option<string>, ghost failed': seq<string>)
      modifies this
      requires FailedSoFar(all, works, ex0, file0, excluded, excFile, failed, used)
      ensures FailedSoFar(all, works, ex0, file0, excluded, excFile, failed', used)
      ensures proxy.Some? ==>
        proxy.value in Working(all, ex0, works) && proxy.value !in used && proxy.value !in failed'
      ensures proxy.None? ==> Remaining(all, excluded, used) == {}
    {
      ghost var excludedBefore, fileBefore := excluded, excFile;
      ghost var more;
      proxy, more := PickProxy(all, used, works);
      assert forall p :: p in failed ==> p in excludedBefore;
      DistinctJoin(failed, more);
      StateJoin(ex0, file0, excludedBefore, fileBefore, excluded, excFile, failed, more);
      failed' := failed + more;
    }
  }

  /** The proxies that failed in this batch so far, from the state `ex0`,
      `file0` at its start: each listed once, each a pool entry that was
      neither excluded nor in use and does not work, and all of them added
      to the set and the file. */
  ghost predicate FailedSoFar(all: seq<string>, works: string -> bool, ex0: set<string>, file0: seq<string>,
                              ex: set<string>, file: seq<string>, failed: seq<string>, used: set<string>)
  {
    && ex == ex0 + Elements(failed) && file == file0 + BadLines(failed)
    && Distinct(failed)
    && forall p :: p in failed ==> p in all && p !in ex0 && p !in used && !works(p)
  }

  /** The first `i` keywords of the batch have distinct proxies, drawn from
      `used`, a set of `i` working proxies. */
  ghost predicate AssignedSoFar(batch: seq<string>, i: nat, assignments: map<string, string>,
                                used: set<string>, working: set<string>)
    requires i <= |batch|
  {
    && assignments.Keys == Elements(batch[..i])
    && Injective(assignments) && assignments.Values <= used
    && used <= working && |used| == i
  }

  /** No two keys share a value: no proxy serves two keywords. */
  predicate Injective(m: map<string, string>) {
    forall k1, k2 :: k1 in m && k2 in m && k1 != k2 ==> m[k1] != m[k2]
  }

  /** Giving a keyword a proxy not used before keeps the assignment injective. */
  lemma AssignFresh(m: map<string, string>, used: set<string>, kw: string, p: string)
    requires Injective(m) && m.Values <= used && p !in used
    ensures Injective(m[kw := p]) && m[kw := p].Values <= used + {p}
  {
    var m' := m[kw := p];
    forall v | v in m'.Values ensures v in used + {p} {
      var k :| k in m' && m'[k] == v;
      if k != kw { assert m[k] in m.Values; }
    }
    forall k1, k2 | k1 in m' && k2 in m' && k1 != k2 ensures m'[k1] != m'[k2] {
      if k1 != kw && k2 != kw {
        assert m'[k1] == m[k1] && m'[k2] == m[k2];
      } else if k1 == kw {
        assert m[k2] in m.Values;
      } else {
        assert m[k1] in m.Values;
      }
    }
  }

  /** Two runs of distinct proxies with nothing in common make one. */
  lemma DistinctJoin(a: seq<string>, b: seq<string>)
    requires Distinct(a) && Distinct(b)
    requires forall p :: p in b ==> p !in a
    ensures Distinct(a + b)
  {
    forall i, j | 0 <= i < j < |a + b| ensures (a + b)[i] != (a + b)[j] {
      if j >= |a| && i < |a| {
        assert (a + b)[j] in b && (a + b)[i] in a;
      }
    }
  }

  /** The deny list after two picks: the set and the file grow by the failures
      of both, in order. */
  lemma StateJoin(ex0: set<string>, file0: seq<string>, ex1: set<string>, file1: seq<string>,
                  ex2: set<string>, file2: seq<string>, a: seq<string>, b: seq<string>)
    requires ex1 == ex0 + Elements(a) && file1 == file0 + BadLines(a)
    requires ex2 == ex1 + Elements(b) && file2 == file1 + BadLines(b)
    ensures ex2 == ex0 + Elements(a + b) && file2 == file0 + BadLines(a + b)
  {
    FailedJoin(a, b);
    assert file2 == file0 + (BadLines(a) + BadLines(b));
  }

  /** Joining the failures of two picks keeps them distinct and keeps the
      file and the set in step. */
  lemma FailedJoin(a: seq<string>, b: seq<string>)
    ensures Elements(a + b) == Elements(a) + Elements(b)
    ensures BadLines(a + b) == BadLines(a) + BadLines(b)
  {
    WrittenAppend(a, b, BadLine);
  }
}

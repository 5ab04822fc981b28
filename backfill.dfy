// The offline backfill: rebuilding the per-letter result and tracking files
// from the per-keyword API and Business Information outputs already on disk.
// Files are given as their path, their name stem and their decoded content;
// globbing, reading and writing files are not part of this model.
module Backfill {
  import opened Wrappers
  import opened Text
  import opened Json

  // ---------------------------------------------------------------------------
  // File names

  /**
   * `parse_name_parts`: a stem `wa_<prefix>_<letter>_<keyword>` split at its
   * first three underscores; the letter and keyword when there are four
   * pieces, the first is "wa" and the second the expected prefix.
   */
  function NameParts(stem: string, prefix: string): Option<(string, string)> {
    var parts := SplitMax(stem, '_', 3);
    if |parts| < 4 || parts[0] != "wa" || parts[1] != prefix then None else Some((parts[2], parts[3]))
  }

  /** The name a file of this prefix, letter and keyword is written under. */
  function FileStem(prefix: string, letter: string, keyword: string): string {
    "wa_" + prefix + "_" + letter + "_" + keyword
  }

  /** The name written for a letter and keyword is read back as them. */
  lemma NamePartsOfStem(prefix: string, letter: string, keyword: string)
    requires '_' !in prefix && '_' !in letter
    ensures NameParts(FileStem(prefix, letter, keyword), prefix) == Some((letter, keyword))
  {
    var parts := ["wa", prefix, letter, keyword];
    JoinFour(parts, "_");
    assert '_' !in parts[0];
    SplitMaxJoin(parts, '_', 3);
  }

  /**
   * An accepted stem is the name of the letter and keyword read from it,
   * and neither the prefix nor the letter holds an underscore.
   */
  lemma NamePartsShape(stem: string, prefix: string)
    requires NameParts(stem, prefix).Some?
    ensures var r := NameParts(stem, prefix).value;
            '_' !in prefix && '_' !in r.0 && stem == FileStem(prefix, r.0, r.1)
  {
    var parts := SplitMax(stem, '_', 3);
    JoinSplitMax(stem, '_', 3);
    JoinFour(parts, "_");
    assert parts[0] == "wa" && parts[1] == prefix;
    assert '_' !in parts[1] && '_' !in parts[2];
  }

  /** A stem is its four pieces joined by underscores. */
  lemma JoinFour(parts: seq<string>, sep: string)
    requires |parts| == 4
    ensures Join(parts, sep) == parts[0] + sep + (parts[1] + sep + (parts[2] + sep + parts[3]))
    ensures sep == "_" && parts[0] == "wa" ==> Join(parts, sep) == FileStem(parts[1], parts[2], parts[3])
  {
    var t1, t2 := parts[1..], parts[2..];
    assert t1[1..] == t2 && t2[1..] == [parts[3]];
    assert Join([parts[3]], sep) == parts[3];
    assert Join(t2, sep) == parts[2] + sep + parts[3];
    assert Join(t1, sep) == parts[1] + sep + Join(t2, sep);
    assert Join(parts, sep) == parts[0] + sep + Join(t1, sep);
    FileStemNested(parts[1], parts[2], parts[3]);
  }

  lemma FileStemNested(prefix: string, letter: string, keyword: string)
    ensures FileStem(prefix, letter, keyword) == "wa" + "_" + (prefix + "_" + (letter + "_" + keyword))
  {
  }

  /**
   * A stem is accepted with this letter and keyword exactly when it is the
   * name of that letter and keyword and neither the prefix nor the letter
   * holds an underscore; the keyword may hold any number of them.
   */
  lemma NamePartsExact(stem: string, prefix: string, letter: string, keyword: string)
    ensures NameParts(stem, prefix) == Some((letter, keyword)) <==>
              '_' !in prefix && '_' !in letter && stem == FileStem(prefix, letter, keyword)
  {
    if '_' !in prefix && '_' !in letter && stem == FileStem(prefix, letter, keyword) {
      NamePartsOfStem(prefix, letter, keyword);
    }
    if NameParts(stem, prefix) == Some((letter, keyword)) {
      NamePartsShape(stem, prefix);
    }
  }

  /** A stem with fewer than three underscores is never accepted. */
  lemma ShortStemRejected(stem: string, prefix: string)
    requires |SplitMax(stem, '_', 3)| < 4
    ensures NameParts(stem, prefix) == None
  {
  }

  // ---------------------------------------------------------------------------
  // Collecting the per-keyword files

  type Key = (string, string)

  /** Whether the `i`-th file contributes an entry under `k`. */
  ghost predicate Hits<F, V>(files: seq<F>, entry: F -> Option<(Key, V)>, i: int, k: Key) {
    0 <= i < |files| && entry(files[i]).Some? && entry(files[i]).value.0 == k
  }

  /**
   * The dict a collecting loop builds: each file in turn stores its entry
   * under its key, replacing what an earlier file stored there.
   */
  function Collected<F, V>(files: seq<F>, entry: F -> Option<(Key, V)>): map<Key, V>
    decreases |files|
  {
    if files == [] then map[]
    else
      var data := Collected(files[..|files| - 1], entry);
      match entry(files[|files| - 1])
      case None => data
      case Some(kv) => data[kv.0 := kv.1]
  }

  /**
   * A key is collected exactly when some file has an entry under it, and
   * it holds the entry of the last such file.
   */
  lemma {:induction false} CollectedLast<F, V>(files: seq<F>, entry: F -> Option<(Key, V)>, k: Key)
    ensures k in Collected(files, entry) <==> exists i :: Hits(files, entry, i, k)
    ensures k in Collected(files, entry) ==>
              exists i :: Hits(files, entry, i, k) && entry(files[i]).value.1 == Collected(files, entry)[k] &&
                          forall j :: i < j < |files| ==> !Hits(files, entry, j, k)
    decreases |files|
  {
    if files != [] {
      var n := |files| - 1;
      var front := files[..n];
      CollectedLast(front, entry, k);
      forall i | 0 <= i < n
        ensures Hits(front, entry, i, k) <==> Hits(files, entry, i, k)
      {
        assert front[i] == files[i];
      }
      if Hits(files, entry, n, k) {
        assert entry(files[n]).value.1 == Collected(files, entry)[k];
      } else if k in Collected(files, entry) {
        var i :| Hits(front, entry, i, k) && entry(front[i]).value.1 == Collected(front, entry)[k] &&
                 forall j :: i < j < |front| ==> !Hits(front, entry, j, k);
        assert Hits(files, entry, i, k);
        assert forall j :: i < j < |files| ==> !Hits(files, entry, j, k) by {
          forall j | i < j < |files|
            ensures !Hits(files, entry, j, k)
          {
            if j < n {
              assert !Hits(front, entry, j, k);
            }
          }
        }
      }
    }
  }

  /** Every collected value has a property every file's entry has. */
  lemma {:induction false} CollectedSatisfy<F, V>(files: seq<F>, entry: F -> Option<(Key, V)>, good: (Key, V) -> bool)
    requires forall f :: entry(f).Some? ==> good(entry(f).value.0, entry(f).value.1)
    ensures forall k :: k in Collected(files, entry) ==> good(k, Collected(files, entry)[k])
    decreases |files|
  {
    if files != [] {
      CollectedSatisfy(files[..|files| - 1], entry, good);
    }
  }

  lemma CollectedNext<F, V>(files: seq<F>, i: nat, entry: F -> Option<(Key, V)>)
    requires i < |files|
    ensures Collected(files[..i + 1], entry)
         == match entry(files[i]) case None => Collected(files[..i], entry) case Some(kv) => Collected(files[..i], entry)[kv.0 := kv.1]
  {
    assert files[..i + 1][..i] == files[..i];
  }

  // API files

  datatype ApiFile = ApiFile(path: string, stem: string, payload: Option<Object>)

  datatype ApiInfo = ApiInfo(apiFile: string, apiRecords: nat, keyword: string, letter: string, pagesVisited: nat, safeKw: string)

  /** `payload.get("pages", [])`, read as the list of pages it holds. */
  function Pages(payload: Object): seq<Value> {
    match Get(payload, "pages")
    case Arr(items) => items
    case _ => []
  }

  /** `len(page.get("business_list", []) or [])`: a list counts its items, a
      string its characters and an object its keys; a missing or falsy value
      counts 0. */
  function PageRecords(page: Value): nat {
    if page.Obj? then
      match Get(page.fields, "business_list")
      case Arr(items) => |items|
      case Str(s) => |s|
      case Obj(fields) => |fields|
      case _ => 0
    else 0
  }

  /** The business entries of all pages together. */
  function TotalRecords(pages: seq<Value>): nat
    decreases |pages|
  {
    if pages == [] then 0 else TotalRecords(pages[..|pages| - 1]) + PageRecords(pages[|pages| - 1])
  }

  /** The total of two runs of pages is the sum of their totals. */
  lemma {:induction false} TotalRecordsAppend(a: seq<Value>, b: seq<Value>)
    ensures TotalRecords(a + b) == TotalRecords(a) + TotalRecords(b)
    decreases |b|
  {
    if b == [] {
      assert a + b == a;
    } else {
      var b0 := b[..|b| - 1];
      assert (a + b)[..|a + b| - 1] == a + b0;
      assert (a + b)[|a + b| - 1] == b[|b| - 1];
      TotalRecordsAppend(a, b0);
      assert TotalRecords(a + b) == TotalRecords(a + b0) + PageRecords(b[|b| - 1]);
    }
  }

  /** No record was counted exactly when no page lists a business. */
  lemma {:induction false} NoRecords(pages: seq<Value>)
    ensures TotalRecords(pages) == 0 <==> forall i :: 0 <= i < |pages| ==> PageRecords(pages[i]) == 0
    decreases |pages|
  {
    if pages != [] {
      var front := pages[..|pages| - 1];
      NoRecords(front);
      assert forall i :: 0 <= i < |front| ==> front[i] == pages[i];
    }
  }

  /** The loop over the pages of one payload. */
  method CountRecords(pages: seq<Value>) returns (n: nat)
    ensures n == TotalRecords(pages)
  {
    n := 0;
    var i := 0;
    while i < |pages|
      invariant i <= |pages|
      invariant n == TotalRecords(pages[..i])
    {
      n := n + PageRecords(pages[i]);
      assert pages[..i + 1][..i] == pages[..i];
      i := i + 1;
    }
    assert pages[..i] == pages;
  }

  /** Python's `str(v)` for the values a keyword can hold. */
  function Show(v: Value): string {
    match v
    case Null => "None"
    case Bool(b) => if b then "True" else "False"
    case Int(i) => if i < 0 then "-" + NatToString(-i) else NatToString(i)
    case Str(s) => s
    case Arr(_) => "[...]"
    case Obj(_) => "{...}"
  }

  /** `str(payload.get("keyword", safe_kw))`. */
  function KeywordOf(payload: Object, safeKw: string): string {
    if "keyword" in payload then Show(payload["keyword"]) else safeKw
  }

  /** What one API file contributes: nothing for a foreign name, a blank letter or unreadable JSON. */
  function ApiEntry(f: ApiFile): Option<(Key, ApiInfo)> {
    match NameParts(f.stem, "api")
    case None => None
    case Some(parts) =>
      if parts.0 == "" || f.payload.None? then None
      else
        var payload := f.payload.value;
        var keyword := KeywordOf(payload, parts.1);
        var pages := Pages(payload);
        Some(((parts.0, keyword), ApiInfo(f.path, TotalRecords(pages), keyword, parts.0, |pages|, parts.1)))
  }

  /** The entry is stored under its own letter and keyword. */
  predicate ApiKeyed(k: Key, info: ApiInfo) {
    info.letter == k.0 && info.keyword == k.1 && k.0 != ""
  }

  /** `collect_api_data`. */
  method CollectApi(files: seq<ApiFile>) returns (data: map<Key, ApiInfo>)
    ensures data == Collected(files, ApiEntry)
  {
    data := map[];
    var i := 0;
    while i < |files|
      invariant i <= |files|
      invariant data == Collected(files[..i], ApiEntry)
    {
      CollectedNext(files, i, ApiEntry);
      var entry := ReadApiFile(files[i]);
      if entry.Some? {
        data := data[entry.value.0 := entry.value.1];
      }
      i := i + 1;
    }
    assert files[..i] == files;
  }

  /** One iteration of `collect_api_data`: the entry of one file, if it has one. */
  method ReadApiFile(f: ApiFile) returns (entry: Option<(Key, ApiInfo)>)
    ensures entry == ApiEntry(f)
  {
    var parts := NameParts(f.stem, "api");
    if parts.None? || parts.value.0 == "" || f.payload.None? {
      return None;
    }
    var payload := f.payload.value;
    var pages := Pages(payload);
    var apiRecords := CountRecords(pages);
    var keyword := KeywordOf(payload, parts.value.1);
    entry := Some(((parts.value.0, keyword), ApiInfo(f.path, apiRecords, keyword, parts.value.0, |pages|, parts.value.1)));
  }

  /**
   * Every collected API entry sits under its own letter and keyword, counts
   * the business entries of its pages and the pages themselves, and comes
   * from a file named for its letter and safe keyword.
   */
  lemma ApiCollectedFacts(files: seq<ApiFile>, k: Key)
    requires k in Collected(files, ApiEntry)
    ensures ApiKeyed(k, Collected(files, ApiEntry)[k])
    ensures exists i :: 0 <= i < |files| && files[i].payload.Some? &&
              var info := Collected(files, ApiEntry)[k];
              files[i].stem == FileStem("api", k.0, info.safeKw) &&
              info.apiRecords == TotalRecords(Pages(files[i].payload.value)) &&
              info.pagesVisited == |Pages(files[i].payload.value)|
  {
    CollectedLast(files, ApiEntry, k);
    var info := Collected(files, ApiEntry)[k];
    var i :| Hits(files, ApiEntry, i, k) && ApiEntry(files[i]).value.1 == info &&
             forall j :: i < j < |files| ==> !Hits(files, ApiEntry, j, k);
    var parts := NameParts(files[i].stem, "api").value;
    NamePartsExact(files[i].stem, "api", parts.0, parts.1);
  }

  // Business Information files

  datatype BiFile = BiFile(path: string, stem: string, records: Option<Value>)

  datatype BiInfo = BiInfo(detailsFile: string, detailsSuccess: nat, pdfSuccess: nat)

  /** The records of a decoded file: the list it holds, or none. */
  function RecordList(v: Value): seq<Value> {
    if v.Arr? then v.items else []
  }

  /** `rec.get("PDFSummaries") or []` is not empty. */
  predicate HasPdfs(rec: Value) {
    rec.Obj? && Truthy(Or(Get(rec.fields, "PDFSummaries"), Arr([])))
  }

  /** The records with at least one filing PDF; never more than the records. */
  function PdfCount(records: seq<Value>): (n: nat)
    ensures n <= |records|
    decreases |records|
  {
    if records == [] then 0
    else PdfCount(records[..|records| - 1]) + if HasPdfs(records[|records| - 1]) then 1 else 0
  }

  /** No record counts exactly when none has a PDF; all count exactly when all have one. */
  lemma {:induction false} PdfCountExtremes(records: seq<Value>)
    ensures PdfCount(records) == 0 <==> forall i :: 0 <= i < |records| ==> !HasPdfs(records[i])
    ensures PdfCount(records) == |records| <==> forall i :: 0 <= i < |records| ==> HasPdfs(records[i])
    decreases |records|
  {
    if records != [] {
      var front := records[..|records| - 1];
      PdfCountExtremes(front);
      assert forall i :: 0 <= i < |front| ==> front[i] == records[i];
    }
  }

  /** The loop over the records of one file. */
  method CountPdfs(records: seq<Value>) returns (n: nat)
    ensures n == PdfCount(records)
  {
    n := 0;
    var i := 0;
    while i < |records|
      invariant i <= |records|
      invariant n == PdfCount(records[..i])
    {
      if HasPdfs(records[i]) {
        n := n + 1;
      }
      assert records[..i + 1][..i] == records[..i];
      i := i + 1;
    }
    assert records[..i] == records;
  }

  /** What one BI file contributes, keyed by its letter and safe keyword. */
  function BiEntry(f: BiFile): Option<(Key, BiInfo)> {
    match NameParts(f.stem, "bi")
    case None => None
    case Some(parts) =>
      if parts.0 == "" || f.records.None? then None
      else
        var records := RecordList(f.records.value);
        Some((parts, BiInfo(f.path, |records|, PdfCount(records))))
  }

  /** Records with PDFs are among the records. */
  predicate BiSound(info: BiInfo) {
    info.pdfSuccess <= info.detailsSuccess
  }

  /** `collect_bi_data`. */
  method CollectBi(files: seq<BiFile>) returns (data: map<Key, BiInfo>)
    ensures data == Collected(files, BiEntry)
  {
    data := map[];
    var i := 0;
    while i < |files|
      invariant i <= |files|
      invariant data == Collected(files[..i], BiEntry)
    {
      CollectedNext(files, i, BiEntry);
      var entry := ReadBiFile(files[i]);
      if entry.Some? {
        data := data[entry.value.0 := entry.value.1];
      }
      i := i + 1;
    }
    assert files[..i] == files;
  }

  /** One iteration of `collect_bi_data`: the entry of one file, if it has one. */
  method ReadBiFile(f: BiFile) returns (entry: Option<(Key, BiInfo)>)
    ensures entry == BiEntry(f)
  {
    var parts := NameParts(f.stem, "bi");
    if parts.None? || parts.value.0 == "" || f.records.None? {
      return None;
    }
    var records := RecordList(f.records.value);
    var pdfSuccess := CountPdfs(records);
    entry := Some((parts.value, BiInfo(f.path, |records|, pdfSuccess)));
  }

  /** In every collected BI entry the PDF successes are at most the detail successes. */
  lemma BiCollectedSound(files: seq<BiFile>)
    ensures forall k :: k in Collected(files, BiEntry) ==> BiSound(Collected(files, BiEntry)[k])
  {
    CollectedSatisfy(files, BiEntry, (k: Key, info: BiInfo) => BiSound(info));
  }

  // ---------------------------------------------------------------------------
  // Sorted keys

  /** Python's `<` on (letter, keyword) pairs. */
  predicate KeyLess(x: Key, y: Key) {
    StrLess(x.0, y.0) || (x.0 == y.0 && StrLess(x.1, y.1))
  }

  lemma KeyLessTransitive(x: Key, y: Key, z: Key)
    requires KeyLess(x, y) && KeyLess(y, z)
    ensures KeyLess(x, z)
  {
    if StrLess(x.0, y.0) && StrLess(y.0, z.0) {
      StrLessTransitive(x.0, y.0, z.0);
    } else if x.0 == y.0 && y.0 == z.0 {
      StrLessTransitive(x.1, y.1, z.1);
    }
  }

  lemma KeyLessTotal(x: Key, y: Key)
    requires x != y
    ensures KeyLess(x, y) || KeyLess(y, x)
  {
    if x.0 != y.0 {
      StrLessTotal(x.0, y.0);
    } else {
      StrLessTotal(x.1, y.1);
    }
  }

  lemma KeyLessIrreflexive(x: Key)
    ensures !KeyLess(x, x)
  {
    StrLessIrreflexive(x.0);
    StrLessIrreflexive(x.1);
  }

  predicate IsLeast(m: Key, keys: set<Key>) {
    m in keys && forall k :: k in keys && k != m ==> KeyLess(m, k)
  }

  /** Every non-empty set of keys has a least key. */
  lemma {:induction false} LeastExists(keys: set<Key>)
    requires keys != {}
    ensures exists m :: IsLeast(m, keys)
    decreases |keys|
  {
    var x :| x in keys;
    var rest := keys - {x};
    if rest == {} {
      assert keys == {x};
      assert IsLeast(x, keys);
    } else {
      LeastExists(rest);
      var m :| IsLeast(m, rest);
      KeyLessTotal(x, m);
      if KeyLess(x, m) {
        forall k | k in keys && k != x
          ensures KeyLess(x, k)
        {
          if k != m {
            KeyLessTransitive(x, m, k);
          }
        }
        assert IsLeast(x, keys);
      } else {
        assert IsLeast(m, keys);
      }
    }
  }

  predicate StrictlySorted(order: seq<Key>) {
    forall i, j :: 0 <= i < j < |order| ==> KeyLess(order[i], order[j])
  }

  /** A strictly sorted order lists no key twice. */
  lemma SortedDistinct(order: seq<Key>, i: nat, j: nat)
    requires StrictlySorted(order) && i < j < |order|
    ensures order[i] != order[j]
  {
    KeyLessIrreflexive(order[i]);
  }

  // ---------------------------------------------------------------------------
  // Building the entries

  /** One keyword entry of the rebuilt results file. */
  datatype Entry = Entry(
    letter: string,
    keyword: string,
    pagesVisited: nat,
    recordsScraped: nat,
    detailsFile: Option<string>,
    detailsSuccess: nat,
    detailsFailed: nat,
    apiFile: Option<string>,
    apiRecords: nat,
    pdfSuccess: nat,
    pdfFail: nat)

  /** The BI entry of a key: its own, or else the one under the API entry's safe keyword. */
  function LookupBi(k: Key, api: map<Key, ApiInfo>, bi: map<Key, BiInfo>): (r: Option<BiInfo>)
    ensures k in bi ==> r == Some(bi[k])
    ensures k !in bi && k in api && (k.0, api[k].safeKw) in bi ==> r == Some(bi[(k.0, api[k].safeKw)])
    ensures r.None? <==> k !in bi && (k !in api || (k.0, api[k].safeKw) !in bi)
  {
    if k in bi then Some(bi[k])
    else if k in api && (k.0, api[k].safeKw) in bi then Some(bi[(k.0, api[k].safeKw)])
    else None
  }

  /** The entry written for one key. */
  function EntryFor(k: Key, api: map<Key, ApiInfo>, bi: map<Key, BiInfo>): Entry {
    var a := if k in api then Some(api[k]) else None;
    var b := LookupBi(k, api, bi);
    var apiRecords := if a.Some? then a.value.apiRecords else 0;
    var details := if b.Some? then b.value.detailsSuccess else 0;
    var pdf := if b.Some? then b.value.pdfSuccess else 0;
    Entry(
      k.0,
      if a.Some? then a.value.keyword else k.1,
      if a.Some? then a.value.pagesVisited else 0,
      if apiRecords != 0 then apiRecords else details,
      if b.Some? then Some(b.value.detailsFile) else None,
      details,
      0,
      if a.Some? then Some(a.value.apiFile) else None,
      apiRecords,
      pdf,
      if details >= pdf then details - pdf else 0)
  }

  /**
   * The arithmetic of an entry built from collected files: the PDF failures
   * are the detail successes without a PDF, the records scraped are the API
   * records unless there were none, and there are no detail failures. The
   * keyword is the key's own, and the files are named when they exist.
   */
  lemma EntryArithmetic(k: Key, api: map<Key, ApiInfo>, bi: map<Key, BiInfo>)
    requires forall j :: j in api ==> ApiKeyed(j, api[j])
    requires forall j :: j in bi ==> BiSound(bi[j])
    ensures var e := EntryFor(k, api, bi);
            e.letter == k.0 && e.keyword == k.1 &&
            e.pdfFail + e.pdfSuccess == e.detailsSuccess &&
            e.recordsScraped == (if e.apiRecords != 0 then e.apiRecords else e.detailsSuccess) &&
            (e.recordsScraped == 0 <==> e.apiRecords == 0 && e.detailsSuccess == 0) &&
            e.detailsFailed == 0 &&
            (e.apiFile.Some? <==> k in api) &&
            (e.detailsFile.Some? <==> LookupBi(k, api, bi).Some?) &&
            (k !in api ==> e.apiRecords == 0 && e.pagesVisited == 0)
  {
  }

  /** The BI counts fall back to the file under the API entry's safe keyword. */
  lemma BiFallback(k: Key, api: map<Key, ApiInfo>, bi: map<Key, BiInfo>)
    requires k !in bi && k in api && (k.0, api[k].safeKw) in bi
    ensures var e := EntryFor(k, api, bi);
            var b := bi[(k.0, api[k].safeKw)];
            e.detailsFile == Some(b.detailsFile) && e.detailsSuccess == b.detailsSuccess && e.pdfSuccess == b.pdfSuccess
  {
  }

  /** The per-letter lists after appending the entries of `order` in turn. */
  function Grouped(order: seq<Key>, api: map<Key, ApiInfo>, bi: map<Key, BiInfo>): map<string, seq<Entry>>
    decreases |order|
  {
    if order == [] then map[]
    else
      var g := Grouped(order[..|order| - 1], api, bi);
      var k := order[|order| - 1];
      g[k.0 := (if k.0 in g then g[k.0] else []) + [EntryFor(k, api, bi)]]
  }

  /** The entries of the keys of `order` with letter `l`, in order. */
  function Group(order: seq<Key>, l: string, api: map<Key, ApiInfo>, bi: map<Key, BiInfo>): seq<Entry>
    decreases |order|
  {
    if order == [] then []
    else
      var k := order[|order| - 1];
      Group(order[..|order| - 1], l, api, bi) + if k.0 == l then [EntryFor(k, api, bi)] else []
  }

  /**
   * Appending to per-letter lists gives, for each letter that occurs, the
   * entries of that letter's keys in order, and no list for any other letter.
   */
  lemma {:induction false} GroupedIsGroup(order: seq<Key>, l: string, api: map<Key, ApiInfo>, bi: map<Key, BiInfo>)
    ensures l in Grouped(order, api, bi) <==> exists i :: 0 <= i < |order| && order[i].0 == l
    ensures l in Grouped(order, api, bi) ==> Grouped(order, api, bi)[l] == Group(order, l, api, bi)
    ensures l !in Grouped(order, api, bi) ==> Group(order, l, api, bi) == []
    decreases |order|
  {
    if order != [] {
      var front := order[..|order| - 1];
      GroupedIsGroup(front, l, api, bi);
      assert forall i :: 0 <= i < |front| ==> front[i] == order[i];
      if order[|order| - 1].0 == l {
        assert order[|order| - 1] == order[|order| - 1];
      }
    }
  }

  /** A key of the order has its entry in its letter's group. */
  lemma {:induction false} GroupHasEntry(order: seq<Key>, i: nat, api: map<Key, ApiInfo>, bi: map<Key, BiInfo>)
    requires i < |order|
    ensures EntryFor(order[i], api, bi) in Group(order, order[i].0, api, bi)
    decreases |order|
  {
    var front := order[..|order| - 1];
    if i < |front| {
      assert front[i] == order[i];
      GroupHasEntry(front, i, api, bi);
    }
  }

  /** Every entry of a letter's group carries that letter. */
  lemma {:induction false} GroupLetter(order: seq<Key>, l: string, api: map<Key, ApiInfo>, bi: map<Key, BiInfo>)
    ensures forall e :: e in Group(order, l, api, bi) ==> e.letter == l
    decreases |order|
  {
    if order != [] {
      GroupLetter(order[..|order| - 1], l, api, bi);
    }
  }

  /**
   * `build_results` / `build_tracking_entries`: one entry per key of either
   * collection, appended to its letter's list with the keys taken in sorted
   * order (each step takes the least key not yet taken).
   */
  method BuildEntries(api: map<Key, ApiInfo>, bi: map<Key, BiInfo>) returns (perLetter: map<string, seq<Entry>>, ghost order: seq<Key>)
    ensures StrictlySorted(order)
    ensures forall k :: k in order <==> k in api || k in bi
    ensures perLetter == Grouped(order, api, bi)
  {
    var keys := api.Keys + bi.Keys;
    var remaining := keys;
    perLetter := map[];
    order := [];
    while remaining != {}
      invariant remaining <= keys
      invariant forall k :: k in order <==> k in keys && k !in remaining
      invariant forall i, k :: 0 <= i < |order| && k in remaining ==> KeyLess(order[i], k)
      invariant StrictlySorted(order)
      invariant perLetter == Grouped(order, api, bi)
      decreases |remaining|
    {
      LeastExists(remaining);
      var k :| IsLeast(k, remaining);
      var entry := EntryFor(k, api, bi);
      perLetter := perLetter[k.0 := (if k.0 in perLetter then perLetter[k.0] else []) + [entry]];
      TakeLeast(order, remaining, k);
      GroupedSnoc(order, k, api, bi);
      order := order + [k];
      remaining := remaining - {k};
    }
  }

  /** Taking the least remaining key keeps the order sorted and below what remains. */
  lemma TakeLeast(order: seq<Key>, remaining: set<Key>, k: Key)
    requires IsLeast(k, remaining)
    requires forall i, j :: 0 <= i < |order| && j in remaining ==> KeyLess(order[i], j)
    requires StrictlySorted(order)
    ensures forall i, j :: 0 <= i < |order + [k]| && j in remaining - {k} ==> KeyLess((order + [k])[i], j)
    ensures StrictlySorted(order + [k])
  {
    var o := order + [k];
    forall i, j | 0 <= i < |o| && j in remaining - {k}
      ensures KeyLess(o[i], j)
    {
      if i < |order| {
        assert o[i] == order[i];
      }
    }
    forall i, j | 0 <= i < j < |o|
      ensures KeyLess(o[i], o[j])
    {
      assert o[i] == order[i];
      if j < |order| {
        assert o[j] == order[j];
      }
    }
  }

  lemma GroupedSnoc(order: seq<Key>, k: Key, api: map<Key, ApiInfo>, bi: map<Key, BiInfo>)
    ensures var g := Grouped(order, api, bi);
            Grouped(order + [k], api, bi) == g[k.0 := (if k.0 in g then g[k.0] else []) + [EntryFor(k, api, bi)]]
  {
    assert (order + [k])[..|order|] == order;
  }

  /**
   * Every key of either collection has its entry in its letter's list, and
   * each list holds only its own letter's entries.
   */
  lemma EveryKeyHasEntry(api: map<Key, ApiInfo>, bi: map<Key, BiInfo>, order: seq<Key>, k: Key)
    requires forall j :: j in order <==> j in api || j in bi
    requires k in api || k in bi
    ensures k.0 in Grouped(order, api, bi)
    ensures EntryFor(k, api, bi) in Grouped(order, api, bi)[k.0]
    ensures forall e :: e in Grouped(order, api, bi)[k.0] ==> e.letter == k.0
  {
    var i :| 0 <= i < |order| && order[i] == k;
    GroupedIsGroup(order, k.0, api, bi);
    GroupHasEntry(order, i, api, bi);
    GroupLetter(order, k.0, api, bi);
  }

  /** A tracking entry: the results entry without its letter and page count. */
  datatype TrackingEntry = TrackingEntry(
    keyword: string,
    recordsScraped: nat,
    detailsFile: Option<string>,
    detailsSuccess: nat,
    detailsFailed: nat,
    apiFile: Option<string>,
    apiRecords: nat,
    pdfSuccess: nat,
    pdfFail: nat)

  function TrackingOf(e: Entry): TrackingEntry {
    TrackingEntry(e.keyword, e.recordsScraped, e.detailsFile, e.detailsSuccess, e.detailsFailed, e.apiFile, e.apiRecords, e.pdfSuccess, e.pdfFail)
  }

  /** The tracking lists: the same letters, each list entry for entry. */
  function TrackingLists(perLetter: map<string, seq<Entry>>): (r: map<string, seq<TrackingEntry>>)
    ensures r.Keys == perLetter.Keys
    ensures forall l :: l in r ==> |r[l]| == |perLetter[l]|
    ensures forall l, i :: l in r && 0 <= i < |r[l]| ==> r[l][i] == TrackingOf(perLetter[l][i])
  {
    map l | l in perLetter :: seq(|perLetter[l]|, i requires 0 <= i < |perLetter[l]| => TrackingOf(perLetter[l][i]))
  }

  /** The whole rebuild from the two directories' files. */
  method Backfill(apiFiles: seq<ApiFile>, biFiles: seq<BiFile>) returns (perLetter: map<string, seq<Entry>>, ghost order: seq<Key>)
    ensures StrictlySorted(order)
    ensures forall k :: k in order <==> k in Collected(apiFiles, ApiEntry) || k in Collected(biFiles, BiEntry)
    ensures perLetter == Grouped(order, Collected(apiFiles, ApiEntry), Collected(biFiles, BiEntry))
  {
    var api := CollectApi(apiFiles);
    var bi := CollectBi(biFiles);
    perLetter, order := BuildEntries(api, bi);
  }

  /** Entries built from collected files obey the entry arithmetic. */
  lemma CollectedEntries(apiFiles: seq<ApiFile>, biFiles: seq<BiFile>, k: Key)
    ensures var e := EntryFor(k, Collected(apiFiles, ApiEntry), Collected(biFiles, BiEntry));
            e.keyword == k.1 && e.pdfFail + e.pdfSuccess == e.detailsSuccess && e.detailsFailed == 0
  {
    var api := Collected(apiFiles, ApiEntry);
    forall j | j in api
      ensures ApiKeyed(j, api[j])
    {
      ApiCollectedFacts(apiFiles, j);
    }
    BiCollectedSound(biFiles);
    EntryArithmetic(k, api, Collected(biFiles, BiEntry));
  }
}

// Per-keyword bookkeeping of a search run: which businesses get a detail
// fetch, the success and failure counters, the first-detail flag, the
// in-browser API variant's counters and its BusinessInformation-only list,
// and the retry policy of the search form. Every fetch is an oracle
// argument, so the properties hold whatever the site returns.
module KeywordRun {
  import opened Wrappers
  import opened Json
  import Records

  // ---------------------------------------------------------------------
  // Detail fetches through the Business Information page

  /** One detail fetch: the id, the first-detail flag passed with it, and the record or None. */
  datatype Attempt = Attempt(id: Value, first: bool, record: Option<Object>)

  /** Ids whose fetch produced a record. */
  function SucceededIds(attempts: seq<Attempt>): set<Value> {
    if attempts == [] then {}
    else
      var last := attempts[|attempts| - 1];
      SucceededIds(attempts[..|attempts| - 1]) + (if last.record.Some? then {last.id} else {})
  }

  /** The records produced, in order. */
  function Recovered(attempts: seq<Attempt>): seq<Object> {
    if attempts == [] then []
    else
      var last := attempts[|attempts| - 1];
      Recovered(attempts[..|attempts| - 1]) + (if last.record.Some? then [last.record.value] else [])
  }

  /**
   * What the bookkeeping promises about the fetches of one keyword: the
   * visited set holds exactly the ids that produced a record, the records
   * are those produced, in order, the counters add up to the fetches, only
   * the first fetch is told it is the first, every fetched id is a real id,
   * and no id is fetched again once it has produced a record.
   */
  ghost predicate Bookkept(visited: set<Value>, records: seq<Object>, success: nat, failed: nat, attempts: seq<Attempt>) {
    visited == SucceededIds(attempts) && records == Recovered(attempts) &&
    success == |records| && success + failed == |attempts| &&
    (forall k | 0 <= k < |attempts| :: attempts[k].first == (k == 0)) &&
    (forall k | 0 <= k < |attempts| :: Truthy(attempts[k].id)) &&
    (forall k | 0 <= k < |attempts| :: attempts[k].id !in SucceededIds(attempts[..k]))
  }

  lemma BookkeptStep(visited: set<Value>, records: seq<Object>, success: nat, failed: nat,
                     attempts: seq<Attempt>, a: Attempt)
    requires Bookkept(visited, records, success, failed, attempts)
    requires a.first == (attempts == []) && Truthy(a.id) && a.id !in visited
    ensures a.record.Some? ==>
              Bookkept(visited + {a.id}, records + [a.record.value], success + 1, failed, attempts + [a])
    ensures a.record.None? ==> Bookkept(visited, records, success, failed + 1, attempts + [a])
  {
    var next := attempts + [a];
    assert next[..|attempts|] == attempts;
    forall k | 0 <= k < |next|
      ensures next[k].id !in SucceededIds(next[..k])
    {
      if k < |attempts| {
        assert next[..k] == attempts[..k];
      }
    }
  }

  /**
   * Visit's rule for one entry, given the fetches so far: skipped when the
   * entry has no id or its id already produced a record, otherwise fetched
   * once, told it is the first exactly when nothing was fetched before.
   */
  function VisitStep(acc: seq<Attempt>, biz: Object, fetch: (nat, Object, bool) -> Option<Object>): seq<Attempt> {
    var id := Records.BusinessId(biz);
    if !Truthy(id) || id in SucceededIds(acc) then acc
    else acc + [Attempt(id, acc == [], fetch(|acc|, biz, acc == []))]
  }

  /** The fetches after visiting every entry of `list`, in order, after `prior`. */
  function VisitsFrom(prior: seq<Attempt>, list: seq<Object>, fetch: (nat, Object, bool) -> Option<Object>): seq<Attempt>
    decreases |list|
  {
    if list == [] then prior
    else VisitStep(VisitsFrom(prior, list[..|list| - 1], fetch), list[|list| - 1], fetch)
  }

  /** Ids that were fetched at all. */
  function AttemptedIds(attempts: seq<Attempt>): set<Value> {
    set k | 0 <= k < |attempts| :: attempts[k].id
  }

  lemma {:induction false} SucceededAttempted(attempts: seq<Attempt>)
    ensures SucceededIds(attempts) <= AttemptedIds(attempts)
  {
    if attempts != [] {
      var init := attempts[..|attempts| - 1];
      SucceededAttempted(init);
      forall v | v in AttemptedIds(init) ensures v in AttemptedIds(attempts) {
        var k :| 0 <= k < |init| && init[k].id == v;
        assert attempts[k].id == v;
      }
      assert attempts[|attempts| - 1].id in AttemptedIds(attempts);
    }
  }

  lemma {:induction false} VisitsExtend(prior: seq<Attempt>, list: seq<Object>, fetch: (nat, Object, bool) -> Option<Object>)
    ensures prior <= VisitsFrom(prior, list, fetch)
  {
    if list != [] {
      VisitsExtend(prior, list[..|list| - 1], fetch);
    }
  }

  lemma VisitsSnoc(prior: seq<Attempt>, list: seq<Object>, j: nat, fetch: (nat, Object, bool) -> Option<Object>)
    requires j < |list|
    ensures VisitsFrom(prior, list[..j + 1], fetch) == VisitStep(VisitsFrom(prior, list[..j], fetch), list[j], fetch)
  {
    assert list[..j + 1][..j] == list[..j];
  }

  /** Each entry adds at most one fetch, always for an id of the list. */
  lemma {:induction false} VisitsBounded(prior: seq<Attempt>, list: seq<Object>, fetch: (nat, Object, bool) -> Option<Object>)
    ensures var r := VisitsFrom(prior, list, fetch);
            prior <= r && |r| <= |prior| + |list| &&
            forall k | |prior| <= k < |r| :: r[k].id in IdsOf(list)
  {
    if list != [] {
      var init := list[..|list| - 1];
      VisitsBounded(prior, init, fetch);
      var acc := VisitsFrom(prior, init, fetch);
      var r := VisitsFrom(prior, list, fetch);
      assert r == VisitStep(acc, list[|list| - 1], fetch);
      forall k | |prior| <= k < |r| ensures r[k].id in IdsOf(list) {
        if k < |acc| {
          assert r[k] == acc[k];
          var j :| 0 <= j < |init| && Records.BusinessId(init[j]) == acc[k].id;
          assert init[j] == list[j];
        } else {
          assert Records.BusinessId(list[|list| - 1]) == r[k].id;
        }
      }
    }
  }

  /**
   * No entry with an id is missed: after the loop every such id has been
   * fetched, now or in an earlier fetch that produced its record.
   */
  lemma {:induction false} VisitsCover(prior: seq<Attempt>, list: seq<Object>, fetch: (nat, Object, bool) -> Option<Object>, k: nat)
    requires k < |list| && Truthy(Records.BusinessId(list[k]))
    ensures Records.BusinessId(list[k]) in AttemptedIds(VisitsFrom(prior, list, fetch))
  {
    var init := list[..|list| - 1];
    var acc := VisitsFrom(prior, init, fetch);
    var after := VisitsFrom(prior, list, fetch);
    assert after == VisitStep(acc, list[|list| - 1], fetch);
    assert acc <= after;
    if k < |init| {
      assert init[k] == list[k];
      VisitsCover(prior, init, fetch, k);
    } else {
      SucceededAttempted(acc);
    }
    var id := Records.BusinessId(list[k]);
    assert id in AttemptedIds(acc) || after[|acc|].id == id;
    if id in AttemptedIds(acc) {
      var m :| 0 <= m < |acc| && acc[m].id == id;
      assert after[m].id == id;
    }
  }

  /** The ids of a page's business list. */
  function IdsOf(list: seq<Object>): set<Value> {
    set j | 0 <= j < |list| :: Records.BusinessId(list[j])
  }

  /**
   * The bookkeeping of the HTML-detail variants, where the first-detail flag
   * is computed from the counters.
   */
  class DetailRun {
    var visited: set<Value>
    var records: seq<Object>
    var success: nat
    var failed: nat
    ghost var attempts: seq<Attempt>

    ghost predicate Valid()
      reads this
    {
      Bookkept(visited, records, success, failed, attempts)
    }

    constructor ()
      ensures Valid() && attempts == []
    {
      visited := {};
      records := [];
      success := 0;
      failed := 0;
      attempts := [];
    }

    /**
     * One entry of the business list: skipped when it has no id or its id
     * already produced a record; otherwise fetched once, with the
     * first-detail flag set exactly when nothing has been fetched yet.
     */
    method Visit(biz: Object, fetch: (nat, Object, bool) -> Option<Object>)
      requires Valid()
      modifies this
      ensures Valid()
      ensures var id := Records.BusinessId(biz);
              if !Truthy(id) || id in old(visited) then attempts == old(attempts)
              else attempts == old(attempts) + [Attempt(id, old(attempts) == [], fetch(|old(attempts)|, biz, old(attempts) == []))]
    ensures attempts == VisitStep(old(attempts), biz, fetch)
    {
      var id := Records.BusinessId(biz);
      if !Truthy(id) || id in visited {
        return;
      }
      var first := success == 0 && failed == 0;
      var rec := fetch(success + failed, biz, first);
      Record(Attempt(id, first, rec));
    }

    /** Counting one fetch: a record marks its id visited, a failure counts as failed. */
    method Record(a: Attempt)
      requires Valid()
      requires a.first == (attempts == []) && Truthy(a.id) && a.id !in visited
      modifies this
      ensures Valid() && attempts == old(attempts) + [a]
    {
      BookkeptStep(visited, records, success, failed, attempts, a);
      var v, r, s, f := visited, records, success, failed;
      if a.record.Some? {
        v, r, s := v + {a.id}, r + [a.record.value], s + 1;
      } else {
        f := f + 1;
      }
      assert Bookkept(v, r, s, f, attempts + [a]);
      visited, records, success, failed, attempts := v, r, s, f, attempts + [a];
    }

    /** The detail loop over one page's business list. */
    method VisitAll(list: seq<Object>, fetch: (nat, Object, bool) -> Option<Object>)
      requires Valid()
      modifies this
      ensures Valid()
      ensures old(attempts) <= attempts && |attempts| <= |old(attempts)| + |list|
      ensures forall k | |old(attempts)| <= k < |attempts| :: attempts[k].id in IdsOf(list)
      ensures attempts == VisitsFrom(old(attempts), list, fetch)
    {
      for j := 0 to |list|
        invariant Valid()
        invariant attempts == VisitsFrom(old(attempts), list[..j], fetch)
      {
        Visit(list[j], fetch);
        VisitsSnoc(old(attempts), list, j, fetch);
      }
      assert list[..|list|] == list;
      VisitsBounded(old(attempts), list, fetch);
    }
  }

  /**
   * The bookkeeping of the variant that keeps an explicit first-detail flag
   * and clears it after the first fetch, whatever its outcome.
   */
  class FlaggedDetailRun {
    var visited: set<Value>
    var records: seq<Object>
    var success: nat
    var failed: nat
    var firstDetail: bool
    ghost var attempts: seq<Attempt>

    ghost predicate Valid()
      reads this
    {
      Bookkept(visited, records, success, failed, attempts) && firstDetail == (attempts == [])
    }

    constructor ()
      ensures Valid() && attempts == [] && firstDetail
    {
      visited := {};
      records := [];
      success := 0;
      failed := 0;
      firstDetail := true;
      attempts := [];
    }

    method Visit(biz: Object, fetch: (nat, Object, bool) -> Option<Object>)
      requires Valid()
      modifies this
      ensures Valid()
      ensures var id := Records.BusinessId(biz);
              if !Truthy(id) || id in old(visited) then attempts == old(attempts) && firstDetail == old(firstDetail)
              else attempts == old(attempts) + [Attempt(id, old(firstDetail), fetch(|old(attempts)|, biz, old(firstDetail)))] &&
                   !firstDetail
    {
      var id := Records.BusinessId(biz);
      if !Truthy(id) || id in visited {
        return;
      }
      var rec := fetch(success + failed, biz, firstDetail);
      Record(Attempt(id, firstDetail, rec));
    }

    /** Counting one fetch, and clearing the first-detail flag after the first. */
    method Record(a: Attempt)
      requires Valid()
      requires a.first == (attempts == []) && Truthy(a.id) && a.id !in visited
      modifies this
      ensures Valid() && attempts == old(attempts) + [a] && !firstDetail
    {
      BookkeptStep(visited, records, success, failed, attempts, a);
      var v, r, s, f := visited, records, success, failed;
      if a.record.Some? {
        v, r, s := v + {a.id}, r + [a.record.value], s + 1;
      } else {
        f := f + 1;
      }
      assert Bookkept(v, r, s, f, attempts + [a]);
      // clearing the flag once it has been passed, as the source does, leaves it false either way
      visited, records, success, failed, attempts, firstDetail := v, r, s, f, attempts + [a], false;
    }
  }

  // ---------------------------------------------------------------------
  // The in-browser API variant

  /** The fields taken straight from the Angular entry. */
  datatype ApiBase = ApiBase(businessID: Value, ubi: Value, name: Value, status: Value, kind: Value,
                             agentName: Value, email: Value, angular: Object)

  /**
   * One API record: the base fields, the raw BusinessInformation result when
   * it was fetched, and the BusinessInformation data when the fetch succeeded.
   */
  datatype ApiRecord = ApiRecord(base: ApiBase, infoResult: Option<Object>, info: Option<Value>)

  function BaseOf(biz: Object): ApiBase {
    ApiBase(Records.BusinessId(biz), Get(biz, "UBINumber"), Records.Field(biz, "BusinessName", "EntityName"),
            Records.Field(biz, "Status", "BusinessStatus"), Records.Field(biz, "Type", "BusinessType"),
            Get(biz, "AgentName"), Get(biz, "CorrespondenceEmailAddress"), biz)
  }

  /** `result.get("ok") and result.get("data") is not None`. */
  predicate Succeeded(result: Object) {
    Truthy(Get(result, "ok")) && Get(result, "data") != Null
  }

  /** Record `r` came from entry `biz`, fetching its BusinessInformation exactly when asked to and it has an id. */
  predicate RecordOf(r: ApiRecord, biz: Object, fetchInfo: bool) {
    r.base == BaseOf(biz) &&
    (r.infoResult.Some? <==> fetchInfo && Truthy(Records.BusinessId(biz))) &&
    (r.info.Some? <==> r.infoResult.Some? && Succeeded(r.infoResult.value)) &&
    (r.info.Some? ==> r.info.value == Get(r.infoResult.value, "data"))
  }

  /**
   * The last of `records` came from `biz`: when its BusinessInformation was
   * fetched, the result stored is the one the fetch returned for the
   * entry's id, made as the fetch numbered by the fetches before it.
   */
  predicate FetchedAs(records: seq<ApiRecord>, biz: Object, fetch: (nat, string) -> Object, idText: Value -> string)
  {
    records != [] &&
    var last := records[|records| - 1];
    last.infoResult.Some? ==>
      last.infoResult.value == fetch(Consulted(records[..|records| - 1]), idText(Records.BusinessId(biz)))
  }

  /** One entry of the BusinessInformation-only file. */
  datatype BiEntry = BiEntry(businessID: Value, businessInformation: Value)

  /** The BusinessInformation-only list: the records that carry the data, in order. */
  function BiOnly(records: seq<ApiRecord>): (r: seq<BiEntry>)
    ensures |r| <= |records|
  {
    if records == [] then []
    else
      var last := records[|records| - 1];
      BiOnly(records[..|records| - 1]) +
        (if last.info.Some? then [BiEntry(last.base.businessID, last.info.value)] else [])
  }

  /** Records whose BusinessInformation was fetched. */
  function Consulted(records: seq<ApiRecord>): nat {
    if records == [] then 0
    else Consulted(records[..|records| - 1]) + (if records[|records| - 1].infoResult.Some? then 1 else 0)
  }

  /** The BusinessInformation-only list has one entry per record with data, and only those. */
  lemma {:induction false} BiOnlyExact(records: seq<ApiRecord>, e: BiEntry)
    ensures e in BiOnly(records) <==>
              exists r | r in records :: r.info.Some? && e == BiEntry(r.base.businessID, r.info.value)
  {
    if records != [] {
      var init := records[..|records| - 1];
      BiOnlyExact(init, e);
      assert records == init + [records[|records| - 1]];
    }
  }

  /** After `j` entries of `list`, `records` extends `prior` by one record per entry, each fetched as its entry says. */
  ghost predicate Collected(prior: seq<ApiRecord>, records: seq<ApiRecord>, list: seq<Object>, j: nat, fetchInfo: bool,
                            fetch: (nat, string) -> Object, idText: Value -> string)
  {
    j <= |list| && |records| == |prior| + j && records[..|prior|] == prior &&
    (forall k | 0 <= k < j :: RecordOf(records[|prior| + k], list[k], fetchInfo)) &&
    (forall k | 0 <= k < j :: FetchedAs(records[..|prior| + k + 1], list[k], fetch, idText))
  }

  lemma CollectedStep(prior: seq<ApiRecord>, before: seq<ApiRecord>, after: seq<ApiRecord>, list: seq<Object>, j: nat,
                      fetchInfo: bool, fetch: (nat, string) -> Object, idText: Value -> string)
    requires j < |list| && Collected(prior, before, list, j, fetchInfo, fetch, idText)
    requires |after| == |before| + 1 && after[..|before|] == before
    requires RecordOf(after[|before|], list[j], fetchInfo) && FetchedAs(after, list[j], fetch, idText)
    ensures Collected(prior, after, list, j + 1, fetchInfo, fetch, idText)
  {
    assert after[..|prior|] == before[..|prior|];
    forall k | 0 <= k < j + 1
      ensures RecordOf(after[|prior| + k], list[k], fetchInfo)
      ensures FetchedAs(after[..|prior| + k + 1], list[k], fetch, idText)
    {
      if k < j {
        assert after[|prior| + k] == before[|prior| + k];
        assert after[..|prior| + k + 1] == before[..|prior| + k + 1];
      } else {
        assert after[..|prior| + k + 1] == after;
      }
    }
  }

  /** The counters of the API variant for one keyword. */
  class ApiRun {
    var apiSuccess: nat
    var detailsSuccess: nat
    var detailsFailed: nat
    var apiRecords: seq<ApiRecord>

    /** Every entry counted once, every fetch counted as a success or a failure. */
    ghost predicate Valid()
      reads this
    {
      apiSuccess == |apiRecords| &&
      detailsSuccess == |BiOnly(apiRecords)| &&
      detailsSuccess + detailsFailed == Consulted(apiRecords)
    }

    constructor ()
      ensures Valid() && apiRecords == []
    {
      apiSuccess := 0;
      detailsSuccess := 0;
      detailsFailed := 0;
      apiRecords := [];
    }

    /**
     * The API loop over one page's business list: one record per entry, a
     * BusinessInformation fetch for each entry with an id when the feature
     * is on, a success only when the fetch says ok and carries data.
     */
    method CollectPage(list: seq<Object>, fetchInfo: bool, fetch: (nat, string) -> Object, idText: Value -> string)
      requires Valid()
      modifies this
      ensures Valid()
      ensures |apiRecords| == |old(apiRecords)| + |list| && apiRecords[..|old(apiRecords)|] == old(apiRecords)
      ensures forall k | 0 <= k < |list| :: RecordOf(apiRecords[|old(apiRecords)| + k], list[k], fetchInfo)
      ensures forall k | 0 <= k < |list| :: FetchedAs(apiRecords[..|old(apiRecords)| + k + 1], list[k], fetch, idText)
      ensures !fetchInfo ==> detailsSuccess == old(detailsSuccess) && detailsFailed == old(detailsFailed)
    {
      for j := 0 to |list|
        invariant Valid()
        invariant Collected(old(apiRecords), apiRecords, list, j, fetchInfo, fetch, idText)
        invariant !fetchInfo ==> detailsSuccess == old(detailsSuccess) && detailsFailed == old(detailsFailed)
      {
        ghost var before := apiRecords;
        Collect(list[j], fetchInfo, fetch, idText);
        CollectedStep(old(apiRecords), before, apiRecords, list, j, fetchInfo, fetch, idText);
      }
    }

    /** One entry of the API loop. */
    method Collect(biz: Object, fetchInfo: bool, fetch: (nat, string) -> Object, idText: Value -> string)
      requires Valid()
      modifies this
      ensures Valid()
      ensures |apiRecords| == |old(apiRecords)| + 1 && apiRecords[..|old(apiRecords)|] == old(apiRecords)
      ensures RecordOf(apiRecords[|old(apiRecords)|], biz, fetchInfo)
      ensures FetchedAs(apiRecords, biz, fetch, idText)
      ensures !fetchInfo ==> detailsSuccess == old(detailsSuccess) && detailsFailed == old(detailsFailed)
    {
      var id := Records.BusinessId(biz);
      var infoResult: Option<Object> := None;
      var info: Option<Value> := None;
      var succeeded, failed := detailsSuccess, detailsFailed;
      ghost var consulted := succeeded + failed;
      if fetchInfo && Truthy(id) {
        var result := fetch(succeeded + failed, idText(id));
        infoResult := Some(result);
        if Succeeded(result) {
          info := Some(Get(result, "data"));
          succeeded := succeeded + 1;
        } else {
          failed := failed + 1;
        }
      }
      var r := ApiRecord(BaseOf(biz), infoResult, info);
      assert RecordOf(r, biz, fetchInfo);
      AppendRecord(apiRecords, r);
      FetchedLast(apiRecords, r, biz, fetch, idText, consulted);
      apiSuccess, detailsSuccess, detailsFailed, apiRecords := apiSuccess + 1, succeeded, failed, apiRecords + [r];
    }
  }

  lemma FetchedLast(records: seq<ApiRecord>, r: ApiRecord, biz: Object, fetch: (nat, string) -> Object,
                    idText: Value -> string, consulted: nat)
    requires consulted == Consulted(records)
    requires r.infoResult.Some? ==> r.infoResult.value == fetch(consulted, idText(Records.BusinessId(biz)))
    ensures FetchedAs(records + [r], biz, fetch, idText)
  {
    assert (records + [r])[..|records|] == records;
  }

  lemma AppendRecord(records: seq<ApiRecord>, r: ApiRecord)
    ensures BiOnly(records + [r]) == BiOnly(records) + (if r.info.Some? then [BiEntry(r.base.businessID, r.info.value)] else [])
    ensures Consulted(records + [r]) == Consulted(records) + (if r.infoResult.Some? then 1 else 0)
  {
    assert (records + [r])[..|records|] == records;
  }

  // ---------------------------------------------------------------------
  // Search-form retries

  /** Seconds per attempt in the backoff of most scrapers... */
  const BackoffUnit: nat := 5
  /** ...and in the two variants that wait longer. */
  const LongBackoffUnit: nat := 10

  /**
   * Three attempts at filling the search form; after failed attempt `a`
   * (below the third) the scraper waits `unit * a` seconds. The form is
   * filled exactly when some attempt succeeds, the waits are those of the
   * failed attempts before it, and the keyword is given up after the third.
   */
  method SubmitForm(fill: nat -> bool, unit: nat) returns (ok: bool, waits: seq<nat>)
    ensures ok <==> fill(1) || fill(2) || fill(3)
    ensures |waits| <= 2 && forall i | 0 <= i < |waits| :: waits[i] == unit * (i + 1) && !fill(i + 1)
    ensures ok ==> fill(|waits| + 1)
    ensures !ok ==> |waits| == 2
  {
    waits := [];
    var attempt := 1;
    while true
      invariant 1 <= attempt <= 3 && |waits| == attempt - 1
      invariant forall i | 0 <= i < |waits| :: waits[i] == unit * (i + 1) && !fill(i + 1)
      decreases 3 - attempt
    {
      if fill(attempt) {
        return true, waits;
      }
      if attempt >= 3 {
        assert waits[0] == unit * 1 && !fill(1);
        assert waits[1] == unit * 2 && !fill(2);
        return false, waits;
      }
      waits := waits + [unit * attempt];
      assert waits[attempt - 1] == unit * ((attempt - 1) + 1) && !fill((attempt - 1) + 1);
      attempt := attempt + 1;
    }
  }
}

// Building a business record: the skeleton taken from the Angular
// `businessList` entry, the registered agent read from the same entry, and
// how those Angular values fill blanks in the fields parsed from the
// Business Information page.
module Records {
  import opened Wrappers
  import opened Json

  /** `biz.get("BusinessID") or biz.get("ID")`. */
  function BusinessId(biz: Object): Value {
    Or(Get(biz, "BusinessID"), Get(biz, "ID"))
  }

  /** `biz.get(primary) or biz.get(fallback)`. */
  function Field(biz: Object, primary: string, fallback: string): (r: Value)
    ensures Truthy(r) <==> Truthy(Get(biz, primary)) || Truthy(Get(biz, fallback))
    ensures r == Get(biz, primary) || r == Get(biz, fallback)
  {
    Or(Get(biz, primary), Get(biz, fallback))
  }

  const SkeletonKeys: set<string> := {"BusinessID", "UBINumber", "BusinessName", "BusinessStatus", "BusinessType"}

  /**
   * The record skeleton of the HTML detail fetch: no record for an entry
   * without an id; otherwise the id, the UBI number and the name, status
   * and type, each from its own key or, when that is blank, its alternative.
   */
  function Skeleton(biz: Object): (r: Option<Object>)
    ensures r.Some? <==> Truthy(BusinessId(biz))
    ensures r.Some? ==> r.value.Keys == SkeletonKeys
    ensures r.Some? ==> Truthy(r.value["BusinessID"]) && r.value["UBINumber"] == Get(biz, "UBINumber")
    ensures r.Some? ==>
              (Truthy(r.value["BusinessName"]) <==> Truthy(Get(biz, "BusinessName")) || Truthy(Get(biz, "EntityName")))
    ensures r.Some? ==>
      r.value["BusinessID"] == (if Truthy(Get(biz, "BusinessID")) then Get(biz, "BusinessID") else Get(biz, "ID"))
    ensures r.Some? ==>
      r.value["BusinessName"] == (if Truthy(Get(biz, "BusinessName")) then Get(biz, "BusinessName") else Get(biz, "EntityName"))
    ensures r.Some? ==>
      r.value["BusinessStatus"] == (if Truthy(Get(biz, "BusinessStatus")) then Get(biz, "BusinessStatus") else Get(biz, "Status"))
    ensures r.Some? ==>
      r.value["BusinessType"] == (if Truthy(Get(biz, "BusinessType")) then Get(biz, "BusinessType") else Get(biz, "Type"))
  {
    var id := BusinessId(biz);
    if !Truthy(id) then None
    else Some(map[
      "BusinessID" := id,
      "UBINumber" := Get(biz, "UBINumber"),
      "BusinessName" := Field(biz, "BusinessName", "EntityName"),
      "BusinessStatus" := Field(biz, "BusinessStatus", "Status"),
      "BusinessType" := Field(biz, "BusinessType", "Type")])
  }

  /** The status as the HTML detail fetch reads it: `BusinessStatus or Status`. */
  function DetailStatus(biz: Object): Value {
    Field(biz, "BusinessStatus", "Status")
  }

  /** The status as the in-browser API variant reads it: `Status or BusinessStatus`. */
  function ApiStatus(biz: Object): Value {
    Field(biz, "Status", "BusinessStatus")
  }

  /**
   * The two variants agree whenever exactly one of the two keys holds a
   * value; when both do, each variant takes its own first key, so they
   * agree exactly when the two values are equal.
   */
  lemma StatusOrderAgrees(biz: Object)
    ensures Truthy(Get(biz, "Status")) != Truthy(Get(biz, "BusinessStatus")) ==> DetailStatus(biz) == ApiStatus(biz)
    ensures Truthy(Get(biz, "Status")) && Truthy(Get(biz, "BusinessStatus")) ==>
              DetailStatus(biz) == Get(biz, "BusinessStatus") && ApiStatus(biz) == Get(biz, "Status") &&
              (DetailStatus(biz) == ApiStatus(biz) <==> Get(biz, "Status") == Get(biz, "BusinessStatus"))
  {
  }

  /** The agent as the Angular entry describes it. */
  datatype AgentValues = AgentValues(name: Value, street: Value, mailing: Value)

  /** `(d.get(k) or {})`, kept only when it is a dict. */
  function SubObject(v: Value): Option<Object> {
    var w := Or(v, Empty);
    if w.Obj? then Some(w.fields) else None
  }

  function FullAddress(agent: Object, k: string): Value {
    match SubObject(Get(agent, k))
    case Some(addr) => Get(addr, "FullAddress")
    case None => Null
  }

  /**
   * The Angular agent fallback: the agent name as given, and each address
   * from the nested `FullAddress` when the agent and that address are dicts.
   */
  function AngularAgent(biz: Object): AgentValues {
    var name := Get(biz, "AgentName");
    match SubObject(Get(biz, "Agent"))
    case Some(agent) => AgentValues(name, FullAddress(agent, "StreetAddress"), FullAddress(agent, "MailingAddress"))
    case None => AgentValues(name, Null, Null)
  }

  /**
   * The street address is the nested `FullAddress` exactly when the agent and
   * its street address are dicts, and None otherwise; likewise the mailing
   * address.
   */
  lemma AngularAgentAddress(biz: Object)
    ensures var agent := Get(biz, "Agent");
            var street := if agent.Obj? then Get(agent.fields, "StreetAddress") else Null;
            var mailing := if agent.Obj? then Get(agent.fields, "MailingAddress") else Null;
            AngularAgent(biz).street == (if street.Obj? then Get(street.fields, "FullAddress") else Null) &&
            AngularAgent(biz).mailing == (if mailing.Obj? then Get(mailing.fields, "FullAddress") else Null)
  {
    var agent := Get(biz, "Agent");
    if agent.Obj? && agent.fields == map[] {
      assert SubObject(agent) == Some(map[]);
    }
    if agent.Obj? {
      var street := Get(agent.fields, "StreetAddress");
      var mailing := Get(agent.fields, "MailingAddress");
      if street.Obj? && street.fields == map[] {
        assert Get(street.fields, "FullAddress") == Null;
      }
      if mailing.Obj? && mailing.fields == map[] {
        assert Get(mailing.fields, "FullAddress") == Null;
      }
    }
  }

  const AgentKeys: set<string> := {"agent_name", "agent_street", "agent_mailing"}

  function AngularValue(angular: AgentValues, k: string): Value {
    if k == "agent_name" then angular.name
    else if k == "agent_street" then angular.street
    else if k == "agent_mailing" then angular.mailing
    else Null
  }

  /** Whether the fallback replaces the parsed field `k`. */
  predicate Replaces(detail: Object, angular: AgentValues, k: string) {
    k in AgentKeys && !Truthy(Get(detail, k)) && Truthy(AngularValue(angular, k))
  }

  /** The parsed fields after the fallback. */
  function Filled(detail: Object, angular: AgentValues): Object {
    map k | k in detail.Keys + AgentKeys && (k in detail || Replaces(detail, angular, k)) ::
      if Replaces(detail, angular, k) then AngularValue(angular, k) else detail[k]
  }

  /**
   * The agent fallback: each blank agent field of the parsed page is filled
   * from the Angular value when that value is not blank.
   */
  method AgentFallback(detail: Object, angular: AgentValues) returns (merged: Object)
    ensures merged == Filled(detail, angular)
  {
    merged := detail;
    if !Truthy(Get(merged, "agent_name")) && Truthy(angular.name) {
      merged := merged["agent_name" := angular.name];
    }
    assert Agrees(merged, detail, angular, {"agent_name"});
    if !Truthy(Get(merged, "agent_street")) && Truthy(angular.street) {
      merged := merged["agent_street" := angular.street];
    }
    assert Agrees(merged, detail, angular, {"agent_name", "agent_street"});
    if !Truthy(Get(merged, "agent_mailing")) && Truthy(angular.mailing) {
      merged := merged["agent_mailing" := angular.mailing];
    }
    assert Agrees(merged, detail, angular, AgentKeys);
    FilledAgrees(merged, detail, angular);
  }

  /** `m` is `detail` with the fallback applied to the fields in `done` so far. */
  ghost predicate Agrees(m: Object, detail: Object, angular: AgentValues, done: set<string>) {
    forall k :: (k in m <==> k in detail || (k in done && Replaces(detail, angular, k))) &&
                (k in m ==> m[k] == if k in done && Replaces(detail, angular, k) then AngularValue(angular, k) else detail[k])
  }

  lemma FilledAgrees(m: Object, detail: Object, angular: AgentValues)
    requires Agrees(m, detail, angular, AgentKeys)
    ensures m == Filled(detail, angular)
  {
    var f := Filled(detail, angular);
    assert forall k :: k in m <==> k in f;
    assert forall k | k in m :: m[k] == f[k];
  }

  /**
   * A field is replaced only when the parsed value is blank and the Angular
   * value is not; every other field, and every field outside the three agent
   * fields, keeps its parsed value.
   */
  lemma FilledFields(detail: Object, angular: AgentValues, k: string)
    ensures Replaces(detail, angular, k) ==> Get(Filled(detail, angular), k) == AngularValue(angular, k)
    ensures !Replaces(detail, angular, k) ==> Get(Filled(detail, angular), k) == Get(detail, k)
    ensures Truthy(Get(Filled(detail, angular), k)) <==>
              Truthy(Get(detail, k)) || (k in AgentKeys && Truthy(AngularValue(angular, k)))
  {
  }

  /** Running the fallback a second time with the same Angular values changes nothing. */
  lemma FilledIdempotent(detail: Object, angular: AgentValues)
    ensures Filled(Filled(detail, angular), angular) == Filled(detail, angular)
  {
    var once := Filled(detail, angular);
    forall k | k in AgentKeys
      ensures !Replaces(once, angular, k)
    {
      FilledFields(detail, angular, k);
    }
    assert Filled(once, angular) == once;
  }

  /**
   * The agent fields of the newer page parser: each the value next to its
   * label in the agent block, or "" when the label is missing; all "" when
   * there is no agent block.
   */
  function LabelValue(block: map<string, string>, caption: string): string {
    if caption in block then block[caption] else ""
  }

  function AgentFields(block: Option<map<string, string>>): (r: (string, string, string))
  {
    match block
    case None => ("", "", "")
    case Some(b) =>
      (LabelValue(b, "Registered Agent Name:"), LabelValue(b, "Street Address:"), LabelValue(b, "Mailing Address:"))
  }

  /** A missing agent block reads the same as a block without any of the three labels. */
  lemma MissingBlockIsUnlabelled(b: map<string, string>)
    requires "Registered Agent Name:" !in b && "Street Address:" !in b && "Mailing Address:" !in b
    ensures AgentFields(None) == AgentFields(Some(b)) == ("", "", "")
  {
  }
}

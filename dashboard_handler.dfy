/**
 * The dashboard service's Lambda handler (lexflow-dashboard/handler.py): the
 * router over method and path, the dashboard summary, the case detail
 * lookup and the status update. The intake service's `lambda_handler`
 * (lexflow-intake/handler.py) runs the same scan-then-aggregate code as
 * `handle_dashboard`, so `HandleDashboard` models both.
 *
 * A reply is the status code and the body before `json.dumps`; an exception
 * that no handler catches is an `Unhandled` reply. The JSON parser and the
 * clock are inputs, and `Faults` says which store call raises.
 */
module DashboardHandler {
  import opened Wrappers
  import opened Json
  import PyStr
  import Aggregation
  import RecordStore

  const VALID_STATUSES: set<string> := {"active", "declined", "needs_review", "new", "claimed", "closed"}

  const CASE_PREFIX: string := "/case/"
  const STATUS_SUFFIX: string := "/status"

  /** An exception that reaches the Lambda runtime. */
  datatype Crash =
    /** `.get` or `.strip` on something that is not a dict or a string. */
    | AttributeError(what: string)
    /** `json.loads` on a body that is not a string. */
    | TypeError(what: string)
    /** An exception raised inside the aggregation. */
    | AggregationFailed(error: Aggregation.AggError)

  /** The dict a `_response` is built from. */
  datatype Body =
    | NoContent
    | ErrorMessage(text: string)
    /** "Invalid status '...'. Must be one of: ..." for the normalised status. */
    | InvalidStatus(status: string)
    /** "Route not found: {method} {path}". */
    | RouteNotFound(verb: Value, path: Value)
    | SummaryBody(summary: Aggregation.Summary)
    | RecordBody(record: Record)
    | StatusChanged(intakeId: string, status: string, message: string)

  datatype Reply = Http(statusCode: int, body: Body) | Unhandled(crash: Crash)

  /** Which store call raises a `ClientError`, and with which code. */
  datatype Faults = Faults(scan: Option<RecordStore.Fault>, get: Option<string>, update: Option<string>)

  // ---------------------------------------------------------------------------
  // Routing
  // ---------------------------------------------------------------------------

  datatype Route =
    | Preflight
    | Dashboard
    | CaseDetail(intakeId: string)
    | StatusUpdate(intakeId: string)
    | NotFound

  /** `path.split("/case/")[1]`: there is always such a piece, since the path starts with the separator. */
  function CaseSegment(path: string): string
    requires PyStr.StartsWith(path, CASE_PREFIX)
  {
    PyStr.SplitLeadingSeparator(path, CASE_PREFIX);
    PyStr.Split(path, CASE_PREFIX)[1]
  }

  /** The dispatch of lines 160-181 on the method and the raw path. */
  function RouteOf(verb: Value, path: Value): (r: Result<Route, Crash>)
    ensures r == Success(Preflight) <==> verb == JString("OPTIONS")
    ensures r.Success? && r.value.CaseDetail? ==>
      && verb == JString("GET") && path.JString?
      && PyStr.StartsWith(path.s, CASE_PREFIX) && !PyStr.EndsWith(path.s, STATUS_SUFFIX)
    ensures r.Success? && r.value.StatusUpdate? ==>
      && verb == JString("POST") && path.JString?
      && PyStr.StartsWith(path.s, CASE_PREFIX) && PyStr.EndsWith(path.s, STATUS_SUFFIX)
    ensures r.Failure? <==> verb != JString("OPTIONS") && !(path == JString("/dashboard") && verb == JString("GET")) && !path.JString?
  {
    if verb == JString("OPTIONS") then Success(Preflight)
    else if path == JString("/dashboard") && verb == JString("GET") then Success(Dashboard)
    else if !path.JString? then Failure(AttributeError("startswith"))
    else
      var p := path.s;
      if PyStr.StartsWith(p, CASE_PREFIX) && verb == JString("GET") && !PyStr.EndsWith(p, STATUS_SUFFIX) then
        Success(CaseDetail(CaseSegment(p)))
      else if PyStr.StartsWith(p, CASE_PREFIX) && PyStr.EndsWith(p, STATUS_SUFFIX) && verb == JString("POST") then
        Success(StatusUpdate(PyStr.Replace(CaseSegment(p), STATUS_SUFFIX, "")))
      else Success(NotFound)
  }

  /** `event.get("requestContext", {}).get("http", {}).get("method", "GET")`. */
  function MethodOf(event: Record): (r: Result<Value, Crash>)
    ensures "requestContext" !in event ==> r == Success(JString("GET"))
    ensures r.Failure? ==> r.error == AttributeError("get")
    ensures r.Failure? <==>
      || ("requestContext" in event && !event["requestContext"].JObject?)
      || ("requestContext" in event && event["requestContext"].JObject?
          && "http" in event["requestContext"].fields && !event["requestContext"].fields["http"].JObject?)
    ensures "requestContext" in event && event["requestContext"].JObject? && "http" !in event["requestContext"].fields ==>
      r == Success(JString("GET"))
    ensures ("requestContext" in event && event["requestContext"].JObject?
      && "http" in event["requestContext"].fields && event["requestContext"].fields["http"].JObject?
      && "method" !in event["requestContext"].fields["http"].fields) ==>
      r == Success(JString("GET"))
    ensures ("requestContext" in event && event["requestContext"].JObject?
      && "http" in event["requestContext"].fields && event["requestContext"].fields["http"].JObject?
      && "method" in event["requestContext"].fields["http"].fields) ==>
      r == Success(event["requestContext"].fields["http"].fields["method"])
  {
    var context := Get(event, "requestContext", JObject(map[]));
    if !context.JObject? then Failure(AttributeError("get"))
    else
      var http := Get(context.fields, "http", JObject(map[]));
      if !http.JObject? then Failure(AttributeError("get"))
      else Success(Get(http.fields, "method", JString("GET")))
  }

  /** `event.get("rawPath", "/dashboard")`. */
  function PathOf(event: Record): (v: Value)
    ensures "rawPath" in event ==> v == event["rawPath"]
    ensures "rawPath" !in event ==> v == JString("/dashboard")
  {
    Get(event, "rawPath", JString("/dashboard"))
  }

  /** The route an event takes. */
  function EventRoute(event: Record): (r: Result<Route, Crash>)
    ensures r == Success(Preflight) <==> MethodOf(event) == Success(JString("OPTIONS"))
    ensures r.Failure? ==> MethodOf(event).Failure? || !PathOf(event).JString?
    ensures r.Success? && (r.value.CaseDetail? || r.value.StatusUpdate?) ==>
      PathOf(event).JString? && PyStr.StartsWith(PathOf(event).s, CASE_PREFIX)
  {
    match MethodOf(event)
    case Failure(e) => Failure(e)
    case Success(verb) => RouteOf(verb, PathOf(event))
  }

  /** An event without method or path is a request for the dashboard. */
  lemma DefaultsRouteToDashboard()
    ensures EventRoute(map[]) == Success(Dashboard)
  {
  }

  /** An OPTIONS request is a preflight, whatever its path. */
  lemma OptionsIsPreflight(path: Value)
    ensures RouteOf(JString("OPTIONS"), path) == Success(Preflight)
  {
  }

  /** An occurrence of a separator that begins with '/' starts at a '/' and matches it character by character. */
  lemma OccurrenceStartsAtSlash(s: string, sep: string, i: nat)
    requires |sep| > 0 && sep[0] == '/' && PyStr.OccursAt(s, sep, i)
    ensures s[i] == '/'
    ensures forall k :: 0 <= k < |sep| ==> s[i + k] == sep[k]
  {
    forall k | 0 <= k < |sep|
      ensures s[i + k] == sep[k]
    {
      assert s[i..i + |sep|][k] == s[i + k];
    }
  }

  /** An id without '/' contains neither separator. */
  lemma SlashFreeAvoids(id: string, sep: string)
    requires |sep| > 0 && sep[0] == '/' && forall k :: 0 <= k < |id| ==> id[k] != '/'
    ensures !PyStr.Contains(id, sep)
  {
    forall i: nat | PyStr.OccursAt(id, sep, i)
      ensures false
    {
      OccurrenceStartsAtSlash(id, sep, i);
    }
  }

  /**
   * `GET /case/X` reaches the detail handler with id X, for any id without
   * '/' that does not make the path end in "/status" (only the id "status" does).
   */
  lemma CaseDetailRoute(id: string)
    requires forall k :: 0 <= k < |id| ==> id[k] != '/'
    requires !PyStr.EndsWith(CASE_PREFIX + id, STATUS_SUFFIX)
    ensures RouteOf(JString("GET"), JString(CASE_PREFIX + id)) == Success(CaseDetail(id))
  {
    var p := CASE_PREFIX + id;
    assert PyStr.StartsWith(p, CASE_PREFIX);
    assert p[1] == 'c' && "/dashboard"[1] == 'd';
    SlashFreeAvoids(id, CASE_PREFIX);
    PyStr.SplitAfterLeadingSeparator(CASE_PREFIX, id);
  }

  /** The slash-free id followed by "/status" splits at the suffix only. */
  lemma RemoveStatusSuffix(id: string)
    requires forall k :: 0 <= k < |id| ==> id[k] != '/'
    ensures !PyStr.Contains(id + STATUS_SUFFIX, CASE_PREFIX)
    ensures PyStr.Replace(id + STATUS_SUFFIX, STATUS_SUFFIX, "") == id
  {
    var s := id + STATUS_SUFFIX;
    assert forall k :: 0 <= k < |id| ==> s[k] == id[k];
    assert forall k :: |id| < k < |s| ==> s[k] != '/';
    assert s[|id| + 1] == 's';
    forall i: nat | PyStr.OccursAt(s, CASE_PREFIX, i)
      ensures false
    {
      OccurrenceStartsAtSlash(s, CASE_PREFIX, i);
    }
    forall i: nat | i < |id|
      ensures !PyStr.OccursAt(s, STATUS_SUFFIX, i)
    {
      if PyStr.OccursAt(s, STATUS_SUFFIX, i) {
        OccurrenceStartsAtSlash(s, STATUS_SUFFIX, i);
      }
    }
    assert s[|id|..|id| + |STATUS_SUFFIX|] == STATUS_SUFFIX;
    assert PyStr.OccursAt(s, STATUS_SUFFIX, |id|);
    var found := PyStr.FindFrom(s, STATUS_SUFFIX, 0);
    assert found.Some?;
    assert !(found.value < |id|);
    assert found == Some(|id|);
    assert PyStr.Find(s, STATUS_SUFFIX) == Some(|id|);
    assert s[..|id|] == id;
    assert s[|id| + |STATUS_SUFFIX|..] == "";
    assert PyStr.Find("", STATUS_SUFFIX) == None;
    assert PyStr.Split("", STATUS_SUFFIX) == [""];
    assert PyStr.Split(s, STATUS_SUFFIX) == [id] + [""];
    assert PyStr.Join([id, ""], "") == id + "" + PyStr.Join([""], "");
    assert [id, ""][1..] == [""];
  }

  /** `POST /case/X/status` reaches the status update with id X, for any id without '/'. */
  lemma StatusUpdateRoute(id: string)
    requires forall k :: 0 <= k < |id| ==> id[k] != '/'
    ensures RouteOf(JString("POST"), JString(CASE_PREFIX + id + STATUS_SUFFIX)) == Success(StatusUpdate(id))
  {
    var p := CASE_PREFIX + id + STATUS_SUFFIX;
    assert p == CASE_PREFIX + (id + STATUS_SUFFIX);
    assert PyStr.StartsWith(p, CASE_PREFIX);
    assert p[|p| - |STATUS_SUFFIX|..] == STATUS_SUFFIX;
    RemoveStatusSuffix(id);
    PyStr.SplitAfterLeadingSeparator(CASE_PREFIX, id + STATUS_SUFFIX);
  }

  /**
   * A string path is not found exactly when it matches none of the four
   * routes: not a preflight, not `GET /dashboard`, not a GET under /case/
   * without the status suffix, and not a POST under /case/ with it.
   */
  lemma OtherRequestsNotFound(verb: Value, path: string)
    ensures RouteOf(verb, JString(path)) == Success(NotFound) <==>
      && verb != JString("OPTIONS")
      && !(path == "/dashboard" && verb == JString("GET"))
      && !(PyStr.StartsWith(path, CASE_PREFIX) && verb == JString("GET") && !PyStr.EndsWith(path, STATUS_SUFFIX))
      && !(PyStr.StartsWith(path, CASE_PREFIX) && verb == JString("POST") && PyStr.EndsWith(path, STATUS_SUFFIX))
  {
  }

  /** A status path asked for with any method but POST (or OPTIONS) is not found: `GET /case/X/status` is a 404. */
  lemma StatusPathNeedsPost(verb: Value, id: string)
    requires verb != JString("OPTIONS") && verb != JString("POST")
    ensures RouteOf(verb, JString(CASE_PREFIX + id + STATUS_SUFFIX)) == Success(NotFound)
  {
    var p := CASE_PREFIX + id + STATUS_SUFFIX;
    assert p[1] == 'c' && "/dashboard"[1] == 'd';
    assert p[|p| - |STATUS_SUFFIX|..] == STATUS_SUFFIX;
  }

  /** A case path without the status suffix asked for with any method but GET (or OPTIONS) is not found: `POST /case/X` is a 404. */
  lemma CasePathNeedsGet(verb: Value, id: string)
    requires verb != JString("OPTIONS") && verb != JString("GET")
    requires !PyStr.EndsWith(CASE_PREFIX + id, STATUS_SUFFIX)
    ensures RouteOf(verb, JString(CASE_PREFIX + id)) == Success(NotFound)
  {
  }

  // ---------------------------------------------------------------------------
  // The status update
  // ---------------------------------------------------------------------------

  /**
   * `s.strip().lower()`: the characters of the stripped text, in order, each
   * lower-cased; no capital letter and no surrounding whitespace is left.
   */
  function Normalise(s: string): (r: string)
    ensures |r| <= |s| && |r| == |PyStr.Strip(s)|
    ensures forall i :: 0 <= i < |r| ==> r[i] == PyStr.LowerChar(s[PyStr.Lead(s) + i])
    ensures forall i :: 0 <= i < |r| ==> !('A' <= r[i] <= 'Z')
    ensures PyStr.Strip(r) == r
  {
    var t := PyStr.Strip(s);
    PyStr.StripIdempotent(s);
    PyStr.LowerKeepsStripped(t);
    PyStr.LowerHasNoCapitals(t);
    PyStr.Lower(t)
  }

  /** Normalising twice is normalising once; every valid status is already normal. */
  lemma NormaliseIdempotent(s: string)
    ensures Normalise(Normalise(s)) == Normalise(s)
  {
    PyStr.LowerIdempotent(PyStr.Strip(s));
  }

  /** Surrounding whitespace and capitals do not make a status invalid. */
  lemma NormaliseExample()
    ensures Normalise(" Needs_Review\n") == "needs_review" && Normalise(" Needs_Review\n") in VALID_STATUSES
  {
    StripExample();
    LowerExample();
  }

  lemma LowerExample()
    ensures PyStr.Lower("Needs_Review") == "needs_review"
  {
    var l := PyStr.Lower("Needs_Review");
    var t := "needs_review";
    assert |l| == |t| == 12;
    assert l[0] == t[0] && l[1] == t[1] && l[2] == t[2] && l[3] == t[3];
    assert l[4] == t[4] && l[5] == t[5] && l[6] == t[6] && l[7] == t[7];
    assert l[8] == t[8] && l[9] == t[9] && l[10] == t[10] && l[11] == t[11];
    assert forall i | 0 <= i < 12 :: l[i] == t[i];
  }

  /** The whitespace around the status is dropped, the letters are kept. */
  lemma StripExample()
    ensures PyStr.Strip(" Needs_Review\n") == "Needs_Review"
  {
    var s := " Needs_Review\n";
    assert PyStr.IsSpace(s[0]) && !PyStr.IsSpace(s[1]);
    assert PyStr.Lead(s) == 1;
    assert PyStr.IsSpace(s[13]) && !PyStr.IsSpace(s[12]);
    assert PyStr.BackSpace(s, 1, 13) == 13;
    assert s[1..13] == "Needs_Review";
  }

  /** What the request body asks for: the normalised status and the stripped note. */
  datatype StatusRequest = StatusRequest(status: string, note: string)

  /** Lines 124-125: both `.get` calls and both `.strip` calls, which raise on a body that is not a dict or on non-string fields. */
  function ReadStatusRequest(body: Value): (r: Result<StatusRequest, Crash>)
    ensures r.Success? <==> (body.JObject?
      && Get(body.fields, "status", JString("")).JString? && Get(body.fields, "note", JString("")).JString?)
    ensures r.Success? ==> r.value.status == Normalise(Get(body.fields, "status", JString("")).s)
    ensures r.Success? ==> r.value.note == PyStr.Strip(Get(body.fields, "note", JString("")).s)
  {
    if !body.JObject? then Failure(AttributeError("get"))
    else
      var status := Get(body.fields, "status", JString(""));
      if !status.JString? then Failure(AttributeError("strip"))
      else
        var note := Get(body.fields, "note", JString(""));
        if !note.JString? then Failure(AttributeError("strip"))
        else Success(StatusRequest(Normalise(status.s), PyStr.Strip(note.s)))
  }

  /** A body without a status asks for the empty status, which is invalid. */
  lemma MissingStatusIsInvalid()
    ensures ReadStatusRequest(JObject(map[])) == Success(StatusRequest("", ""))
    ensures "" !in VALID_STATUSES
  {
    var m: map<string, Value> := map[];
    assert Get(m, "status", JString("")) == JString("");
    assert Get(m, "note", JString("")) == JString("");
    EmptyStripsToEmpty();
  }

  lemma EmptyStripsToEmpty()
    ensures PyStr.Strip("") == "" && Normalise("") == ""
  {
    PyStr.StripOfTrimmed("");
    assert PyStr.Lower("") == "";
  }

  /**
   * The reply and the new records of `handle_status_update`, case by case:
   * a body it cannot read raises, an invalid status is a 400, a valid one is
   * a 200 with exactly that record patched when the store has the id and
   * raises nothing, and a 500 otherwise; only the 200 changes the records.
   */
  ghost predicate StatusUpdateReplied(before: map<string, Record>, after: map<string, Record>, intakeId: string,
                                      body: Value, updatedAt: string, fault: Option<string>, reply: Reply)
  {
    match ReadStatusRequest(body)
    case Failure(e) => reply == Unhandled(e) && after == before
    case Success(req) =>
      if req.status !in VALID_STATUSES then
        reply == Http(400, InvalidStatus(req.status)) && after == before
      else if fault.None? && intakeId in before then
        && reply == Http(200, StatusChanged(intakeId, req.status, "Case successfully marked as " + req.status + "."))
        && after == before[intakeId := RecordStore.StatusPatched(before[intakeId], req.status, req.note, updatedAt)]
      else
        reply == Http(500, ErrorMessage("Failed to update case status.")) && after == before
  }

  /**
   * `handle_status_update`: an invalid normalised status is a 400 and leaves
   * the store alone; a store error of any kind, the not-found one included,
   * is a 500; success is a 200 echoing the id and the normalised status.
   */
  method HandleStatusUpdate(t: RecordStore.Table, intakeId: string, body: Value, updatedAt: string, fault: Option<string>)
    returns (reply: Reply)
    requires t.Valid()
    modifies t
    ensures t.Valid() && t.scanOrder == old(t.scanOrder)
    ensures ReadStatusRequest(body).Failure? ==> reply == Unhandled(ReadStatusRequest(body).error) && t.records == old(t.records)
    ensures ReadStatusRequest(body).Success? && ReadStatusRequest(body).value.status !in VALID_STATUSES ==>
      reply == Http(400, InvalidStatus(ReadStatusRequest(body).value.status)) && t.records == old(t.records)
    ensures reply.Http? && reply.statusCode == 500 ==>
      reply.body == ErrorMessage("Failed to update case status.") && t.records == old(t.records)
    ensures reply.Http? && reply.statusCode == 200 ==>
      var req := ReadStatusRequest(body).value;
      && req.status in VALID_STATUSES
      && reply.body == StatusChanged(intakeId, req.status, "Case successfully marked as " + req.status + ".")
      && intakeId in old(t.records)
      && t.records == old(t.records)[intakeId := RecordStore.StatusPatched(old(t.records)[intakeId], req.status, req.note, updatedAt)]
    ensures ReadStatusRequest(body).Success? && ReadStatusRequest(body).value.status in VALID_STATUSES ==>
      (reply.Http? && reply.statusCode == 200 <==> fault.None? && intakeId in old(t.records))
    ensures (ReadStatusRequest(body).Success? && ReadStatusRequest(body).value.status in VALID_STATUSES
             && !(fault.None? && intakeId in old(t.records))) ==>
      reply == Http(500, ErrorMessage("Failed to update case status.")) && t.records == old(t.records)
    ensures reply.Http? ==> reply.statusCode in {200, 400, 500}
    ensures StatusUpdateReplied(old(t.records), t.records, intakeId, body, updatedAt, fault, reply)
  {
    var request := ReadStatusRequest(body);
    if request.Failure? {
      return Unhandled(request.error);
    }
    var status := request.value.status;
    if status !in VALID_STATUSES {
      return Http(400, InvalidStatus(status));
    }
    var outcome := t.UpdateStatus(intakeId, status, request.value.note, updatedAt, fault);
    if outcome.Fail? {
      return Http(500, ErrorMessage("Failed to update case status."));
    }
    return Http(200, StatusChanged(intakeId, status, "Case successfully marked as " + status + "."));
  }

  // ---------------------------------------------------------------------------
  // Case detail and dashboard
  // ---------------------------------------------------------------------------

  /**
   * `handle_case_detail`: 500 on a store error (the empty id, which DynamoDB
   * refuses, among them), 404 for no record (or an empty one), 200 with the
   * record otherwise.
   */
  function HandleCaseDetail(t: RecordStore.Table, intakeId: string, fault: Option<string>): (reply: Reply)
    reads t
    requires t.Valid()
    ensures fault.Some? ==> reply == Http(500, ErrorMessage("Failed to retrieve case."))
    ensures fault.None? && intakeId == "" ==> reply == Http(500, ErrorMessage("Failed to retrieve case."))
    ensures fault.None? && intakeId != "" ==> (reply == Http(404, ErrorMessage("Case not found.")) <==> intakeId !in t.records)
    ensures reply.Http? && reply.statusCode == 200 ==>
      intakeId in t.records && reply.body == RecordBody(t.records[intakeId])
    ensures fault.None? && intakeId in t.records ==> reply == Http(200, RecordBody(t.records[intakeId]))
    ensures reply.Http? && reply.statusCode in {200, 404, 500}
  {
    match t.GetItem(intakeId, fault)
    case Failure(_) => Http(500, ErrorMessage("Failed to retrieve case."))
    case Success(found) =>
      if found.None? || found.value == map[] then Http(404, ErrorMessage("Case not found."))
      else Http(200, RecordBody(found.value))
  }

  /**
   * `handle_dashboard`, and the intake service's `lambda_handler`: scan, or
   * answer 500 with no summary at all if any scan request fails; then the
   * aggregation of the scanned records, which may itself raise.
   */
  method HandleDashboard(t: RecordStore.Table, fault: Option<RecordStore.Fault>) returns (reply: Reply)
    requires t.Valid()
    ensures fault.Some? && fault.value.request < RecordStore.Requests(|t.scanOrder|, t.pageLimit) ==>
      reply == Http(500, ErrorMessage("Failed to retrieve intake data."))
    ensures !(fault.Some? && fault.value.request < RecordStore.Requests(|t.scanOrder|, t.pageLimit)) ==>
      match Aggregation.Summarize(t.Contents())
      case Success(summary) => reply == Http(200, SummaryBody(summary))
      case Failure(e) => reply == Unhandled(AggregationFailed(e))
  {
    var scanned := t.ScanAll(fault);
    if scanned.Failure? {
      return Http(500, ErrorMessage("Failed to retrieve intake data."));
    }
    var summary := Aggregation.Aggregate(scanned.value);
    match summary
    case Failure(e) =>
      return Unhandled(AggregationFailed(e));
    case Success(s) =>
      return Http(200, SummaryBody(s));
  }

  /** A successful dashboard reply counts every stored record. */
  lemma DashboardCountsEveryRecord(t: RecordStore.Table)
    requires t.Valid() && Aggregation.Summarize(t.Contents()).Success?
    ensures Aggregation.Summarize(t.Contents()).value.totalIntakes == |t.records|
  {
    t.ContentsAreTheRecords();
    Aggregation.NewAndCriticalCounts(t.Contents());
  }

  // ---------------------------------------------------------------------------
  // The router
  // ---------------------------------------------------------------------------

  /** `event.get("body") or "{}"` parsed; `None` where `json.loads` raises `JSONDecodeError`. */
  function RequestBody(event: Record, parse: string -> Option<Value>): (r: Result<Option<Value>, Crash>)
    ensures !Truthy(Get(event, "body", JNull)) ==> r == Success(Some(JObject(map[])))
    ensures r.Failure? <==> Truthy(Get(event, "body", JNull)) && !Get(event, "body", JNull).JString?
    ensures r.Failure? ==> r.error == TypeError("json.loads")
    ensures "body" in event && event["body"].JString? && event["body"].s != "" ==> r == Success(parse(event["body"].s))
  {
    var raw := Get(event, "body", JNull);
    if !Truthy(raw) then Success(Some(JObject(map[])))
    else if !raw.JString? then Failure(TypeError("json.loads"))
    else Success(parse(raw.s))
  }

  /**
   * `lambda_handler`: dispatches on the route, and each route's reply is its
   * handler's. Only a status update can change the table.
   */
  method LambdaHandler(t: RecordStore.Table, event: Record, parse: string -> Option<Value>, updatedAt: string, faults: Faults)
    returns (reply: Reply)
    requires t.Valid()
    modifies t
    ensures t.Valid() && t.scanOrder == old(t.scanOrder)
    ensures EventRoute(event).Failure? ==> reply == Unhandled(EventRoute(event).error)
    ensures EventRoute(event) == Success(Preflight) ==> reply == Http(200, NoContent)
    ensures EventRoute(event) == Success(NotFound) ==> reply == Http(404, RouteNotFound(MethodOf(event).value, PathOf(event)))
    ensures EventRoute(event).Success? && EventRoute(event).value.CaseDetail? ==>
      reply == old(HandleCaseDetail(t, EventRoute(event).value.intakeId, faults.get))
    ensures (EventRoute(event) == Success(Dashboard)
             && faults.scan.Some? && faults.scan.value.request < RecordStore.Requests(|t.scanOrder|, t.pageLimit)) ==>
      reply == Http(500, ErrorMessage("Failed to retrieve intake data."))
    ensures (EventRoute(event) == Success(Dashboard)
             && !(faults.scan.Some? && faults.scan.value.request < RecordStore.Requests(|t.scanOrder|, t.pageLimit))) ==>
      match Aggregation.Summarize(t.Contents())
      case Success(summary) => reply == Http(200, SummaryBody(summary))
      case Failure(e) => reply == Unhandled(AggregationFailed(e))
    ensures EventRoute(event).Success? && EventRoute(event).value.StatusUpdate? && RequestBody(event, parse).Failure? ==>
      reply == Unhandled(RequestBody(event, parse).error)
    ensures EventRoute(event).Success? && EventRoute(event).value.StatusUpdate? && RequestBody(event, parse) == Success(None) ==>
      reply == Http(400, ErrorMessage("Invalid JSON body.")) && t.records == old(t.records)
    ensures (EventRoute(event).Success? && EventRoute(event).value.StatusUpdate? && RequestBody(event, parse).Success?
             && RequestBody(event, parse).value.Some?) ==>
      StatusUpdateReplied(old(t.records), t.records, EventRoute(event).value.intakeId,
                          RequestBody(event, parse).value.value, updatedAt, faults.update, reply)
    ensures !(EventRoute(event).Success? && EventRoute(event).value.StatusUpdate?) ==> t.records == old(t.records)
  {
    var route := EventRoute(event);
    if route.Failure? {
      return Unhandled(route.error);
    }
    match route.value
    case Preflight =>
      return Http(200, NoContent);
    case Dashboard =>
      reply := HandleDashboard(t, faults.scan);
    case CaseDetail(id) =>
      return HandleCaseDetail(t, id, faults.get);
    case StatusUpdate(id) =>
      var body := RequestBody(event, parse);
      if body.Failure? {
        return Unhandled(body.error);
      }
      if body.value.None? {
        return Http(400, ErrorMessage("Invalid JSON body."));
      }
      reply := HandleStatusUpdate(t, id, body.value.value, updatedAt, faults.update);
    case NotFound =>
      return Http(404, RouteNotFound(MethodOf(event).value, PathOf(event)));
  }
}

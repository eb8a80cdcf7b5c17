/**
 * The DynamoDB table behind both services, and the `db.py` operations on it
 * (lexflow-dashboard/db.py and lexflow-intake/db.py; `put_item` and
 * `scan_all` are the same text in both and are modelled once).
 *
 * The table is an object: its records by `intake_id`, the order a scan
 * visits them in (DynamoDB's hash order, which the model leaves abstract),
 * and the page size a scan request returns. A page that is full carries a
 * `LastEvaluatedKey`, the key of its last item, and the next request resumes
 * after it. Service errors are inputs: `Fault` says which request raises a
 * `ClientError` and with which code.
 */
module RecordStore {
  import opened Wrappers
  import opened Json

  /** The table's partition key. */
  const KEY: string := "intake_id"
  const CONDITIONAL_CHECK_FAILED: string := "ConditionalCheckFailedException"
  const VALIDATION_EXCEPTION: string := "ValidationException"

  /** What the db functions raise. */
  datatype StoreError =
    /** A `botocore` `ClientError` with this error code, re-raised. */
    | ClientError(code: string)
    /** The `ValueError` that `update_status` raises for an unknown id. */
    | CaseNotFound(message: string)

  /** A service call that fails: the number of the request (0 for the first) and the error code. */
  datatype Fault = Fault(request: nat, code: string)

  /** One scan response: its `Items` and its `LastEvaluatedKey`, if any. */
  datatype Page = Page(items: seq<Record>, lastEvaluatedKey: Option<string>)

  /** The record is stored under `id`: its `intake_id` attribute is that string. */
  predicate KeyedBy(id: string, r: Record) {
    KEY in r && r[KEY] == JString(id)
  }

  ghost predicate NoDuplicates(s: seq<string>) {
    forall i, j :: 0 <= i < j < |s| ==> s[i] != s[j]
  }

  function Min(a: int, b: int): int {
    if a <= b then a else b
  }

  /** The position of `x` in `s`. */
  function IndexOf(s: seq<string>, x: string): (i: nat)
    requires x in s
    ensures i < |s| && s[i] == x
    ensures forall j :: 0 <= j < i ==> s[j] != x
  {
    if s[0] == x then 0 else 1 + IndexOf(s[1..], x)
  }

  lemma IndexOfDistinct(s: seq<string>, i: nat)
    requires NoDuplicates(s) && i < |s|
    ensures IndexOf(s, s[i]) == i
  {
  }

  /** The records listed in the given order. */
  function InOrder(records: map<string, Record>, order: seq<string>): (r: seq<Record>)
    requires forall k :: 0 <= k < |order| ==> order[k] in records
    ensures |r| == |order|
    ensures forall k :: 0 <= k < |order| ==> r[k] == records[order[k]]
  {
    seq(|order|, k requires 0 <= k < |order| => records[order[k]])
  }

  /** The record an unfiltered scan reaches first (`Limit=1`), if it carries the token. */
  function LimitOneScan(records: map<string, Record>, order: seq<string>, token: string): (r: Option<Record>)
    requires forall k :: 0 <= k < |order| ==> order[k] in records
    ensures r.Some? ==> |order| > 0 && r.value == records[order[0]]
    ensures r.Some? ==> Get(r.value, "portal_token", JNull) == JString(token)
    ensures |order| > 0 && Get(records[order[0]], "portal_token", JNull) == JString(token) ==> r.Some?
  {
    if |order| == 0 then None
    else
      var first := records[order[0]];
      if Get(first, "portal_token", JNull) == JString(token) then Some(first) else None
  }

  /** The first record carrying the token: what the portal lookup means to return. */
  function FirstWithToken(items: seq<Record>, token: string): (r: Option<Record>)
    ensures r.Some? ==> r.value in items && Get(r.value, "portal_token", JNull) == JString(token)
    ensures r.None? <==> forall k :: 0 <= k < |items| ==> Get(items[k], "portal_token", JNull) != JString(token)
    ensures r.Some? ==> exists k :: (0 <= k < |items| && items[k] == r.value
      && forall j :: 0 <= j < k ==> Get(items[j], "portal_token", JNull) != JString(token))
    decreases |items|
  {
    if |items| == 0 then None
    else if Get(items[0], "portal_token", JNull) == JString(token) then Some(items[0])
    else
      var r := FirstWithToken(items[1..], token);
      assert forall k :: 1 <= k < |items| ==> items[k] == items[1..][k - 1];
      if r.Some? then
        var k :| 0 <= k < |items[1..]| && items[1..][k] == r.value
          && forall j :: 0 <= j < k ==> Get(items[1..][j], "portal_token", JNull) != JString(token);
        assert items[k + 1] == r.value;
        r
      else r
  }

  /** The record after `update_status`: status, updated_at and attorney_note set, all else kept, its key included. */
  function StatusPatched(r: Record, newStatus: string, note: string, updatedAt: string): (p: Record)
    ensures forall id :: KeyedBy(id, r) ==> KeyedBy(id, p)
  {
    r["status" := JString(newStatus)]["updated_at" := JString(updatedAt)]["attorney_note" := JString(note)]
  }

  /** The update sets exactly the three attributes, adds no others, and keeps every other attribute. */
  lemma StatusPatchTouchesThreeFields(r: Record, newStatus: string, note: string, updatedAt: string)
    ensures var p := StatusPatched(r, newStatus, note, updatedAt);
      && p.Keys == r.Keys + {"status", "updated_at", "attorney_note"}
      && p["status"] == JString(newStatus) && p["updated_at"] == JString(updatedAt) && p["attorney_note"] == JString(note)
      && forall k :: k in r && k != "status" && k != "updated_at" && k != "attorney_note" ==> p[k] == r[k]
  {
  }

  /** The key is one DynamoDB accepts: a non-empty string `intake_id`. */
  predicate HasValidKey(item: Record) {
    KEY in item && item[KEY].JString? && item[KEY].s != ""
  }

  /**
   * The scan response that starts at position `pos`, on a table whose records
   * in scan order are `all`, stored under the keys `order`: at most `limit`
   * items, and the key of the last one when the page is full.
   */
  function PageAt(all: seq<Record>, order: seq<string>, limit: nat, pos: nat): Page
    requires limit > 0 && |all| == |order| && pos <= |order|
  {
    Page(all[pos..Min(pos + limit, |order|)], if pos + limit <= |order| then Some(order[pos + limit - 1]) else None)
  }

  /** A page holds at most `limit` items; a full one ends with the item whose key it carries. */
  lemma PageShape(all: seq<Record>, order: seq<string>, limit: nat, pos: nat)
    requires limit > 0 && |all| == |order| && pos <= |order|
    ensures var p := PageAt(all, order, limit, pos);
      && |p.items| <= limit
      && (p.lastEvaluatedKey.Some? <==> pos + limit <= |order|)
      && (p.lastEvaluatedKey.Some? ==>
        && p.lastEvaluatedKey.value == order[pos + limit - 1]
        && |p.items| == limit && p.items[limit - 1] == all[pos + limit - 1])
  {
  }

  /** Each page holds at most `limit` items; a full one carries the key of its last item. */
  lemma PageKeys(all: seq<Record>, order: seq<string>, limit: nat, exclusiveStartKey: Option<string>)
    requires limit > 0 && |all| == |order|
    requires exclusiveStartKey.Some? ==> exclusiveStartKey.value in order
    requires forall k :: 0 <= k < |order| ==> KeyedBy(order[k], all[k])
    ensures var p := PageAfter(all, order, limit, exclusiveStartKey);
      && |p.items| <= limit
      && (p.lastEvaluatedKey.Some? ==>
        && p.lastEvaluatedKey.value in order
        && |p.items| == limit && KeyedBy(p.lastEvaluatedKey.value, p.items[|p.items| - 1]))
  {
    var pos := if exclusiveStartKey.None? then 0 else IndexOf(order, exclusiveStartKey.value) + 1;
    assert PageAfter(all, order, limit, exclusiveStartKey) == PageAt(all, order, limit, pos);
    PageShape(all, order, limit, pos);
    if pos + limit <= |order| {
      assert KeyedBy(order[pos + limit - 1], all[pos + limit - 1]);
    }
  }

  /** `scan()` or `scan(ExclusiveStartKey=k)`: the first page, or the page right after key `k`. */
  function PageAfter(all: seq<Record>, order: seq<string>, limit: nat, exclusiveStartKey: Option<string>): Page
    requires limit > 0 && |all| == |order|
    requires exclusiveStartKey.Some? ==> exclusiveStartKey.value in order
  {
    match exclusiveStartKey
    case None => PageAt(all, order, limit, 0)
    case Some(k) => PageAt(all, order, limit, IndexOf(order, k) + 1)
  }

  /**
   * The loop of `scan_all`: the first page, then every next page while the
   * last one carries `LastEvaluatedKey`, concatenated in order. It makes
   * `Requests(|order|, limit)` requests; an error on any of them is re-raised
   * and nothing partial is returned.
   */
  method ScanPages(all: seq<Record>, order: seq<string>, limit: nat, fault: Option<Fault>)
    returns (r: Result<seq<Record>, StoreError>)
    requires limit > 0 && |all| == |order| && NoDuplicates(order)
    ensures r.Failure? <==> fault.Some? && fault.value.request < Requests(|order|, limit)
    ensures r.Failure? ==> r.error == ClientError(fault.value.code)
    ensures r.Success? ==> r.value == all
  {
    var n := |order|;
    if fault.Some? && fault.value.request == 0 {
      return Failure(ClientError(fault.value.code));
    }
    var request := 0;
    var pos := 0;
    var response := PageAfter(all, order, limit, None);
    var items := response.items;
    while response.lastEvaluatedKey.Some?
      invariant pos <= n
      invariant request + Requests(n - pos, limit) == Requests(n, limit)
      invariant response == PageAt(all, order, limit, pos)
      invariant items == all[..Min(pos + limit, n)]
      invariant fault.None? || fault.value.request > request
      decreases n - pos
    {
      var lastKey := response.lastEvaluatedKey.value;
      RequestsAfterFullPage(request, n, pos, limit);
      request := request + 1;
      if fault.Some? && fault.value.request == request {
        return Failure(ClientError(fault.value.code));
      }
      ResumeAfterFullPage(all, order, limit, pos);
      ExtendByNextPage(all, limit, pos);
      response := PageAfter(all, order, limit, Some(lastKey));
      pos := pos + limit;
      items := items + response.items;
    }
    assert all[..n] == all;
    return Success(items);
  }

  /** The request after a full page reads the page that starts where it ended. */
  lemma ResumeAfterFullPage(all: seq<Record>, order: seq<string>, limit: nat, pos: nat)
    requires limit > 0 && |all| == |order| && NoDuplicates(order) && pos + limit <= |order|
    ensures PageAt(all, order, limit, pos).lastEvaluatedKey == Some(order[pos + limit - 1])
    ensures PageAfter(all, order, limit, Some(order[pos + limit - 1])) == PageAt(all, order, limit, pos + limit)
  {
    IndexOfDistinct(order, pos + limit - 1);
  }

  /** Appending the next page extends the records read so far by that page. */
  lemma ExtendByNextPage(all: seq<Record>, limit: nat, pos: nat)
    requires pos + limit <= |all|
    ensures all[..pos + limit] + all[pos + limit..Min(pos + limit + limit, |all|)]
      == all[..Min(pos + limit + limit, |all|)]
  {
  }

  class Table {
    var records: map<string, Record>
    var scanOrder: seq<string>
    /** How many items a scan request reads before it stops and returns `LastEvaluatedKey`. */
    const pageLimit: nat

    ghost predicate Valid()
      reads this
    {
      && pageLimit > 0
      && NoDuplicates(scanOrder)
      && "" !in records
      && (forall k :: k in records <==> k in scanOrder)
      && (forall id :: id in records ==> KeyedBy(id, records[id]))
    }

    /** An empty table. */
    constructor (pageLimit: nat)
      requires pageLimit > 0
      ensures Valid() && records == map[] && scanOrder == [] && this.pageLimit == pageLimit
    {
      this.records := map[];
      this.scanOrder := [];
      this.pageLimit := pageLimit;
    }

    /** Every record, in scan order. */
    function Contents(): seq<Record>
      reads this
      requires Valid()
    {
      InOrder(records, scanOrder)
    }

    /** The scan lists each stored record exactly once. */
    lemma ContentsAreTheRecords()
      requires Valid()
      ensures |Contents()| == |records|
      ensures forall r :: r in Contents() <==> r in records.Values
    {
      var c := Contents();
      forall r | r in records.Values
        ensures r in c
      {
        var id :| id in records && records[id] == r;
        assert c[IndexOf(scanOrder, id)] == r;
      }
      assert |records| == |records.Keys|;
      assert |records.Keys| == |scanOrder| by {
        assert records.Keys == set k | k in scanOrder;
        DistinctCard(scanOrder);
      }
    }

    /**
     * `scan_all`: the first page, then every next page while the last one
     * carries `LastEvaluatedKey`, concatenated in order. It makes
     * `Requests(|records|, pageLimit)` requests; an error on any of them is
     * re-raised and nothing partial is returned.
     */
    method ScanAll(fault: Option<Fault>) returns (r: Result<seq<Record>, StoreError>)
      requires Valid()
      ensures r.Failure? <==> fault.Some? && fault.value.request < Requests(|scanOrder|, pageLimit)
      ensures r.Failure? ==> r.error == ClientError(fault.value.code)
      ensures r.Success? ==> r.value == Contents()
    {
      r := ScanPages(Contents(), scanOrder, pageLimit, fault);
    }

    /** `put_item`: stores the item under its `intake_id`, replacing any earlier record. */
    method PutItem(item: Record, position: nat, fault: Option<string>) returns (r: Outcome<StoreError>)
      requires Valid()
      modifies this
      ensures Valid()
      ensures fault.Some? ==> r == Fail(ClientError(fault.value))
      ensures fault.None? && !HasValidKey(item) ==> r == Fail(ClientError(VALIDATION_EXCEPTION))
      ensures r.Fail? ==> records == old(records) && scanOrder == old(scanOrder)
      ensures r.Pass? <==> fault.None? && HasValidKey(item)
      ensures r.Pass? ==> records == old(records)[item[KEY].s := item]
      ensures r.Pass? && item[KEY].s in old(records) ==> scanOrder == old(scanOrder)
      ensures r.Pass? && item[KEY].s !in old(records) ==>
        var at := Min(position, |old(scanOrder)|);
        scanOrder == old(scanOrder)[..at] + [item[KEY].s] + old(scanOrder)[at..]
    {
      if fault.Some? {
        return Fail(ClientError(fault.value));
      }
      if !HasValidKey(item) {
        return Fail(ClientError(VALIDATION_EXCEPTION));
      }
      var id := item[KEY].s;
      if id !in records {
        var at := Min(position, |scanOrder|);
        InsertKeepsDistinct(scanOrder, at, id);
        scanOrder := scanOrder[..at] + [id] + scanOrder[at..];
      }
      records := records[id := item];
      return Pass;
    }

    /**
     * `get_item`: the record stored under the id, or None; the table is only
     * read. DynamoDB refuses an empty key string with a `ValidationException`.
     */
    function GetItem(id: string, fault: Option<string>): (r: Result<Option<Record>, StoreError>)
      reads this
      requires Valid()
      ensures fault.Some? ==> r == Failure(ClientError(fault.value))
      ensures fault.None? && id == "" ==> r == Failure(ClientError(VALIDATION_EXCEPTION))
      ensures fault.None? ==> (r.Success? <==> id != "")
      ensures r.Success? && r.value.Some? ==> id in records && r.value.value == records[id] && KeyedBy(id, r.value.value)
      ensures r.Success? ==> (r.value.None? <==> id !in records)
    {
      if fault.Some? then Failure(ClientError(fault.value))
      else if id == "" then Failure(ClientError(VALIDATION_EXCEPTION))
      else if id in records then Success(Some(records[id]))
      else Success(None)
    }

    /**
     * `update_status`: the conditional update of lines 86-102. An unknown id
     * fails the `attribute_exists(intake_id)` condition and becomes the
     * not-found `ValueError`; an empty id is refused with a
     * `ValidationException` before the condition is evaluated; any other
     * service error is re-raised. Only a
     * successful update changes the table, and it changes one record.
     */
    method UpdateStatus(id: string, newStatus: string, note: string, updatedAt: string, fault: Option<string>)
      returns (r: Outcome<StoreError>)
      requires Valid()
      modifies this
      ensures Valid()
      ensures scanOrder == old(scanOrder)
      ensures r.Fail? ==> records == old(records)
      ensures fault.None? && id == "" ==> r == Fail(ClientError(VALIDATION_EXCEPTION))
      ensures fault.None? && id != "" && id !in old(records) ==> r == Fail(CaseNotFound("Case " + id + " not found in database."))
      ensures fault == Some(CONDITIONAL_CHECK_FAILED) ==> r == Fail(CaseNotFound("Case " + id + " not found in database."))
      ensures fault.Some? && fault.value != CONDITIONAL_CHECK_FAILED ==> r == Fail(ClientError(fault.value))
      ensures r.Pass? <==> fault.None? && id in old(records)
      ensures r.Pass? ==> records == old(records)[id := StatusPatched(old(records)[id], newStatus, note, updatedAt)]
    {
      var code: Option<string> := fault;
      if code.None? && id == "" {
        code := Some(VALIDATION_EXCEPTION);
      } else if code.None? && id !in records {
        code := Some(CONDITIONAL_CHECK_FAILED);
      }
      if code.Some? {
        if code.value == CONDITIONAL_CHECK_FAILED {
          return Fail(CaseNotFound("Case " + id + " not found in database."));
        }
        return Fail(ClientError(code.value));
      }
      records := records[id := StatusPatched(records[id], newStatus, note, updatedAt)];
      return Pass;
    }

    /**
     * `get_by_token` as written: a scan with `Limit=1` reads one item and
     * only then applies the filter, so it finds the token only on the first
     * record of the scan order. See `LimitOneMissesStoredToken`.
     */
    function GetByToken(token: string, fault: Option<string>): (r: Result<Option<Record>, StoreError>)
      reads this
      requires Valid()
      ensures fault.Some? ==> r == Failure(ClientError(fault.value))
      ensures r.Success? && r.value.Some? ==>
        r.value.value in records.Values && Get(r.value.value, "portal_token", JNull) == JString(token)
    {
      if fault.Some? then Failure(ClientError(fault.value))
      else Success(LimitOneScan(records, scanOrder, token))
    }

    /** A token absent from every scanned record is absent from every stored record. */
    lemma TokenAbsentFromScan(token: string)
      requires Valid() && FirstWithToken(Contents(), token).None?
      ensures forall id :: id in records ==> Get(records[id], "portal_token", JNull) != JString(token)
    {
      forall id | id in records
        ensures Get(records[id], "portal_token", JNull) != JString(token)
      {
        assert Contents()[IndexOf(scanOrder, id)] == records[id];
      }
    }

    /**
     * The portal lookup as intended: the record carrying the token if there
     * is one, and None only when no record carries it.
     */
    method FindByToken(token: string, fault: Option<Fault>) returns (r: Result<Option<Record>, StoreError>)
      requires Valid()
      ensures r.Failure? <==> fault.Some? && fault.value.request < Requests(|scanOrder|, pageLimit)
      ensures r.Success? && r.value.Some? ==>
        r.value.value in records.Values && Get(r.value.value, "portal_token", JNull) == JString(token)
      ensures r.Success? && r.value.None? ==>
        forall id :: id in records ==> Get(records[id], "portal_token", JNull) != JString(token)
    {
      var scanned := ScanAll(fault);
      match scanned
      case Failure(e) =>
        return Failure(e);
      case Success(items) =>
        var found := FirstWithToken(items, token);
        if found.None? {
          TokenAbsentFromScan(token);
        } else {
          ContentsAreTheRecords();
        }
        return Success(found);
    }
  }

  /** A sequence without repeats has as many distinct elements as entries. */
  lemma {:induction false} DistinctCard(s: seq<string>)
    requires NoDuplicates(s)
    ensures |set k | k in s| == |s|
    decreases |s|
  {
    if |s| > 0 {
      var rest := s[1..];
      assert NoDuplicates(rest) by {
        forall i, j | 0 <= i < j < |rest|
          ensures rest[i] != rest[j]
        {
          assert rest[i] == s[i + 1] && rest[j] == s[j + 1];
        }
      }
      DistinctCard(rest);
      assert (set k | k in s) == (set k | k in rest) + {s[0]};
      assert s[0] !in rest by {
        forall j | 0 <= j < |rest|
          ensures rest[j] != s[0]
        {
          assert rest[j] == s[j + 1];
        }
      }
    }
  }

  lemma InsertKeepsDistinct(s: seq<string>, at: nat, x: string)
    requires NoDuplicates(s) && at <= |s| && x !in s
    ensures NoDuplicates(s[..at] + [x] + s[at..])
    ensures forall k :: k in s[..at] + [x] + s[at..] <==> k in s || k == x
  {
    var t := s[..at] + [x] + s[at..];
    assert |t| == |s| + 1;
    assert forall i :: 0 <= i < at ==> t[i] == s[i];
    assert t[at] == x;
    assert forall i :: at < i < |t| ==> t[i] == s[i - 1];
    forall i, j | 0 <= i < j < |t|
      ensures t[i] != t[j]
    {
      if i == at {
        assert t[j] == s[j - 1];
      } else if j == at {
        assert t[i] == s[i];
      } else {
        var i' := if i < at then i else i - 1;
        var j' := if j < at then j else j - 1;
        assert t[i] == s[i'] && t[j] == s[j'] && i' < j';
      }
    }
    assert s == s[..at] + s[at..];
  }

  /**
   * How many scan requests `scan_all` makes on `n` records with pages of
   * `limit`: one per full page, plus the last page, which is partial or empty.
   */
  function Requests(n: nat, limit: nat): (k: nat)
    requires limit > 0
    ensures k >= 1
    decreases n
  {
    if n < limit then 1 else 1 + Requests(n - limit, limit)
  }

  /** A full page costs one request and leaves the rest of the scan to the following ones. */
  lemma RequestsAfterFullPage(request: nat, n: nat, pos: nat, limit: nat)
    requires limit > 0 && pos + limit <= n
    requires request + Requests(n - pos, limit) == Requests(n, limit)
    ensures request + 1 + Requests(n - (pos + limit), limit) == Requests(n, limit)
  {
    assert n - pos - limit == n - (pos + limit);
  }

  /** The request count is n / limit + 1. */
  lemma {:induction false} RequestsIsQuotientPlusOne(n: nat, limit: nat)
    requires limit > 0
    ensures Requests(n, limit) == n / limit + 1
    decreases n
  {
    if n >= limit {
      RequestsIsQuotientPlusOne(n - limit, limit);
      DivShift(n - limit, limit);
    } else {
      assert n / limit == 0;
    }
  }

  lemma DivShift(m: nat, limit: nat)
    requires limit > 0
    ensures (m + limit) / limit == m / limit + 1
  {
    var q, r := m / limit, m % limit;
    var q2, r2 := (m + limit) / limit, (m + limit) % limit;
    assert m == q * limit + r && 0 <= r < limit;
    assert m + limit == q2 * limit + r2 && 0 <= r2 < limit;
    assert (q2 - q - 1) * limit == r - r2 by {
      assert (q2 - q - 1) * limit == q2 * limit - q * limit - limit;
    }
    MultipleInOpenRange(q2 - q - 1, limit, r - r2);
  }

  /** The only multiple of `limit` strictly between -limit and limit is 0. */
  lemma MultipleInOpenRange(a: int, limit: int, b: int)
    requires limit > 0 && a * limit == b && -limit < b < limit
    ensures a == 0
  {
  }

  /** The lookup as written misses a stored token when another record comes first in the scan. */
  lemma LimitOneMissesStoredToken()
    ensures var first: Record := map[KEY := JString("a"), "portal_token" := JString("t-a")];
      var second: Record := map[KEY := JString("b"), "portal_token" := JString("t-b")];
      var records := map["a" := first, "b" := second];
      && LimitOneScan(records, ["a", "b"], "t-b") == None
      && FirstWithToken(InOrder(records, ["a", "b"]), "t-b") == Some(second)
  {
    var first: Record := map[KEY := JString("a"), "portal_token" := JString("t-a")];
    var second: Record := map[KEY := JString("b"), "portal_token" := JString("t-b")];
    var records := map["a" := first, "b" := second];
    var items := InOrder(records, ["a", "b"]);
    assert items == [first, second];
    assert Get(first, "portal_token", JNull) == JString("t-a");
    assert FirstWithToken([second], "t-b") == Some(second);
    assert [first, second][1..] == [second];
  }
}

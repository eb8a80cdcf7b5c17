/**
 * The dashboard aggregation over the scanned intake records: the record
 * count, three group-by counters with default buckets, the mean of the
 * positive viability scores (kept exact, not rounded), the "new" and
 * "critical" counts, and the ten newest records projected to eight fields.
 *
 * The same block appears twice in the repository (the dashboard service and
 * the intake service's dashboard handler); both are this one model. The
 * counting loop is the method `Aggregate`, proved equal to the function
 * `Summarize`; the lemmas below say what `Summarize` computes.
 */
module Aggregation {
  import opened Wrappers
  import opened Json
  import PyStr

  const UNKNOWN_CASE_TYPE: Value := JString("Unknown")
  const UNKNOWN: Value := JString("unknown")
  const LAST_N: nat := 10

  /** The keys of a `last_10_intakes` entry. */
  const PROJECTED_KEYS: set<string> := {
    "intake_id", "timestamp", "client_name", "case_type",
    "viability_score", "urgency", "status", "statute_of_limitations_flag"
  }

  /** Record fields that a `last_10_intakes` entry never carries. */
  const HIDDEN_KEYS: set<string> := {"raw_description", "attorney_note", "portal_token", "ai_model_used"}

  /** The three group-by counters. */
  datatype Field = CaseType | Urgency | Status

  function FieldName(f: Field): string {
    match f
    case CaseType => "case_type"
    case Urgency => "urgency"
    case Status => "status"
  }

  function DefaultBucket(f: Field): Value {
    if f == CaseType then UNKNOWN_CASE_TYPE else UNKNOWN
  }

  /** The bucket a record is counted under: `item.get(field, default)`. */
  function GroupKey(item: Record, f: Field): Value {
    Get(item, FieldName(f), DefaultBucket(f))
  }

  /** What the aggregation raises on a record it cannot handle. */
  datatype AggError =
    /** A list or dict used as a counter key (`TypeError`). */
    | UnhashableKey(field: string, key: Value)
    /** `int(...)` on a value it cannot convert (`TypeError` or `ValueError`). */
    | NotAnInteger(field: string, value: Value)
    /** A timestamp that is not a string, so the sort cannot compare it. */
    | UnorderableTimestamp(timestamp: Value)

  type Counter = map<Value, nat>

  /** `counter[k] += 1` on a `defaultdict(int)`. */
  function Bump(m: Counter, k: Value): Counter {
    m[k := (if k in m then m[k] else 0) + 1]
  }

  /** `counter.get(k, 0)`. */
  function CountOf(m: Counter, k: Value): nat {
    if k in m then m[k] else 0
  }

  /** The first thing the loop body raises on this record, in the order of lines 59-63. */
  function ItemError(item: Record): Option<AggError> {
    if !Hashable(GroupKey(item, CaseType)) then Some(UnhashableKey("case_type", GroupKey(item, CaseType)))
    else if !Hashable(GroupKey(item, Urgency)) then Some(UnhashableKey("urgency", GroupKey(item, Urgency)))
    else if !Hashable(GroupKey(item, Status)) then Some(UnhashableKey("status", GroupKey(item, Status)))
    else
      var score := Get(item, "viability_score", JNull);
      if Truthy(score) && PyInt(score).None? then Some(NotAnInteger("viability_score", score))
      else None
  }

  /** The score the loop collects from a record: present, truthy and positive once converted. */
  function CollectedScore(item: Record): Option<int> {
    var score := Get(item, "viability_score", JNull);
    if Truthy(score) && PyInt(score).Some? && PyInt(score).value > 0 then PyInt(score) else None
  }

  /** The loop's state: the three counters and the collected scores. */
  datatype Tallies = Tallies(byCaseType: Counter, byUrgency: Counter, byStatus: Counter, scores: seq<int>)

  function Counts(t: Tallies, f: Field): Counter {
    match f
    case CaseType => t.byCaseType
    case Urgency => t.byUrgency
    case Status => t.byStatus
  }

  /** One pass of the loop body over a record it can handle. */
  function CountRecord(t: Tallies, item: Record): Tallies {
    Tallies(
      Bump(t.byCaseType, GroupKey(item, CaseType)),
      Bump(t.byUrgency, GroupKey(item, Urgency)),
      Bump(t.byStatus, GroupKey(item, Status)),
      t.scores + (match CollectedScore(item) case Some(n) => [n] case None => []))
  }

  /** The first error the loop body raises on the records, taken in order. */
  function FirstError(items: seq<Record>): Option<AggError>
    decreases |items|
  {
    if |items| == 0 then None
    else
      match FirstError(items[..|items| - 1])
      case Some(e) => Some(e)
      case None => ItemError(items[|items| - 1])
  }

  /** The loop's state after counting the given records. */
  function CountAll(items: seq<Record>): Tallies
    decreases |items|
  {
    if |items| == 0 then Tallies(map[], map[], map[], [])
    else CountRecord(CountAll(items[..|items| - 1]), items[|items| - 1])
  }

  /** The loop's state after the given records, or the first error it raised. */
  function Tally(items: seq<Record>): Result<Tallies, AggError> {
    match FirstError(items)
    case Some(e) => Failure(e)
    case None => Success(CountAll(items))
  }

  function Sum(xs: seq<int>): int
    decreases |xs|
  {
    if |xs| == 0 then 0 else Sum(xs[..|xs| - 1]) + xs[|xs| - 1]
  }

  /** The exact mean, or 0.0 for no scores (`avg_viability` before rounding). */
  function Average(xs: seq<int>): real {
    if |xs| == 0 then 0.0 else Sum(xs) as real / |xs| as real
  }

  // ---------------------------------------------------------------------------
  // Ordering by timestamp and the ten-entry projection
  // ---------------------------------------------------------------------------

  /** `x.get("timestamp", "")` as a sort key. */
  function TimestampKey(item: Record): string {
    if "timestamp" in item && item["timestamp"].JString? then item["timestamp"].s else ""
  }

  /** The first timestamp that is present and is not a string. */
  function FirstUnorderable(items: seq<Record>): (r: Option<Value>)
    ensures r.None? <==> forall i :: 0 <= i < |items| ==> "timestamp" !in items[i] || items[i]["timestamp"].JString?
    decreases |items|
  {
    if |items| == 0 then None
    else if "timestamp" in items[0] && !items[0]["timestamp"].JString? then Some(items[0]["timestamp"])
    else
      var r := FirstUnorderable(items[1..]);
      assert forall i :: 1 <= i < |items| ==> items[i] == items[1..][i - 1];
      r
  }

  /** Newest first: the timestamps never increase along the sequence. */
  ghost predicate NewestFirst(s: seq<Record>) {
    forall i, j :: 0 <= i < j < |s| ==> PyStr.LexLe(TimestampKey(s[j]), TimestampKey(s[i]))
  }

  /** Puts `x` after every element that is at least as new, before the first older one. */
  function InsertByTimestamp(x: Record, s: seq<Record>): (r: seq<Record>)
    ensures multiset(r) == multiset(s) + multiset{x}
    decreases |s|
  {
    if |s| == 0 then [x]
    else if PyStr.LexLe(TimestampKey(x), TimestampKey(s[0])) then
      var rest := InsertByTimestamp(x, s[1..]);
      assert s == [s[0]] + s[1..];
      assert multiset([s[0]] + rest) == multiset{s[0]} + multiset(rest);
      [s[0]] + rest
    else [x] + s
  }

  /**
   * `sorted(items, key=timestamp, reverse=True)`: a stable sort, newest first;
   * records with equal timestamps keep their order.
   */
  function SortByTimestamp(items: seq<Record>): (r: seq<Record>)
    ensures multiset(r) == multiset(items)
    decreases |items|
  {
    if |items| == 0 then []
    else
      assert items == items[..|items| - 1] + [items[|items| - 1]];
      InsertByTimestamp(items[|items| - 1], SortByTimestamp(items[..|items| - 1]))
  }

  /** Every element of an insertion is the inserted record or one of the old elements. */
  lemma InsertMembers(x: Record, s: seq<Record>, y: Record)
    requires y in InsertByTimestamp(x, s)
    ensures y == x || y in s
  {
    assert y in multiset(InsertByTimestamp(x, s));
  }

  /** Inserting behind the head of a newest-first sequence. */
  lemma InsertBehindHead(x: Record, s: seq<Record>)
    requires |s| > 0 && NewestFirst(s) && NewestFirst(InsertByTimestamp(x, s[1..]))
    requires PyStr.LexLe(TimestampKey(x), TimestampKey(s[0]))
    ensures NewestFirst(InsertByTimestamp(x, s))
  {
    var rest := InsertByTimestamp(x, s[1..]);
    assert InsertByTimestamp(x, s) == [s[0]] + rest;
    HeadIsNewest(x, s);
    ConsNewestFirst(s[0], rest);
  }

  /** The head of a newest-first sequence is at least as new as everything an insertion behind it holds. */
  lemma HeadIsNewest(x: Record, s: seq<Record>)
    requires |s| > 0 && NewestFirst(s)
    requires PyStr.LexLe(TimestampKey(x), TimestampKey(s[0]))
    ensures forall j :: 0 <= j < |InsertByTimestamp(x, s[1..])| ==>
      PyStr.LexLe(TimestampKey(InsertByTimestamp(x, s[1..])[j]), TimestampKey(s[0]))
  {
    var rest := InsertByTimestamp(x, s[1..]);
    forall j | 0 <= j < |rest|
      ensures PyStr.LexLe(TimestampKey(rest[j]), TimestampKey(s[0]))
    {
      InsertMembers(x, s[1..], rest[j]);
      if rest[j] != x {
        var k :| 0 <= k < |s[1..]| && s[1..][k] == rest[j];
        assert s[k + 1] == rest[j];
      }
    }
  }

  /** A record at least as new as every element, put in front of a newest-first sequence, keeps it newest first. */
  lemma ConsNewestFirst(h: Record, rest: seq<Record>)
    requires NewestFirst(rest)
    requires forall j :: 0 <= j < |rest| ==> PyStr.LexLe(TimestampKey(rest[j]), TimestampKey(h))
    ensures NewestFirst([h] + rest)
  {
    var r := [h] + rest;
    forall i, j | 0 <= i < j < |r|
      ensures PyStr.LexLe(TimestampKey(r[j]), TimestampKey(r[i]))
    {
      assert r[j] == rest[j - 1];
      if i > 0 {
        assert r[i] == rest[i - 1];
      }
    }
  }

  /** Putting a newer record in front of a newest-first sequence. */
  lemma InsertInFront(x: Record, s: seq<Record>)
    requires |s| > 0 && NewestFirst(s)
    requires !PyStr.LexLe(TimestampKey(x), TimestampKey(s[0]))
    ensures NewestFirst(InsertByTimestamp(x, s))
  {
    var r := InsertByTimestamp(x, s);
    assert r == [x] + s;
    PyStr.LexLeTotal(TimestampKey(x), TimestampKey(s[0]));
    forall i, j | 0 <= i < j < |r|
      ensures PyStr.LexLe(TimestampKey(r[j]), TimestampKey(r[i]))
    {
      assert r[j] == s[j - 1];
      if i == 0 {
        if j > 1 {
          PyStr.LexLeTransitive(TimestampKey(s[j - 1]), TimestampKey(s[0]), TimestampKey(x));
        }
      } else {
        assert r[i] == s[i - 1];
      }
    }
  }

  lemma {:induction false} InsertKeepsNewestFirst(x: Record, s: seq<Record>)
    requires NewestFirst(s)
    ensures NewestFirst(InsertByTimestamp(x, s))
    decreases |s|
  {
    if |s| > 0 {
      if PyStr.LexLe(TimestampKey(x), TimestampKey(s[0])) {
        assert NewestFirst(s[1..]) by {
          forall i, j | 0 <= i < j < |s[1..]|
            ensures PyStr.LexLe(TimestampKey(s[1..][j]), TimestampKey(s[1..][i]))
          {
            assert s[1..][j] == s[j + 1] && s[1..][i] == s[i + 1];
          }
        }
        InsertKeepsNewestFirst(x, s[1..]);
        InsertBehindHead(x, s);
      } else {
        InsertInFront(x, s);
      }
    }
  }

  /** The sort puts the records newest first and keeps every one of them. */
  lemma {:induction false} SortByTimestampCorrect(items: seq<Record>)
    ensures NewestFirst(SortByTimestamp(items))
    ensures multiset(SortByTimestamp(items)) == multiset(items)
    ensures |SortByTimestamp(items)| == |items|
    decreases |items|
  {
    if |items| > 0 {
      SortByTimestampCorrect(items[..|items| - 1]);
      InsertKeepsNewestFirst(items[|items| - 1], SortByTimestamp(items[..|items| - 1]));
    }
    assert |multiset(SortByTimestamp(items))| == |multiset(items)|;
  }

  /** `s[:n]`. */
  function Take(s: seq<Record>, n: nat): (r: seq<Record>)
    ensures |r| == if |s| < n then |s| else n
    ensures r == s[..|r|]
  {
    if |s| <= n then s else s[..n]
  }

  /** One `last_10_intakes` entry (lines 72-81); `int(...)` on the score may raise. */
  function Project(item: Record): (r: Result<Record, AggError>)
    ensures r.Success? ==> r.value.Keys == PROJECTED_KEYS
    ensures r.Success? ==> forall k :: k in PROJECTED_KEYS && k != "viability_score" && k != "statute_of_limitations_flag" ==>
      r.value[k] == Get(item, k, JNull)
    ensures r.Success? ==> r.value["statute_of_limitations_flag"] == Get(item, "statute_of_limitations_flag", JBool(false))
    ensures r.Success? <==> PyInt(Get(item, "viability_score", JInt(0))).Some?
    ensures r.Success? ==> r.value["viability_score"] == JInt(PyInt(Get(item, "viability_score", JInt(0))).value)
  {
    var score := Get(item, "viability_score", JInt(0));
    match PyInt(score)
    case None => Failure(NotAnInteger("viability_score", score))
    case Some(n) =>
      Success(map[
        "intake_id" := Get(item, "intake_id", JNull),
        "timestamp" := Get(item, "timestamp", JNull),
        "client_name" := Get(item, "client_name", JNull),
        "case_type" := Get(item, "case_type", JNull),
        "viability_score" := JInt(n),
        "urgency" := Get(item, "urgency", JNull),
        "status" := Get(item, "status", JNull),
        "statute_of_limitations_flag" := Get(item, "statute_of_limitations_flag", JBool(false))
      ])
  }

  /** The list comprehension over the chosen records; the first failing projection raises. */
  function ProjectAll(s: seq<Record>): (r: Result<seq<Record>, AggError>)
    ensures r.Success? ==> |r.value| == |s| && forall i :: 0 <= i < |s| ==> Project(s[i]) == Success(r.value[i])
    ensures r.Success? <==> forall i :: 0 <= i < |s| ==> Project(s[i]).Success?
    decreases |s|
  {
    if |s| == 0 then Success([])
    else
      match Project(s[0])
      case Failure(e) => Failure(e)
      case Success(p) =>
        match ProjectAll(s[1..])
        case Failure(e) => Failure(e)
        case Success(ps) =>
          assert forall i :: 1 <= i < |s| ==> s[i] == s[1..][i - 1];
          Success([p] + ps)
  }

  /** `last_10_intakes`: the ten newest records, projected. */
  function Last10(items: seq<Record>): (r: Result<seq<Record>, AggError>)
    ensures r.Success? ==> forall i :: 0 <= i < |items| ==> "timestamp" !in items[i] || items[i]["timestamp"].JString?
    ensures r.Success? ==> |r.value| == (if |items| < LAST_N then |items| else LAST_N)
    ensures r.Success? ==> forall i :: 0 <= i < |r.value| ==> r.value[i].Keys == PROJECTED_KEYS
  {
    match FirstUnorderable(items)
    case Some(ts) => Failure(UnorderableTimestamp(ts))
    case None =>
      var sorted := SortByTimestamp(items);
      assert |sorted| == |multiset(sorted)| == |multiset(items)| == |items|;
      ProjectAll(Take(sorted, LAST_N))
  }

  // ---------------------------------------------------------------------------
  // The summary
  // ---------------------------------------------------------------------------

  /** The dashboard payload; `avgViability` is exact (the source rounds it to one decimal). */
  datatype Summary = Summary(
    totalIntakes: nat,
    avgViability: real,
    newUnreviewed: nat,
    criticalUrgency: nat,
    byCaseType: Counter,
    byUrgency: Counter,
    byStatus: Counter,
    last10Intakes: seq<Record>)

  const NEW: Value := JString("new")
  const CRITICAL: Value := JString("critical")

  /** Builds the payload once the loop is done (lines 66-94). */
  function Finish(items: seq<Record>, t: Tallies): Result<Summary, AggError> {
    match Last10(items)
    case Failure(e) => Failure(e)
    case Success(last10) =>
      Success(Summary(
        |items|,
        Average(t.scores),
        CountOf(t.byStatus, NEW),
        CountOf(t.byUrgency, CRITICAL),
        t.byCaseType, t.byUrgency, t.byStatus,
        last10))
  }

  /** The aggregation of lines 52-94, or the first exception it raises. */
  function Summarize(items: seq<Record>): (r: Result<Summary, AggError>)
    ensures Tally(items).Failure? ==> r == Failure(Tally(items).error)
    ensures Tally(items).Success? ==> (r.Success? <==> Last10(items).Success?)
    ensures r.Success? ==> r.value.totalIntakes == |items| && r.value.last10Intakes == Last10(items).value
  {
    match Tally(items)
    case Failure(e) => Failure(e)
    case Success(t) => Finish(items, t)
  }

  /** The counting loop of lines 52-64, then the payload. */
  method Aggregate(items: seq<Record>) returns (r: Result<Summary, AggError>)
    ensures r == Summarize(items)
  {
    var t := Tallies(map[], map[], map[], []);
    var i := 0;
    while i < |items|
      invariant i <= |items|
      invariant FirstError(items[..i]).None?
      invariant CountAll(items[..i]) == t
    {
      LoopStep(items, i);
      var step := CountItem(t, items[i]);
      if step.Failure? {
        FailingStep(items, i, step.error);
        return Failure(step.error);
      }
      t := step.value;
      i := i + 1;
    }
    assert items[..|items|] == items;
    SummarizeCounted(items, t);
    r := Finish(items, t);
  }

  /** The loop body of lines 59-64 on one record: the counters and scores it updates, or what it raises. */
  method CountItem(t: Tallies, item: Record) returns (r: Result<Tallies, AggError>)
    ensures r == match ItemError(item) case Some(e) => Failure(e) case None => Success(CountRecord(t, item))
  {
    var caseType := Get(item, "case_type", UNKNOWN_CASE_TYPE);
    if !Hashable(caseType) {
      return Failure(UnhashableKey("case_type", caseType));
    }
    var byCaseType := Bump(t.byCaseType, caseType);
    var urgency := Get(item, "urgency", UNKNOWN);
    if !Hashable(urgency) {
      return Failure(UnhashableKey("urgency", urgency));
    }
    var byUrgency := Bump(t.byUrgency, urgency);
    var status := Get(item, "status", UNKNOWN);
    if !Hashable(status) {
      return Failure(UnhashableKey("status", status));
    }
    var byStatus := Bump(t.byStatus, status);
    var scores := t.scores;
    var score := Get(item, "viability_score", JNull);
    if Truthy(score) {
      var n := PyInt(score);
      if n.None? {
        return Failure(NotAnInteger("viability_score", score));
      }
      if n.value > 0 {
        scores := scores + [n.value];
      }
    }
    assert ItemError(item).None?;
    assert CountRecord(t, item) == Tallies(byCaseType, byUrgency, byStatus, scores);
    return Success(Tallies(byCaseType, byUrgency, byStatus, scores));
  }

  /** A record that makes the loop body raise, after a prefix that did not, decides the result. */
  lemma FailingStep(items: seq<Record>, i: nat, e: AggError)
    requires i < |items| && FirstError(items[..i]).None? && ItemError(items[i]) == Some(e)
    ensures Summarize(items) == Failure(e)
  {
    LoopStep(items, i);
    TallyFailureIsFinal(items, i + 1);
  }

  /** Once every record is counted without an error, the payload is built from the counts. */
  lemma SummarizeCounted(items: seq<Record>, t: Tallies)
    requires FirstError(items).None? && CountAll(items) == t
    ensures Summarize(items) == Finish(items, t)
  {
  }

  /** One more record: the prefix's error and counts extend by that record's. */
  lemma LoopStep(items: seq<Record>, i: nat)
    requires i < |items| && FirstError(items[..i]).None?
    ensures FirstError(items[..i + 1]) == ItemError(items[i])
    ensures CountAll(items[..i + 1]) == CountRecord(CountAll(items[..i]), items[i])
  {
    assert items[..i + 1][..i] == items[..i] && items[..i + 1][i] == items[i];
  }

  // ---------------------------------------------------------------------------
  // What the summary says about the records
  // ---------------------------------------------------------------------------

  /** Once the loop has raised on a prefix, the whole aggregation raises the same error. */
  lemma TallyFailureIsFinal(items: seq<Record>, n: nat)
    requires n <= |items| && Tally(items[..n]).Failure?
    ensures Tally(items) == Tally(items[..n])
  {
    FirstErrorIsFinal(items, n);
  }

  lemma {:induction false} FirstErrorIsFinal(items: seq<Record>, n: nat)
    requires n <= |items| && FirstError(items[..n]).Some?
    ensures FirstError(items) == FirstError(items[..n])
    decreases |items|
  {
    if n < |items| {
      var prefix := items[..|items| - 1];
      assert prefix[..n] == items[..n];
      FirstErrorIsFinal(prefix, n);
    } else {
      assert items[..n] == items;
    }
  }

  /** The aggregation raises exactly when some record makes the loop body raise, and the first such record decides. */
  lemma TallyFailsOnFirstBadRecord(items: seq<Record>)
    ensures Tally(items).Success? <==> forall i :: 0 <= i < |items| ==> ItemError(items[i]).None?
    ensures Tally(items).Failure? ==> exists i :: (0 <= i < |items| && ItemError(items[i]) == Some(Tally(items).error)
      && forall j :: 0 <= j < i ==> ItemError(items[j]).None?)
  {
    FirstErrorIsFirstBadRecord(items);
  }

  lemma {:induction false} FirstErrorIsFirstBadRecord(items: seq<Record>)
    ensures FirstError(items).None? <==> forall i :: 0 <= i < |items| ==> ItemError(items[i]).None?
    ensures FirstError(items).Some? ==> exists i :: (0 <= i < |items| && ItemError(items[i]) == FirstError(items)
      && forall j :: 0 <= j < i ==> ItemError(items[j]).None?)
    decreases |items|
  {
    if |items| > 0 {
      var prefix := items[..|items| - 1];
      var last := |items| - 1;
      FirstErrorIsFirstBadRecord(prefix);
      assert forall i :: 0 <= i < |prefix| ==> prefix[i] == items[i];
      match FirstError(prefix)
      case Some(e) =>
        var i :| 0 <= i < |prefix| && ItemError(prefix[i]) == Some(e)
          && forall j :: 0 <= j < i ==> ItemError(prefix[j]).None?;
        assert ItemError(items[i]) == Some(e);
      case None =>
    }
  }

  /** How many records a counter files under bucket `k`. */
  function Occurrences(items: seq<Record>, f: Field, k: Value): nat
    decreases |items|
  {
    if |items| == 0 then 0
    else Occurrences(items[..|items| - 1], f, k) + (if GroupKey(items[|items| - 1], f) == k then 1 else 0)
  }

  /** Each counter holds, for each bucket, the number of records filed under it, and no empty buckets. */
  lemma {:induction false} CountsMatchRecords(items: seq<Record>, f: Field, k: Value)
    requires Tally(items).Success?
    ensures CountOf(Counts(Tally(items).value, f), k) == Occurrences(items, f, k)
    ensures k in Counts(Tally(items).value, f) <==> Occurrences(items, f, k) > 0
    decreases |items|
  {
    if |items| > 0 {
      CountsMatchRecords(items[..|items| - 1], f, k);
    }
  }

  /** A record without the field is counted under the default bucket ("Unknown" or "unknown"). */
  lemma MissingFieldCountedAsUnknown(items: seq<Record>, f: Field, i: nat)
    requires Tally(items).Success?
    requires i < |items| && FieldName(f) !in items[i]
    ensures DefaultBucket(f) in Counts(Tally(items).value, f)
    ensures f == CaseType ==> DefaultBucket(f) == JString("Unknown")
    ensures f != CaseType ==> DefaultBucket(f) == JString("unknown")
  {
    OccurrencesCountsRecord(items, f, i);
    CountsMatchRecords(items, f, DefaultBucket(f));
  }

  lemma {:induction false} OccurrencesCountsRecord(items: seq<Record>, f: Field, i: nat)
    requires i < |items|
    ensures Occurrences(items, f, GroupKey(items[i], f)) > 0
    decreases |items|
  {
    if i < |items| - 1 {
      var prefix := items[..|items| - 1];
      assert prefix[i] == items[i];
      OccurrencesCountsRecord(prefix, f, i);
    }
  }

  /** The sum of a counter's counts over the given buckets. */
  ghost function SumOver(m: Counter, keys: set<Value>): nat
    requires keys <= m.Keys
    decreases keys
  {
    if keys == {} then 0 else var k :| k in keys; m[k] + SumOver(m, keys - {k})
  }

  /** The sum of all of a counter's counts. */
  ghost function Total(m: Counter): nat {
    SumOver(m, m.Keys)
  }

  lemma {:induction false} SumOverRemove(m: Counter, keys: set<Value>, k: Value)
    requires keys <= m.Keys && k in keys
    ensures SumOver(m, keys) == m[k] + SumOver(m, keys - {k})
    decreases keys
  {
    var j :| j in keys && SumOver(m, keys) == m[j] + SumOver(m, keys - {j});
    if j != k {
      SumOverRemove(m, keys - {j}, k);
      SumOverRemove(m, keys - {k}, j);
      assert keys - {j} - {k} == keys - {k} - {j};
    }
  }

  lemma {:induction false} SumOverAgree(m1: Counter, m2: Counter, keys: set<Value>)
    requires keys <= m1.Keys && keys <= m2.Keys
    requires forall k :: k in keys ==> m1[k] == m2[k]
    ensures SumOver(m1, keys) == SumOver(m2, keys)
    decreases keys
  {
    if keys != {} {
      var k :| k in keys && SumOver(m1, keys) == m1[k] + SumOver(m1, keys - {k});
      SumOverRemove(m2, keys, k);
      SumOverAgree(m1, m2, keys - {k});
    }
  }

  /** One increment adds one to the counter's total. */
  lemma BumpAddsOne(m: Counter, k: Value)
    ensures Total(Bump(m, k)) == Total(m) + 1
  {
    var b := Bump(m, k);
    if k in m {
      assert b.Keys == m.Keys;
      SumOverRemove(b, b.Keys, k);
      SumOverRemove(m, m.Keys, k);
      SumOverAgree(b, m, m.Keys - {k});
    } else {
      assert b.Keys == m.Keys + {k};
      assert b.Keys - {k} == m.Keys;
      SumOverRemove(b, b.Keys, k);
      SumOverAgree(b, m, m.Keys);
    }
  }

  /** Each counter's counts add up to the number of records. */
  lemma {:induction false} CountsSumToTotal(items: seq<Record>, f: Field)
    requires Tally(items).Success?
    ensures Total(Counts(Tally(items).value, f)) == |items|
    decreases |items|
  {
    if |items| > 0 {
      var prefix := items[..|items| - 1];
      CountsSumToTotal(prefix, f);
      BumpAddsOne(Counts(Tally(prefix).value, f), GroupKey(items[|items| - 1], f));
    }
  }

  /** The collected scores are the positive converted scores, in record order; zeros and missing scores are skipped. */
  lemma {:induction false} ScoresArePositive(items: seq<Record>)
    requires Tally(items).Success?
    ensures forall i :: 0 <= i < |Tally(items).value.scores| ==> Tally(items).value.scores[i] > 0
    decreases |items|
  {
    if |items| > 0 {
      ScoresArePositive(items[..|items| - 1]);
    }
  }

  /** The scores the loop collects: each record's positive converted score, in record order. */
  function CollectedScores(items: seq<Record>): seq<int>
    decreases |items|
  {
    if |items| == 0 then []
    else
      var rest := match CollectedScore(items[|items| - 1]) case Some(n) => [n] case None => [];
      CollectedScores(items[..|items| - 1]) + rest
  }

  /** The counting pass collects exactly those scores, whatever it does to the counters. */
  lemma {:induction false} CountAllCollectsScores(items: seq<Record>)
    ensures CountAll(items).scores == CollectedScores(items)
    decreases |items|
  {
    if |items| > 0 {
      CountAllCollectsScores(items[..|items| - 1]);
    }
  }

  /** A further record whose score is missing or zero leaves the collected scores, and so the mean, unchanged. */
  lemma ZeroScoreDoesNotLowerMean(items: seq<Record>, item: Record)
    requires Tally(items + [item]).Success?
    requires "viability_score" !in item || item["viability_score"] == JInt(0)
    ensures Tally(items).Success?
    ensures Tally(items + [item]).value.scores == Tally(items).value.scores
  {
    assert (items + [item])[..|items|] == items;
  }

  /** What a successful summary is made of. */
  lemma SummaryParts(items: seq<Record>)
    requires Summarize(items).Success?
    ensures Tally(items).Success? && Last10(items).Success?
    ensures var t := Tally(items).value; Summarize(items).value == Summary(
      |items|, Average(t.scores), CountOf(t.byStatus, NEW), CountOf(t.byUrgency, CRITICAL),
      t.byCaseType, t.byUrgency, t.byStatus, Last10(items).value)
  {
  }

  /**
   * The mean of positive numbers: times their number it gives their sum; it is
   * positive when there is at least one number and 0.0 when there is none.
   */
  lemma AverageOfPositives(xs: seq<int>)
    requires forall i :: 0 <= i < |xs| ==> xs[i] > 0
    ensures Average(xs) * |xs| as real == Sum(xs) as real
    ensures |xs| > 0 ==> Average(xs) > 0.0
    ensures |xs| == 0 ==> Average(xs) == 0.0
  {
    if |xs| == 0 {
      return;
    }
    SumOfPositives(xs);
    var n := |xs| as real;
    var total := Sum(xs) as real;
    assert Average(xs) == total / n;
    assert total > 0.0 && n > 0.0;
  }

  /**
   * `avg_viability` is the mean (before rounding) of the collected scores,
   * which are all positive; with `AverageOfPositives`, it is positive when
   * some record has a positive score and 0.0 when none has.
   */
  lemma MeanOfPositiveScores(items: seq<Record>)
    requires Summarize(items).Success?
    ensures Tally(items).Success?
    ensures var t := Tally(items).value;
      && Summarize(items).value.avgViability == Average(t.scores)
      && (forall i :: 0 <= i < |t.scores| ==> t.scores[i] > 0)
  {
    SummaryParts(items);
    ScoresArePositive(items);
  }

  /** Scores 0, 0, 8 and 6 average to 7: the zeros are not counted. */
  lemma ZeroScoresExample()
    ensures var items := [map["viability_score" := JInt(0)], map["viability_score" := JInt(0)],
                          map["viability_score" := JInt(8)], map["viability_score" := JInt(6)]];
      Tally(items).Success? && Average(Tally(items).value.scores) == 7.0
  {
    var zero: Record := map["viability_score" := JInt(0)];
    var eight: Record := map["viability_score" := JInt(8)];
    var six: Record := map["viability_score" := JInt(6)];
    ExampleRecords(zero, eight, six);
    ExampleScores(zero, eight, six);
    ExampleAverage();
  }

  lemma ExampleAverage()
    ensures Average([8, 6]) == 7.0
  {
    assert [8, 6][..1] == [8];
    assert [8][..0] == [];
    assert Sum([8, 6]) == 14;
  }

  lemma ExampleScores(zero: Record, eight: Record, six: Record)
    requires ItemError(zero).None? && CollectedScore(zero).None?
    requires ItemError(eight).None? && CollectedScore(eight) == Some(8)
    requires ItemError(six).None? && CollectedScore(six) == Some(6)
    ensures Tally([zero, zero, eight, six]).Success? && Tally([zero, zero, eight, six]).value.scores == [8, 6]
  {
    var items := [zero, zero, eight, six];
    assert forall i | 0 <= i < |items| :: ItemError(items[i]).None?;
    NoItemErrorNoFirstError(items);
    CountAllCollectsScores(items);
    ExampleCollected(zero, eight, six);
  }

  lemma ExampleCollected(zero: Record, eight: Record, six: Record)
    requires CollectedScore(zero).None? && CollectedScore(eight) == Some(8) && CollectedScore(six) == Some(6)
    ensures CollectedScores([zero, zero, eight, six]) == [8, 6]
  {
    CollectedScoresAppend([], zero);
    CollectedScoresAppend([zero], zero);
    CollectedScoresAppend([zero, zero], eight);
    CollectedScoresAppend([zero, zero, eight], six);
    assert [] + [zero] == [zero] && [zero] + [zero] == [zero, zero];
    assert [zero, zero] + [eight] == [zero, zero, eight] && [zero, zero, eight] + [six] == [zero, zero, eight, six];
  }

  lemma ExampleRecords(zero: Record, eight: Record, six: Record)
    requires zero == map["viability_score" := JInt(0)]
    requires eight == map["viability_score" := JInt(8)] && six == map["viability_score" := JInt(6)]
    ensures ItemError(zero).None? && CollectedScore(zero).None?
    ensures ItemError(eight).None? && CollectedScore(eight) == Some(8)
    ensures ItemError(six).None? && CollectedScore(six) == Some(6)
  {
  }

  lemma {:induction false} NoItemErrorNoFirstError(items: seq<Record>)
    requires forall i :: 0 <= i < |items| ==> ItemError(items[i]).None?
    ensures FirstError(items).None?
    decreases |items|
  {
    if |items| > 0 {
      NoItemErrorNoFirstError(items[..|items| - 1]);
    }
  }

  lemma CollectedScoresAppend(items: seq<Record>, item: Record)
    ensures CollectedScores(items + [item])
      == CollectedScores(items) + (match CollectedScore(item) case Some(n) => [n] case None => [])
  {
    assert (items + [item])[..|items|] == items;
  }

  lemma {:induction false} SumOfPositives(xs: seq<int>)
    requires |xs| > 0 && forall i :: 0 <= i < |xs| ==> xs[i] > 0
    ensures Sum(xs) > 0
    decreases |xs|
  {
    if |xs| > 1 {
      SumOfPositives(xs[..|xs| - 1]);
    }
  }

  /** `new_unreviewed` and `critical_urgency` count the records with status "new" and urgency "critical". */
  lemma NewAndCriticalCounts(items: seq<Record>)
    requires Summarize(items).Success?
    ensures Summarize(items).value.newUnreviewed == Occurrences(items, Status, NEW)
    ensures Summarize(items).value.criticalUrgency == Occurrences(items, Urgency, CRITICAL)
    ensures Summarize(items).value.totalIntakes == |items|
  {
    SummaryParts(items);
    CountsMatchRecords(items, Status, NEW);
    CountsMatchRecords(items, Urgency, CRITICAL);
  }

  /** The three counters of a summary each add up to `total_intakes`. */
  lemma SummaryCountsAddUp(items: seq<Record>)
    requires Summarize(items).Success?
    ensures var s := Summarize(items).value;
      Total(s.byCaseType) == s.totalIntakes && Total(s.byUrgency) == s.totalIntakes && Total(s.byStatus) == s.totalIntakes
  {
    SummaryParts(items);
    CountsSumToTotal(items, CaseType);
    CountsSumToTotal(items, Urgency);
    CountsSumToTotal(items, Status);
  }

  lemma ProjectionKeepsTimestampKey(item: Record)
    requires Project(item).Success?
    ensures TimestampKey(Project(item).value) == TimestampKey(item)
  {
  }

  /** The entries are the projections of the first records of the sorted sequence, and keep their timestamps. */
  lemma {:induction false} ChosenEntries(sorted: seq<Record>, l: seq<Record>)
    requires ProjectAll(Take(sorted, LAST_N)) == Success(l)
    ensures |l| == if |sorted| < LAST_N then |sorted| else LAST_N
    ensures forall i :: 0 <= i < |l| ==> Project(sorted[i]) == Success(l[i])
    ensures forall i :: 0 <= i < |l| ==> TimestampKey(l[i]) == TimestampKey(sorted[i])
  {
    var chosen := Take(sorted, LAST_N);
    forall i | 0 <= i < |l|
      ensures Project(sorted[i]) == Success(l[i]) && TimestampKey(l[i]) == TimestampKey(sorted[i])
    {
      assert chosen[i] == sorted[i];
      ProjectionKeepsTimestampKey(sorted[i]);
    }
  }

  /** Entries with the timestamps of a newest-first sequence are newest first. */
  lemma EntriesNewestFirst(sorted: seq<Record>, l: seq<Record>)
    requires NewestFirst(sorted) && |l| <= |sorted|
    requires forall i :: 0 <= i < |l| ==> TimestampKey(l[i]) == TimestampKey(sorted[i])
    ensures NewestFirst(l)
  {
    forall i, j | 0 <= i < j < |l|
      ensures PyStr.LexLe(TimestampKey(l[j]), TimestampKey(l[i]))
    {
      assert TimestampKey(l[j]) == TimestampKey(sorted[j]);
    }
  }

  /**
   * `last_10_intakes` has min(10, n) entries, newest first; each is the
   * projection of a record, with exactly the eight projected keys (none of
   * them hidden, by `ProjectedKeysExcludeHidden`); the records come from the sort, which keeps every record;
   * and no record left out is newer than any record shown.
   */
  lemma Last10Shape(items: seq<Record>)
    requires Last10(items).Success?
    ensures var l := Last10(items).value;
      |l| == if |items| < LAST_N then |items| else LAST_N
    ensures var l := Last10(items).value;
      forall i :: 0 <= i < |l| ==> l[i].Keys == PROJECTED_KEYS
    ensures NewestFirst(Last10(items).value)
    ensures var sorted := SortByTimestamp(items); var l := Last10(items).value;
      && multiset(sorted) == multiset(items)
      && (forall i :: 0 <= i < |l| ==> Project(sorted[i]) == Success(l[i]))
      && (forall i, j :: 0 <= i < |l| <= j < |sorted| ==> PyStr.LexLe(TimestampKey(sorted[j]), TimestampKey(sorted[i])))
  {
    var sorted := SortByTimestamp(items);
    SortByTimestampCorrect(items);
    var l := Last10(items).value;
    ChosenEntries(sorted, l);
    EntriesNewestFirst(sorted, l);
  }

  /** No `last_10_intakes` entry carries the description, the attorney's note, the portal token or the model name. */
  lemma ProjectedKeysExcludeHidden()
    ensures PROJECTED_KEYS !! HIDDEN_KEYS
  {
  }

  /** The summary's `last_10_intakes` is `Last10` of the records. */
  lemma SummaryLast10(items: seq<Record>)
    requires Summarize(items).Success?
    ensures Last10(items) == Success(Summarize(items).value.last10Intakes)
  {
    SummaryParts(items);
  }

  /** An empty table gives a zero summary with empty counters and no entries. */
  lemma EmptySummary()
    ensures Summarize([]) == Success(Summary(0, 0.0, 0, 0, map[], map[], map[], []))
  {
  }
}

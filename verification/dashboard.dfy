/**
 The live-data part of the Dashboard component: every new value of the
 stream hook's slot is normalised into a record (`??` chains over the nested
 `metrics` object, the top-level keys and a legacy alias, with the receipt
 time as the fallback timestamp) and appended to a window of at most 200
 records; the page reads the latest record and the ten newest anomalies.
 */
module Dashboard {
  import opened JsValue

  /** The window keeps `prev.slice(-199)` plus the new record. */
  const Capacity: nat := 200
  /** The anomaly table shows `slice(-10)` of the anomalous records. */
  const AnomalyRows: nat := 10

  /** The six readings resolved as `metrics.f ?? f ?? null`. */
  const MetricFields: seq<string> := ["temperature", "power", "vibration", "pressure", "fineness", "residue"]

  /** Every key the normalised object literal writes after the spread. */
  const ResolvedKeys: set<string> :=
    {"temperature", "emissions", "power", "vibration", "pressure", "fineness", "residue", "timestamp"}

  // ---------------------------------------------------------------------------
  // Normalisation
  // ---------------------------------------------------------------------------

  /** `frame.metrics?.<field>` */
  function Nested(frame: Value, field: string): Value
    requires !IsNullish(frame)
  {
    OptGet(Get(frame, "metrics"), field)
  }

  /** `frame.metrics?.<field> ?? frame.<field> ?? null` */
  function ResolveMetric(frame: Value, field: string): Value
    requires !IsNullish(frame)
  {
    Coalesce(Nested(frame, field), Coalesce(Get(frame, field), Null))
  }

  /** `frame.metrics?.emissions ?? frame.emissions ?? frame.emission ?? null` */
  function ResolveEmissions(frame: Value): Value
    requires !IsNullish(frame)
  {
    Coalesce(Nested(frame, "emissions"), Coalesce(Get(frame, "emissions"), Coalesce(Get(frame, "emission"), Null)))
  }

  /** `frame.timestamp ?? receivedAt` */
  function ResolveTimestamp(frame: Value, receivedAt: string): Value
    requires !IsNullish(frame)
  {
    Coalesce(Get(frame, "timestamp"), Str(receivedAt))
  }

  /** The value the object literal writes for one of its eight resolved keys. */
  function ResolveKey(frame: Value, receivedAt: string, key: string): Value
    requires !IsNullish(frame)
  {
    if key == "emissions" then ResolveEmissions(frame)
    else if key == "timestamp" then ResolveTimestamp(frame, receivedAt)
    else ResolveMetric(frame, key)
  }

  /** The eight keys the object literal writes after its spread. */
  function ResolvedFields(frame: Value, receivedAt: string): (m: map<string, Value>)
    requires !IsNullish(frame)
    ensures m.Keys == ResolvedKeys
  {
    map key | key in ResolvedKeys :: ResolveKey(frame, receivedAt, key)
  }

  /** The record the effect builds from the slot value `frame` received at
      `receivedAt` (an ISO-8601 string), or `None` when `frame` is falsy and
      the effect returns early. The spread copies every own property of the
      frame; the eight resolved keys are then written over it. */
  function Normalize(frame: Value, receivedAt: string): (r: Option<Record>)
    ensures r.Some? <==> Truthy(frame)
    ensures r.Some? ==> r.value.Keys == Spread(frame).Keys + ResolvedKeys
    ensures r.Some? ==> forall k :: k in Spread(frame) && k !in ResolvedKeys ==> r.value[k] == Spread(frame)[k]
  {
    if !Truthy(frame) then None else Some(Spread(frame) + ResolvedFields(frame, receivedAt))
  }

  /** For the six plain readings: the nested value wins when it is not
      nullish, the top-level value is used otherwise, and `null` when both
      are missing; the result is always one of those, never a made-up zero
      and never `undefined`. */
  lemma NormalizeMetricPriority(frame: Value, receivedAt: string, field: string)
    requires Truthy(frame) && field in MetricFields
    ensures var r := Normalize(frame, receivedAt).value;
      && field in r
      && (!IsNullish(Nested(frame, field)) ==> r[field] == Nested(frame, field))
      && (IsNullish(Nested(frame, field)) && !IsNullish(Get(frame, field)) ==> r[field] == Get(frame, field))
      && (IsNullish(Nested(frame, field)) && IsNullish(Get(frame, field)) ==> r[field] == Null)
      && r[field] != Undefined
  {
    assert field in ResolvedKeys && field != "emissions" && field != "timestamp";
  }

  /** `emissions` tries the nested value, then `emissions`, then the legacy
      `emission` key, then `null`. */
  lemma NormalizeEmissionsPriority(frame: Value, receivedAt: string)
    requires Truthy(frame)
    ensures var r := Normalize(frame, receivedAt).value;
      var nested, flat, legacy := Nested(frame, "emissions"), Get(frame, "emissions"), Get(frame, "emission");
      && "emissions" in r
      && (!IsNullish(nested) ==> r["emissions"] == nested)
      && (IsNullish(nested) && !IsNullish(flat) ==> r["emissions"] == flat)
      && (IsNullish(nested) && IsNullish(flat) && !IsNullish(legacy) ==> r["emissions"] == legacy)
      && (IsNullish(nested) && IsNullish(flat) && IsNullish(legacy) ==> r["emissions"] == Null)
  {
  }

  /** A timestamp the frame carries is kept; the receipt time is used only
      when it is nullish. */
  lemma NormalizeTimestamp(frame: Value, receivedAt: string)
    requires Truthy(frame)
    ensures var r := Normalize(frame, receivedAt).value;
      && "timestamp" in r
      && (!IsNullish(Get(frame, "timestamp")) ==> r["timestamp"] == Get(frame, "timestamp"))
      && (IsNullish(Get(frame, "timestamp")) ==> r["timestamp"] == Str(receivedAt))
  {
  }

  /** For an object frame, `metrics`, `anomaly`, `anomaly_type`, `equipment`
      and every other key outside the resolved eight come through unchanged:
      `anomaly` in particular is not coerced to a boolean. */
  lemma NormalizeCopiesObjectKeys(fields: map<string, Value>, receivedAt: string, key: string)
    requires key in fields && key !in ResolvedKeys
    ensures var r := Normalize(Obj(fields), receivedAt).value;
      key in r && r[key] == fields[key]
  {
  }

  /** Reading a key back from a normalised record gives the resolved value
      for the eight resolved keys and the frame's own value for any other. */
  lemma ReadBack(frame: Value, receivedAt: string, key: string)
    requires Truthy(frame)
    ensures var r := Normalize(frame, receivedAt).value;
      Get(Obj(r), key) == if key in ResolvedKeys then ResolveKey(frame, receivedAt, key) else Get(frame, key)
  {
  }

  /** Resolving a key again on a normalised record reproduces its value. */
  lemma ResolveKeyStable(frame: Value, receivedAt: string, laterAt: string, key: string)
    requires Truthy(frame) && key in ResolvedKeys
    ensures var r := Normalize(frame, receivedAt).value;
      ResolveKey(Obj(r), laterAt, key) == ResolveKey(frame, receivedAt, key)
  {
    ReadBack(frame, receivedAt, key);
    if key == "emissions" {
      ReadBack(frame, receivedAt, "metrics");
      ReadBack(frame, receivedAt, "emission");
    } else if key != "timestamp" {
      ReadBack(frame, receivedAt, "metrics");
    }
  }

  /** Normalising a normalised record (at any later time) gives it back. */
  lemma NormalizeIdempotent(frame: Value, receivedAt: string, laterAt: string)
    requires Truthy(frame)
    ensures var r := Normalize(frame, receivedAt).value;
      Normalize(Obj(r), laterAt) == Some(r)
  {
    var r := Normalize(frame, receivedAt).value;
    var rf := ResolvedFields(frame, receivedAt);
    forall key | key in ResolvedKeys
      ensures ResolveKey(Obj(r), laterAt, key) == ResolveKey(frame, receivedAt, key)
    {
      ResolveKeyStable(frame, receivedAt, laterAt, key);
    }
    assert ResolvedFields(Obj(r), laterAt) == rf;
    assert r == Spread(frame) + rf;
    assert r + rf == r;
  }

  // ---------------------------------------------------------------------------
  // Window, latest record, anomaly view
  // ---------------------------------------------------------------------------

  /** `s.slice(start)` for an integer `start`: a negative start counts from
      the end and is clamped at 0, a positive one is clamped at `|s|`. */
  function SliceFrom<T>(s: seq<T>, start: int): seq<T> {
    var from := if start < 0 then (if |s| + start < 0 then 0 else |s| + start)
                else (if start > |s| then |s| else start);
    s[from..]
  }

  /** `[...prev.slice(-199), rec]`: at most 200 records, the new one last,
      before it the newest `min(|prev|, 199)` records of `prev` in their
      original order. */
  function Append<T>(prev: seq<T>, rec: T): (next: seq<T>)
    ensures |next| == Min(|prev| + 1, Capacity)
    ensures next[|next| - 1] == rec
    ensures next[..|next| - 1] == prev[|prev| - (|next| - 1)..]
  {
    SliceFrom(prev, -(Capacity - 1)) + [rec]
  }

  /** The window after a sequence of records has been appended one by one. */
  function AppendAll<T>(window: seq<T>, recs: seq<T>): seq<T>
    decreases |recs|
  {
    if recs == [] then window else Append(AppendAll(window, recs[..|recs| - 1]), recs[|recs| - 1])
  }

  /** From an empty window, `k` appends leave exactly the newest `min(k, 200)`
      records, in insertion order. */
  lemma {:induction false} AppendAllKeepsNewest<T>(recs: seq<T>)
    ensures AppendAll<T>([], recs) == recs[|recs| - Min(|recs|, Capacity)..]
    decreases |recs|
  {
    if recs != [] {
      var init, x := recs[..|recs| - 1], recs[|recs| - 1];
      AppendAllKeepsNewest(init);
      AppendToNewest(init, x);
      assert init + [x] == recs;
    }
  }

  /** One step of the above: appending to the newest `min(n, 200)` of `n`
      records gives the newest `min(n + 1, 200)` of the `n + 1`. */
  lemma AppendToNewest<T>(init: seq<T>, x: T)
    ensures var recs := init + [x];
      Append(init[|init| - Min(|init|, Capacity)..], x) == recs[|recs| - Min(|recs|, Capacity)..]
  {
    var recs := init + [x];
    var w := init[|init| - Min(|init|, Capacity)..];
    var next := Append(w, x);
    var m := |next| - 1;
    assert m == Min(|init|, Capacity - 1);
    assert next == next[..m] + [x];
    assert next[..m] == w[|w| - m..];
    assert w[|w| - m..] == init[|init| - m..];
    assert init[|init| - m..] + [x] == recs[|recs| - (m + 1)..];
  }

  /** `records.length ? records[records.length - 1] : {}` */
  function Latest(records: seq<Record>): (r: Value)
    ensures r.Obj?
    ensures records == [] ==> r.fields == map[]
    ensures records != [] ==> r.fields == records[|records| - 1]
  {
    if |records| > 0 then Obj(records[|records| - 1]) else Obj(map[])
  }

  /** The latest record is the one just appended. */
  lemma LatestAfterAppend(prev: seq<Record>, rec: Record)
    ensures Latest(Append(prev, rec)) == Obj(rec)
  {
  }

  /** `r.anomaly` */
  function AnomalyFlag(r: Record): Value {
    if "anomaly" in r then r["anomaly"] else Undefined
  }

  /** `records.filter(r => r.anomaly)`, defined from the newest end. */
  function Anomalous(records: seq<Record>): (r: seq<Record>)
    ensures |r| <= |records|
    ensures forall x <- r :: Truthy(AnomalyFlag(x))
    decreases |records|
  {
    if records == [] then []
    else
      var last := records[|records| - 1];
      Anomalous(records[..|records| - 1]) + (if Truthy(AnomalyFlag(last)) then [last] else [])
  }

  /** The filter keeps exactly the records with a truthy `anomaly`. */
  lemma {:induction false} AnomalousMembers(records: seq<Record>)
    ensures forall r <- Anomalous(records) :: r in records && Truthy(AnomalyFlag(r))
    ensures forall r <- records :: Truthy(AnomalyFlag(r)) ==> r in Anomalous(records)
    decreases |records|
  {
    if records != [] {
      var init := records[..|records| - 1];
      AnomalousMembers(init);
      assert records == init + [records[|records| - 1]];
    }
  }

  function Reverse<T>(s: seq<T>): (r: seq<T>)
    ensures |r| == |s|
    ensures forall x <- r :: x in s
    decreases |s|
  {
    if s == [] then [] else [s[|s| - 1]] + Reverse(s[..|s| - 1])
  }

  lemma {:induction false} ReverseAt<T>(s: seq<T>, i: nat)
    requires i < |s|
    ensures Reverse(s)[i] == s[|s| - 1 - i]
    decreases |s|
  {
    if i > 0 {
      ReverseAt(s[..|s| - 1], i - 1);
    }
  }

  /** `records.filter(r => r.anomaly).slice(-10).reverse()` */
  function RecentAnomalies(records: seq<Record>): (r: seq<Record>)
    ensures |r| == Min(|Anomalous(records)|, AnomalyRows)
    ensures forall x <- r :: Truthy(AnomalyFlag(x))
  {
    Reverse(SliceFrom(Anomalous(records), -(AnomalyRows as int)))
  }

  /** The anomaly table holds the newest `min(10, n)` of the `n` anomalous
      records, newest first: row `i` is the `i`-th anomaly counted back from
      the newest, so every row has a truthy `anomaly` and comes from the window. */
  lemma RecentAnomaliesSpec(records: seq<Record>)
    ensures var a, v := Anomalous(records), RecentAnomalies(records);
      && |v| == Min(|a|, AnomalyRows)
      && (forall i :: 0 <= i < |v| ==> v[i] == a[|a| - 1 - i])
      && (forall i :: 0 <= i < |v| ==> v[i] in records && Truthy(AnomalyFlag(v[i])))
  {
    var a, v := Anomalous(records), RecentAnomalies(records);
    var tail := SliceFrom(a, -(AnomalyRows as int));
    AnomalousMembers(records);
    forall i | 0 <= i < |v|
      ensures v[i] == a[|a| - 1 - i]
    {
      ReverseAt(tail, i);
    }
    forall i | 0 <= i < |v|
      ensures v[i] in records && Truthy(AnomalyFlag(v[i]))
    {
      assert v[i] == a[|a| - 1 - i];
      assert v[i] in a;
    }
  }

  /** Appending a record puts it at the head of the anomaly table when its
      `anomaly` is truthy, pushing the other rows down by one (at most ten
      rows remain); a record without a truthy `anomaly` leaves the table as
      it was for the records the window kept. */
  lemma RecentAnomaliesAfterAppend(prev: seq<Record>, rec: Record)
    ensures var next := Append(prev, rec);
      var kept := next[..|next| - 1];
      var before := RecentAnomalies(kept);
      RecentAnomalies(next) ==
        if Truthy(AnomalyFlag(rec)) then [rec] + before[..Min(|before|, AnomalyRows - 1)] else before
  {
    var next := Append(prev, rec);
    var kept := next[..|next| - 1];
    assert next == kept + [rec];
    RecentAnomaliesSnoc(kept, rec);
  }

  lemma RecentAnomaliesSnoc(kept: seq<Record>, rec: Record)
    ensures var before := RecentAnomalies(kept);
      RecentAnomalies(kept + [rec]) ==
        if Truthy(AnomalyFlag(rec)) then [rec] + before[..Min(|before|, AnomalyRows - 1)] else before
  {
    var next := kept + [rec];
    assert next[..|next| - 1] == kept;
    var a := Anomalous(kept);
    assert Anomalous(next) == a + (if Truthy(AnomalyFlag(rec)) then [rec] else []);
    if Truthy(AnomalyFlag(rec)) {
      var before := RecentAnomalies(kept);
      var after := RecentAnomalies(next);
      RecentAnomaliesSpec(kept);
      RecentAnomaliesSpec(next);
      var expected := [rec] + before[..Min(|before|, AnomalyRows - 1)];
      assert |after| == |expected|;
      forall i | 0 <= i < |after|
        ensures after[i] == expected[i]
      {
        if i > 0 {
          assert expected[i] == before[i - 1];
        }
      }
      assert after == expected;
    } else {
      assert Anomalous(next) == a;
    }
  }

  /** The `records` state slot of the component. */
  class RecordWindow {
    var records: seq<Record>

    ghost predicate Valid()
      reads this
    {
      |records| <= Capacity
    }

    /** `useState([])` */
    constructor ()
      ensures Valid() && records == []
    {
      records := [];
    }

    /** The effect as it runs for each slot value `wsData` that React
        renders: a falsy value leaves the window alone, any other is
        normalised and appended. */
    method OnStreamData(wsData: Value, receivedAt: string)
      requires Valid()
      modifies this
      ensures Valid()
      ensures !Truthy(wsData) ==> records == old(records)
      ensures Truthy(wsData) ==> records == Append(old(records), Normalize(wsData, receivedAt).value)
    {
      var normalized := Normalize(wsData, receivedAt);
      if normalized.Some? {
        records := Append(records, normalized.value);
      }
    }
  }
}

/** The cache of metrics in use (telemetry-aware-scheduling/pkg/cache): reference counts per metric, and the data
    store behind a channel whose loop handles one request at a time. */
module MetricCache {
  import opened Text

  /** Node -> value, for one metric. */
  type Data = map<string, real>

  /** What is stored for a metric: nil until data has been fetched. */
  type Payload = Option<Data>

  datatype Request = Write(key: string, payload: Payload) | Delete(key: string)

  type Counts = map<string, int>
  type Store = map<string, Payload>

  /** One turn of the store's loop; a nil payload does not overwrite. */
  function Handle(store: Store, req: Request): Store {
    match req
    case Write(key, payload) => store[key := if payload.None? && key in store then store[key] else payload]
    case Delete(key) => store - {key}
  }

  /** add sends its request twice; the second one changes nothing. */
  lemma AddedTwice(store: Store, key: string, payload: Payload)
    ensures Handle(Handle(store, Write(key, payload)), Write(key, payload)) == Handle(store, Write(key, payload))
  {
  }

  /** Writing without data counts one more user of the metric. */
  function Increment(counts: Counts, name: string): Counts {
    counts[name := if name in counts then counts[name] + 1 else 1]
  }

  /** Deleting drops the metric with its last user. A metric without users would be counted at -1. */
  function Decrement(counts: Counts, name: string): Counts {
    if name in counts && counts[name] == 1 then counts - {name}
    else counts[name := (if name in counts then counts[name] else 0) - 1]
  }

  predicate IsLast(counts: Counts, name: string) { name in counts && counts[name] == 1 }

  /** nilPayloadCheck. */
  function NilPayloadCheck(data: Data): Payload { if |data| > 0 then Some(data) else None }

  class AutoUpdatingCache {
    var metricMap: Counts
    var store: Store

    constructor ()
      ensures metricMap == map[] && store == map[]
    {
      metricMap, store := map[], map[];
    }

    method Send(req: Request)
      modifies this`store
      ensures store == Handle(old(store), req)
    {
      store := Handle(store, req);
    }

    method Add(key: string, payload: Payload)
      modifies this`store
      ensures store == Handle(old(store), Write(key, payload))
    {
      AddedTwice(store, key, payload);
      Send(Write(key, payload));
      Send(Write(key, payload));
    }

    function ReadMetric(name: string): (r: Option<Data>)
      reads this
      ensures r.Some? <==> name in store && store[name].Some?
      ensures r.Some? ==> store[name] == r
    {
      if name in store then store[name] else None
    }

    method WriteMetric(name: string, data: Data) returns (ok: bool)
      modifies this
      ensures ok <==> name != ""
      ensures store == if ok then Handle(old(store), Write(name, NilPayloadCheck(data))) else old(store)
      ensures metricMap == if ok && data == map[] then Increment(old(metricMap), name) else old(metricMap)
      ensures ok && data == map[] ==> name in store && forall m :: ReadMetric(m) == old(ReadMetric(m))
      ensures ok && data != map[] ==>
        ReadMetric(name) == Some(data) && forall m :: m != name ==> ReadMetric(m) == old(ReadMetric(m))
    {
      if |name| == 0 {
        return false;
      }
      var payload := NilPayloadCheck(data);
      Add(name, payload);
      if payload == None {
        if name in metricMap {
          metricMap := metricMap[name := metricMap[name] + 1];
        } else {
          metricMap := metricMap[name := 1];
        }
      }
      ok := true;
    }

    method DeleteMetric(name: string)
      modifies this
      ensures metricMap == Decrement(old(metricMap), name)
      ensures store == if IsLast(old(metricMap), name) then old(store) - {name} else old(store)
      ensures forall m ::
        ReadMetric(m)
        == if m == name && name in old(metricMap) && old(metricMap)[name] == 1 then None else old(ReadMetric(m))
    {
      var total := if name in metricMap then metricMap[name] else 0;
      if name in metricMap && total == 1 {
        metricMap := metricMap - {name};
        Send(Delete(name));
      } else {
        metricMap := metricMap[name := total - 1];
      }
    }

    method UpdateMetric(name: string, fetched: map<string, Data>)
      requires name != "" && (name in fetched ==> fetched[name] != map[])
      modifies this
      ensures metricMap == old(metricMap)
      ensures store == if name in fetched then old(store)[name := Some(fetched[name])] else old(store)
    {
      if name in fetched {
        var ok := WriteMetric(name, fetched[name]);
      }
    }

    /** Fetches every counted metric; fetched holds the metrics the metrics API answers for, which it does with at
        least one node. Only counted metrics get data. */
    method UpdateAllMetrics(fetched: map<string, Data>)
      requires forall m :: m in fetched ==> fetched[m] != map[]
      modifies this
      ensures metricMap == old(metricMap) - {""}
      ensures store == Refreshed(old(store), old(metricMap), fetched)
      ensures forall m ::
        ReadMetric(m)
        == if m in old(metricMap) && m != "" && m in fetched then Some(fetched[m]) else old(ReadMetric(m))
    {
      var todo := metricMap.Keys;
      ghost var counts, stored := metricMap, store;
      while todo != {}
        invariant todo <= counts.Keys && Refreshing(counts, stored, todo, fetched)
        decreases todo
      {
        var name := AnyOf(todo);
        UpdateOrDrop(name, fetched);
        RefreshedMore(stored, counts, todo, name, fetched);
        todo := todo - {name};
      }
      AllRefreshed(counts, stored, fetched);
    }

    /** The counted metrics outside todo have been updated. */
    ghost predicate Refreshing(counts: Counts, stored: Store, todo: set<string>, fetched: map<string, Data>)
      reads this
    {
      && metricMap == (if "" in todo then counts else counts - {""})
      && store == Refreshed(stored, counts - todo, fetched)
    }

    lemma AllRefreshed(counts: Counts, stored: Store, fetched: map<string, Data>)
      requires Refreshing(counts, stored, {}, fetched)
      ensures metricMap == counts - {""} && store == Refreshed(stored, counts, fetched)
      ensures forall m ::
        ReadMetric(m) == if m in counts && m != "" && m in fetched then Some(fetched[m])
                         else if m in stored then stored[m] else None
    {
      assert counts - {} == counts;
    }

    method UpdateOrDrop(name: string, fetched: map<string, Data>)
      requires name in fetched ==> fetched[name] != map[]
      modifies this
      ensures metricMap == if name == "" then old(metricMap) - {""} else old(metricMap)
      ensures store == if name != "" && name in fetched then old(store)[name := Some(fetched[name])] else old(store)
    {
      if |name| > 0 {
        UpdateMetric(name, fetched);
      } else {
        metricMap := metricMap - {name};
      }
    }
  }

  /** The store after every counted metric that could be fetched has been written. */
  ghost function Refreshed(store: Store, counts: Counts, fetched: map<string, Data>): Store {
    store + Answers(counts, fetched)
  }

  ghost function Answers(counts: Counts, fetched: map<string, Data>): Store {
    map m | m in counts && m != "" && m in fetched :: Some(fetched[m])
  }

  lemma RefreshedMore(store: Store, counts: Counts, todo: set<string>, name: string, fetched: map<string, Data>)
    requires name in todo && name in counts
    ensures Refreshed(store, counts - (todo - {name}), fetched)
         == if name != "" && name in fetched then Refreshed(store, counts - todo, fetched)[name := Some(fetched[name])]
            else Refreshed(store, counts - todo, fetched)
  {
    AnswersMore(counts, todo, name, fetched);
  }

  lemma AnswersMore(counts: Counts, todo: set<string>, name: string, fetched: map<string, Data>)
    requires name in todo && name in counts
    ensures Answers(counts - (todo - {name}), fetched)
         == if name != "" && name in fetched then Answers(counts - todo, fetched)[name := Some(fetched[name])]
            else Answers(counts - todo, fetched)
  {
    var less, more := counts - todo, counts - (todo - {name});
    assert forall m :: m in more <==> m in less || m == name;
  }

  // ---- data only for metrics in use, whatever interleaves ----

  /** The atomic steps of the two goroutines that use the cache: the policy handler sends a nil write before it
      counts the metric, and holds the lock while it drops one; the updater holds the lock while it sends data for
      metrics it finds counted. */
  datatype Step = NilSend(name: string) | Count(name: string) | Drop(name: string) | DataSend(name: string, data: Data)

  predicate Enabled(counts: Counts, step: Step) { step.DataSend? ==> step.name in counts }

  function CountsAfter(counts: Counts, step: Step): Counts {
    match step
    case Count(name) => Increment(counts, name)
    case Drop(name) => Decrement(counts, name)
    case _ => counts
  }

  function StoreAfter(counts: Counts, store: Store, step: Step): Store {
    match step
    case NilSend(name) => Handle(store, Write(name, None))
    case DataSend(name, data) => Handle(store, Write(name, Some(data)))
    case Drop(name) => if IsLast(counts, name) then Handle(store, Delete(name)) else store
    case Count(_) => store
  }

  ghost predicate DataOnlyForCounted(counts: Counts, store: Store) {
    forall m :: m in store && store[m].Some? ==> m in counts
  }

  ghost predicate StepRun(states: seq<(Counts, Store)>, steps: seq<Step>) {
    && |states| == |steps| + 1
    && forall i :: 0 <= i < |steps| ==>
      && Enabled(states[i].0, steps[i])
      && states[i + 1] == (CountsAfter(states[i].0, steps[i]), StoreAfter(states[i].0, states[i].1, steps[i]))
  }

  /** However the sends of the updater and the handler interleave, only counted metrics ever have data. */
  lemma {:induction false} InterleavedDataOnlyForCounted(states: seq<(Counts, Store)>, steps: seq<Step>, i: nat)
    requires StepRun(states, steps) && i < |states| && DataOnlyForCounted(states[0].0, states[0].1)
    ensures DataOnlyForCounted(states[i].0, states[i].1)
  {
    if i > 0 {
      InterleavedDataOnlyForCounted(states, steps, i - 1);
      assert Enabled(states[i - 1].0, steps[i - 1]);
    }
  }

  // ---- counting references ----

  /** Holders is who uses a metric; the counts are exact when they count holders and mention no other metric. */
  ghost function Holders<R(!new)>(held: map<R, string>, m: string): set<R> { set r | r in held && held[r] == m }

  ghost predicate CountsMatch<R(!new)>(counts: Counts, held: map<R, string>) {
    forall m :: CountMatches(counts, held, m)
  }

  ghost predicate CountMatches<R(!new)>(counts: Counts, held: map<R, string>, m: string) {
    && (m in counts <==> Holders(held, m) != {})
    && (m in counts ==> counts[m] == |Holders(held, m)|)
  }

  lemma HoldersTaken<R(!new)>(held: map<R, string>, r: R, name: string, m: string)
    requires r !in held
    ensures Holders(held[r := name], m) == if m == name then Holders(held, m) + {r} else Holders(held, m)
    ensures |Holders(held[r := name], m)| == |Holders(held, m)| + if m == name then 1 else 0
  {
    assert r !in Holders(held, m);
  }

  lemma HoldersReleased<R(!new)>(held: map<R, string>, r: R, m: string)
    requires r in held
    ensures Holders(held - {r}, m) == if m == held[r] then Holders(held, m) - {r} else Holders(held, m)
    ensures |Holders(held - {r}, m)| == |Holders(held, m)| - if m == held[r] then 1 else 0
  {
    if m == held[r] {
      assert r in Holders(held, m);
    }
  }

  lemma Take<R(!new)>(counts: Counts, held: map<R, string>, r: R, name: string)
    requires CountsMatch(counts, held) && r !in held
    ensures CountsMatch(Increment(counts, name), held[r := name])
  {
    var after, now := Increment(counts, name), held[r := name];
    forall m ensures CountMatches(after, now, m) {
      assert CountMatches(counts, held, m);
      HoldersTaken(held, r, name, m);
    }
  }

  /** The metric is dropped exactly when its last holder lets go. */
  lemma Release<R(!new)>(counts: Counts, held: map<R, string>, r: R)
    requires CountsMatch(counts, held) && r in held
    ensures CountsMatch(Decrement(counts, held[r]), held - {r})
    ensures IsLast(counts, held[r]) <==> Holders(held - {r}, held[r]) == {}
  {
    var name := held[r];
    var after, now := Decrement(counts, name), held - {r};
    forall m ensures CountMatches(after, now, m) {
      assert CountMatches(counts, held, m);
      HoldersReleased(held, r, m);
      assert m == name ==> r in Holders(held, m);
    }
    assert CountMatches(counts, held, name);
    HoldersReleased(held, r, name);
    assert r in Holders(held, name);
  }
}

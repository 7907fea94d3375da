/** The exporter around the decoder: metric registration at start-up and the
    update of the registered series from each decoded frame. The metrics
    library is abstracted to a registry of metric names and a sink holding
    one value per series. */
module Exporter {
  import opened Wrappers
  import opened Decimal
  import opened Catalog
  import opened Speedwire
  import opened Mappings

  /** A projection table: decoder key to its row. */
  type Table = map<string, seq<string>>

  /** The values of all series. Gauges and counters are separate metric
      families. Values are naturals: the decoder only emits naturals below
      2^53, each of which an f64 holds exactly. */
  datatype Sink = Sink(gauges: map<Cell, nat>, counters: map<Cell, nat>)

  /** The gauge and counter metric names registered at start-up. */
  datatype Registry = Registry(gauges: set<string>, counters: set<string>)

  /** Why the exporter panics. */
  datatype Fault =
    | IndexOutOfRange(key: string, index: nat)  // `values[index]` past the end of the row of `key`
    | AlreadyRegistered(metric: string)         // `register(..).unwrap()` on a name already taken
    | Unregistered(metric: string)              // `get(..).unwrap()` on a metric never registered
    | Unparsable(text: string)                  // `parse::<f64>().unwrap()` on a non-number

  /** `keys` lists exactly the keys of `m`, in the hash map's iteration order. */
  predicate Enumerates(keys: seq<string>, m: Table) {
    && (forall i :: 0 <= i < |keys| ==> keys[i] in m)
    && (forall k :: k in m ==> k in keys)
  }

  function KeySet(keys: seq<string>): set<string> {
    set k | k in keys
  }

  // ---------------------------------------------------------------------
  // Registration

  /** One gauge name per row: the row's first element. */
  function GaugeNames(m: Table): set<string> {
    set k | k in m && |m[k]| > 0 :: m[k][0]
  }

  /** One counter name per three-element row: the row's second element. */
  function CounterNames(m: Table): set<string> {
    set k | k in m && |m[k]| == 3 :: m[k][1]
  }

  /** Registration gets through a table exactly when no row is empty and no
      name is wanted both as a gauge and as a counter (the registry refuses
      a second metric of a taken name). */
  predicate RegistrationSucceeds(m: Table) {
    && (forall k :: k in m ==> |m[k]| > 0)
    && GaugeNames(m) !! CounterNames(m)
  }

  /** The start-up loop: for every key, register its gauge unless a gauge of
      that name exists, then, for a three-element row, its counter unless a
      counter of that name exists. `log` lists the names in the order they
      are registered. */
  method RegisterMetrics(m: Table, keys: seq<string>) returns (r: Result<Registry, Fault>, log: seq<string>)
    requires Enumerates(keys, m)
    ensures r.Ok? <==> RegistrationSucceeds(m)
    ensures r.Ok? ==> r.value == Registry(GaugeNames(m), CounterNames(m))
    ensures r.Ok? ==> (forall a, b :: 0 <= a < b < |log| ==> log[a] != log[b])
    ensures r.Ok? ==> (set x | x in log) == GaugeNames(m) + CounterNames(m)
  {
    var gauges: set<string> := {};
    var counters: set<string> := {};
    log := [];
    var i := 0;
    while i < |keys|
      invariant 0 <= i <= |keys|
      invariant forall j :: 0 <= j < i ==> |m[keys[j]]| > 0
      invariant gauges == set j | 0 <= j < i :: m[keys[j]][0]
      invariant counters == set j | 0 <= j < i && |m[keys[j]]| == 3 :: m[keys[j]][1]
      invariant gauges !! counters
      invariant forall a, b :: 0 <= a < b < |log| ==> log[a] != log[b]
      invariant (set x | x in log) == gauges + counters
    {
      var key := keys[i];
      var values := m[key];
      if |values| == 0 {
        r := Err(IndexOutOfRange(key, 0));
        return;
      }
      var gaugeKey := values[0];
      assert gaugeKey in GaugeNames(m);
      if gaugeKey !in gauges {
        if gaugeKey in counters {
          ghost var j :| 0 <= j < i && |m[keys[j]]| == 3 && m[keys[j]][1] == gaugeKey;
          assert gaugeKey in CounterNames(m);
          r := Err(AlreadyRegistered(gaugeKey));
          return;
        }
        gauges := gauges + {gaugeKey};
        log := log + [gaugeKey];
      }
      if |values| == 3 {
        var counterKey := values[1];
        assert counterKey in CounterNames(m);
        if counterKey !in counters {
          if counterKey in gauges {
            ghost var j :| 0 <= j <= i && |m[keys[j]]| > 0 && m[keys[j]][0] == counterKey;
            assert counterKey in GaugeNames(m);
            r := Err(AlreadyRegistered(counterKey));
            return;
          }
          counters := counters + {counterKey};
          log := log + [counterKey];
        }
      }
      i := i + 1;
    }
    forall k | k in m
      ensures |m[k]| > 0 && m[k][0] in gauges && (|m[k]| == 3 ==> m[k][1] in counters)
    {
      var j :| 0 <= j < |keys| && keys[j] == k;
    }
    assert gauges == GaugeNames(m);
    assert counters == CounterNames(m);
    r := Ok(Registry(gauges, counters));
  }

  // ---------------------------------------------------------------------
  // The update pass

  /** Setting the gauge series of `key`'s row to the parsed frame value. The
      row is indexed, then the metric looked up, then the text parsed; the
      first of these to fail is the fault. */
  function SetGauge(reg: Registry, key: string, row: seq<string>, text: string, sink: Sink): (r: Result<Sink, Fault>)
    ensures r.Ok? <==> |row| >= 2 && row[0] in reg.gauges && ParseNat(text).Some?
    ensures r.Ok? ==> r.value.counters == sink.counters
    ensures r.Ok? ==> GaugeCell(row) in r.value.gauges && r.value.gauges[GaugeCell(row)] == ParseNat(text).value
    ensures r.Ok? ==> r.value.gauges - {GaugeCell(row)} == sink.gauges - {GaugeCell(row)}
  {
    if |row| == 0 then Err(IndexOutOfRange(key, 0))
    else if |row| < 2 then Err(IndexOutOfRange(key, 1))
    else if row[0] !in reg.gauges then Err(Unregistered(row[0]))
    else match ParseNat(text)
      case None => Err(Unparsable(text))
      case Some(v) => Ok(sink.(gauges := sink.gauges[GaugeCell(row) := v]))
  }

  /** Resetting the counter series of `key`'s three-element row and then
      incrementing it by the parsed frame value. */
  function SetCounter(reg: Registry, key: string, row: seq<string>, text: string, sink: Sink): (r: Result<Sink, Fault>)
    ensures r.Ok? <==> |row| >= 3 && row[1] in reg.counters && ParseNat(text).Some?
    ensures r.Ok? ==> r.value.gauges == sink.gauges
    ensures r.Ok? ==> CounterCell(row) in r.value.counters && r.value.counters[CounterCell(row)] == ParseNat(text).value
    ensures r.Ok? ==> r.value.counters - {CounterCell(row)} == sink.counters - {CounterCell(row)}
  {
    if |row| < 2 then Err(IndexOutOfRange(key, 1))
    else if |row| < 3 then Err(IndexOutOfRange(key, 2))
    else if row[1] !in reg.counters then Err(Unregistered(row[1]))
    else
      var cell := CounterCell(row);
      var reset := sink.counters[cell := 0];
      match ParseNat(text)
      case None => Err(Unparsable(text))
      case Some(v) => Ok(sink.(counters := reset[cell := reset[cell] + v]))
  }

  /** The gauge of `key` can be set, if the frame has `key`. */
  predicate GaugeOk(reg: Registry, m: Table, frame: Frame, key: string)
    requires key in m
  {
    key in frame ==> |m[key]| >= 2 && m[key][0] in reg.gauges && ParseNat(frame[key]).Some?
  }

  /** The counter of `key` can be set, if the frame has `key + "counter"`. */
  predicate CounterOk(reg: Registry, m: Table, frame: Frame, key: string)
    requires key in m
  {
    key + "counter" in frame ==>
      |m[key]| >= 3 && m[key][1] in reg.counters && ParseNat(frame[key + "counter"]).Some?
  }

  predicate KeyOk(reg: Registry, m: Table, frame: Frame, key: string)
    requires key in m
  {
    GaugeOk(reg, m, frame, key) && CounterOk(reg, m, frame, key)
  }

  /** One turn of the update loop: the gauge from `frame[key]`, then the
      counter from `frame[key + "counter"]`, each only if present. */
  function UpdateKey(reg: Registry, m: Table, frame: Frame, key: string, sink: Sink): (r: Result<Sink, Fault>)
    requires key in m
    ensures r.Ok? <==> KeyOk(reg, m, frame, key)
    ensures r.Ok? && key !in frame ==> r.value.gauges == sink.gauges
    ensures r.Ok? && key + "counter" !in frame ==> r.value.counters == sink.counters
    ensures r.Ok? && key in frame ==>
              GaugeCell(m[key]) in r.value.gauges && r.value.gauges[GaugeCell(m[key])] == ParseNat(frame[key]).value
    ensures r.Ok? && key in frame ==>
              r.value.gauges - {GaugeCell(m[key])} == sink.gauges - {GaugeCell(m[key])}
    ensures r.Ok? && key + "counter" in frame ==>
              CounterCell(m[key]) in r.value.counters
              && r.value.counters[CounterCell(m[key])] == ParseNat(frame[key + "counter"]).value
    ensures r.Ok? && key + "counter" in frame ==>
              r.value.counters - {CounterCell(m[key])} == sink.counters - {CounterCell(m[key])}
  {
    var afterGauge :- if key in frame then SetGauge(reg, key, m[key], frame[key], sink) else Ok(sink);
    if key + "counter" in frame then SetCounter(reg, key, m[key], frame[key + "counter"], afterGauge)
    else Ok(afterGauge)
  }

  /** The update pass over the table's keys in iteration order, stopping at
      the first fault. It succeeds exactly when every key's updates can be
      made, whatever the sink holds. */
  function UpdatePass(reg: Registry, m: Table, frame: Frame, keys: seq<string>, sink: Sink): (r: Result<Sink, Fault>)
    requires forall i :: 0 <= i < |keys| ==> keys[i] in m
    ensures r.Ok? <==> forall k :: k in keys ==> KeyOk(reg, m, frame, k)
    decreases |keys|
  {
    if |keys| == 0 then Ok(sink)
    else
      assert forall k :: k in keys <==> k == keys[0] || k in keys[1..];
      var next :- UpdateKey(reg, m, frame, keys[0], sink);
      UpdatePass(reg, m, frame, keys[1..], next)
  }

  /** The gauge series the pass writes: one per key present in the frame. */
  function GaugeTargets(m: Table, frame: Frame, ks: set<string>): set<Cell> {
    set k | k in ks && k in m && k in frame && |m[k]| >= 2 :: GaugeCell(m[k])
  }

  /** The counter series the pass writes: one per key whose counter value is
      present in the frame. */
  function CounterTargets(m: Table, frame: Frame, ks: set<string>): set<Cell> {
    set k | k in ks && k in m && k + "counter" in frame && |m[k]| >= 3 :: CounterCell(m[k])
  }

  /** The value the frame gives the gauge of `k`. */
  function GaugeValue(frame: Frame, k: string): nat
    requires k in frame && ParseNat(frame[k]).Some?
  {
    ParseNat(frame[k]).value
  }

  function CounterValue(frame: Frame, k: string): nat
    requires k + "counter" in frame && ParseNat(frame[k + "counter"]).Some?
  {
    ParseNat(frame[k + "counter"]).value
  }

  lemma UpdatePassStep(reg: Registry, m: Table, frame: Frame, keys: seq<string>, sink: Sink)
    requires |keys| > 0 && forall i :: 0 <= i < |keys| ==> keys[i] in m
    ensures UpdatePass(reg, m, frame, keys, sink) ==
              match UpdateKey(reg, m, frame, keys[0], sink)
              case Ok(next) => UpdatePass(reg, m, frame, keys[1..], next)
              case Err(e) => Err(e)
  {
  }

  lemma TargetsStep(m: Table, frame: Frame, keys: seq<string>)
    requires |keys| > 0 && forall i :: 0 <= i < |keys| ==> keys[i] in m
    ensures KeySet(keys) == {keys[0]} + KeySet(keys[1..])
    ensures GaugeTargets(m, frame, KeySet(keys)) ==
              GaugeTargets(m, frame, {keys[0]}) + GaugeTargets(m, frame, KeySet(keys[1..]))
    ensures CounterTargets(m, frame, KeySet(keys)) ==
              CounterTargets(m, frame, {keys[0]}) + CounterTargets(m, frame, KeySet(keys[1..]))
  {
    assert forall k :: k in keys <==> k == keys[0] || k in keys[1..];
  }

  /** Series whose keys are absent from the frame are left as they were. */
  lemma {:induction false} UpdatePassUntouched(reg: Registry, m: Table, frame: Frame, keys: seq<string>, sink: Sink)
    requires forall i :: 0 <= i < |keys| ==> keys[i] in m
    requires UpdatePass(reg, m, frame, keys, sink).Ok?
    ensures var r := UpdatePass(reg, m, frame, keys, sink).value;
      && r.gauges - GaugeTargets(m, frame, KeySet(keys)) == sink.gauges - GaugeTargets(m, frame, KeySet(keys))
      && r.counters - CounterTargets(m, frame, KeySet(keys)) == sink.counters - CounterTargets(m, frame, KeySet(keys))
    decreases |keys|
  {
    if |keys| > 0 {
      UpdatePassStep(reg, m, frame, keys, sink);
      TargetsStep(m, frame, keys);
      var next := UpdateKey(reg, m, frame, keys[0], sink).value;
      UpdatePassUntouched(reg, m, frame, keys[1..], next);
      var r := UpdatePass(reg, m, frame, keys, sink).value;
      var tg := GaugeTargets(m, frame, KeySet(keys));
      var tc := CounterTargets(m, frame, KeySet(keys));
      UpdateKeyOffTargets(reg, m, frame, keys[0], sink);
      SubtractMore(r.gauges, next.gauges, GaugeTargets(m, frame, KeySet(keys[1..])), tg);
      SubtractMore(r.counters, next.counters, CounterTargets(m, frame, KeySet(keys[1..])), tc);
      SubtractMore(next.gauges, sink.gauges, GaugeTargets(m, frame, {keys[0]}), tg);
      SubtractMore(next.counters, sink.counters, CounterTargets(m, frame, {keys[0]}), tc);
    }
  }

  /** Removing more keys keeps two maps that agree off a set in agreement. */
  lemma SubtractMore(a: map<Cell, nat>, b: map<Cell, nat>, t1: set<Cell>, t2: set<Cell>)
    requires t1 <= t2 && a - t1 == b - t1
    ensures a - t2 == b - t2
  {
    assert a - t2 == (a - t1) - t2;
    assert b - t2 == (b - t1) - t2;
  }

  /** One turn changes only the series of its own key. */
  lemma UpdateKeyOffTargets(reg: Registry, m: Table, frame: Frame, key: string, sink: Sink)
    requires key in m && UpdateKey(reg, m, frame, key, sink).Ok?
    ensures var next := UpdateKey(reg, m, frame, key, sink).value;
      && next.gauges - GaugeTargets(m, frame, {key}) == sink.gauges - GaugeTargets(m, frame, {key})
      && next.counters - CounterTargets(m, frame, {key}) == sink.counters - CounterTargets(m, frame, {key})
  {
    var next := UpdateKey(reg, m, frame, key, sink).value;
    var tg := GaugeTargets(m, frame, {key});
    var tc := CounterTargets(m, frame, {key});
    var afterGauge := if key in frame then SetGauge(reg, key, m[key], frame[key], sink).value else sink;
    if key in frame {
      assert GaugeCell(m[key]) in tg;
      assert afterGauge.gauges - tg == sink.gauges - tg;
    }
    assert next.gauges == afterGauge.gauges;
    assert afterGauge.counters == sink.counters;
    if key + "counter" in frame {
      assert CounterCell(m[key]) in tc;
      assert next.counters - tc == afterGauge.counters - tc;
    }
  }

  /** Every written series ends up holding the frame value of some key that
      targets it. */
  lemma {:induction false} UpdatePassWrites(reg: Registry, m: Table, frame: Frame, keys: seq<string>, sink: Sink, c: Cell)
    requires forall i :: 0 <= i < |keys| ==> keys[i] in m
    requires UpdatePass(reg, m, frame, keys, sink).Ok?
    ensures var r := UpdatePass(reg, m, frame, keys, sink).value;
      && (c in GaugeTargets(m, frame, KeySet(keys)) ==>
            c in r.gauges && exists k :: k in keys && k in frame && |m[k]| >= 2 && GaugeCell(m[k]) == c
                                       && ParseNat(frame[k]).Some? && r.gauges[c] == GaugeValue(frame, k))
      && (c in CounterTargets(m, frame, KeySet(keys)) ==>
            c in r.counters && exists k :: k in keys && k + "counter" in frame && |m[k]| >= 3 && CounterCell(m[k]) == c
                                         && ParseNat(frame[k + "counter"]).Some? && r.counters[c] == CounterValue(frame, k))
    decreases |keys|
  {
    if |keys| > 0 {
      UpdatePassStep(reg, m, frame, keys, sink);
      TargetsStep(m, frame, keys);
      var k0 := keys[0];
      var next := UpdateKey(reg, m, frame, k0, sink).value;
      var r := UpdatePass(reg, m, frame, keys, sink).value;
      UpdatePassWrites(reg, m, frame, keys[1..], next, c);
      UpdatePassUntouched(reg, m, frame, keys[1..], next);
      assert KeyOk(reg, m, frame, k0);
      if c in GaugeTargets(m, frame, KeySet(keys)) && c !in GaugeTargets(m, frame, KeySet(keys[1..])) {
        assert c == GaugeCell(m[k0]);
        var afterGauge := SetGauge(reg, k0, m[k0], frame[k0], sink).value;
        assert c in afterGauge.gauges && afterGauge.gauges[c] == GaugeValue(frame, k0);
        assert next.gauges == afterGauge.gauges;
        assert c in r.gauges - GaugeTargets(m, frame, KeySet(keys[1..]));
      }
      if c in CounterTargets(m, frame, KeySet(keys)) && c !in CounterTargets(m, frame, KeySet(keys[1..])) {
        assert c == CounterCell(m[k0]);
        assert c in next.counters && next.counters[c] == CounterValue(frame, k0);
        assert c in r.counters - CounterTargets(m, frame, KeySet(keys[1..]));
      }
    }
  }

  /** Two sinks updated from the same frame agree on every written series. */
  lemma {:induction false} UpdatePassAgrees(reg: Registry, m: Table, frame: Frame, keys: seq<string>, s1: Sink, s2: Sink)
    requires forall i :: 0 <= i < |keys| ==> keys[i] in m
    requires UpdatePass(reg, m, frame, keys, s1).Ok?
    ensures UpdatePass(reg, m, frame, keys, s2).Ok?
    ensures var r1 := UpdatePass(reg, m, frame, keys, s1).value;
      var r2 := UpdatePass(reg, m, frame, keys, s2).value;
      && (forall c :: c in GaugeTargets(m, frame, KeySet(keys)) ==>
            c in r1.gauges && c in r2.gauges && r1.gauges[c] == r2.gauges[c])
      && (forall c :: c in CounterTargets(m, frame, KeySet(keys)) ==>
            c in r1.counters && c in r2.counters && r1.counters[c] == r2.counters[c])
    decreases |keys|
  {
    if |keys| > 0 {
      UpdatePassStep(reg, m, frame, keys, s1);
      UpdatePassStep(reg, m, frame, keys, s2);
      TargetsStep(m, frame, keys);
      var k0 := keys[0];
      var n1 := UpdateKey(reg, m, frame, k0, s1).value;
      var n2 := UpdateKey(reg, m, frame, k0, s2).value;
      var r1 := UpdatePass(reg, m, frame, keys, s1).value;
      var r2 := UpdatePass(reg, m, frame, keys, s2).value;
      UpdatePassAgrees(reg, m, frame, keys[1..], n1, n2);
      UpdatePassUntouched(reg, m, frame, keys[1..], n1);
      UpdatePassUntouched(reg, m, frame, keys[1..], n2);
      var rg := GaugeTargets(m, frame, KeySet(keys[1..]));
      var rc := CounterTargets(m, frame, KeySet(keys[1..]));
      forall c | c in GaugeTargets(m, frame, KeySet(keys))
        ensures c in r1.gauges && c in r2.gauges && r1.gauges[c] == r2.gauges[c]
      {
        if c !in rg {
          assert c == GaugeCell(m[k0]);
          assert c in n1.gauges && c in n2.gauges && n1.gauges[c] == n2.gauges[c];
          assert c in n1.gauges - rg && c in n2.gauges - rg;
          assert c in r1.gauges - rg && c in r2.gauges - rg;
        }
      }
      forall c | c in CounterTargets(m, frame, KeySet(keys))
        ensures c in r1.counters && c in r2.counters && r1.counters[c] == r2.counters[c]
      {
        if c !in rc {
          assert c == CounterCell(m[k0]);
          assert c in n1.counters - rc && c in n2.counters - rc;
          assert c in r1.counters - rc && c in r2.counters - rc;
        }
      }
    }
  }

  /** Two maps that agree off `t`, and on `t` hold the same keys with the
      same values, are equal. */
  lemma MapsEqual(a: map<Cell, nat>, b: map<Cell, nat>, t: set<Cell>)
    requires a - t == b - t
    requires forall c :: c in t ==> c in a && c in b && a[c] == b[c]
    ensures a == b
  {
    forall c | c !in t
      ensures (c in a <==> c in b) && (c in a ==> a[c] == b[c])
    {
      assert (c in a <==> c in a - t) && (c in b <==> c in b - t);
      if c in a {
        assert a[c] == (a - t)[c];
      }
    }
  }

  /** Updating twice from the same frame is updating once: a counter is
      reset before it is incremented, so it never accumulates. */
  lemma UpdatePassIdempotent(reg: Registry, m: Table, frame: Frame, keys: seq<string>, sink: Sink)
    requires forall i :: 0 <= i < |keys| ==> keys[i] in m
    requires UpdatePass(reg, m, frame, keys, sink).Ok?
    ensures var once := UpdatePass(reg, m, frame, keys, sink).value;
      UpdatePass(reg, m, frame, keys, once) == Ok(once)
  {
    var once := UpdatePass(reg, m, frame, keys, sink).value;
    UpdatePassAgrees(reg, m, frame, keys, sink, once);
    var twice := UpdatePass(reg, m, frame, keys, once).value;
    UpdatePassUntouched(reg, m, frame, keys, once);
    MapsEqual(twice.gauges, once.gauges, GaugeTargets(m, frame, KeySet(keys)));
    MapsEqual(twice.counters, once.counters, CounterTargets(m, frame, KeySet(keys)));
  }

  /** No two keys of the table write the same gauge series. */
  predicate GaugeTargetsDistinct(m: Table) {
    forall k1, k2 :: k1 in m && k2 in m && |m[k1]| >= 2 && |m[k2]| >= 2 && GaugeCell(m[k1]) == GaugeCell(m[k2]) ==> k1 == k2
  }

  /** No two keys of the table write the same counter series. */
  predicate CounterTargetsDistinct(m: Table) {
    forall k1, k2 :: k1 in m && k2 in m && |m[k1]| >= 3 && |m[k2]| >= 3 && CounterCell(m[k1]) == CounterCell(m[k2]) ==> k1 == k2
  }

  /** With distinct targets, the series of a key present in the frame holds
      exactly that key's frame value after the pass. */
  lemma UpdatePassSetsValue(reg: Registry, m: Table, frame: Frame, keys: seq<string>, sink: Sink, k: string)
    requires forall i :: 0 <= i < |keys| ==> keys[i] in m
    requires GaugeTargetsDistinct(m) && CounterTargetsDistinct(m)
    requires UpdatePass(reg, m, frame, keys, sink).Ok? && k in keys
    ensures var r := UpdatePass(reg, m, frame, keys, sink).value;
      && (k in frame ==> ParseNat(frame[k]).Some? && |m[k]| >= 2 && GaugeCell(m[k]) in r.gauges && r.gauges[GaugeCell(m[k])] == GaugeValue(frame, k))
      && (k + "counter" in frame ==>
            ParseNat(frame[k + "counter"]).Some? && |m[k]| >= 3 && CounterCell(m[k]) in r.counters && r.counters[CounterCell(m[k])] == CounterValue(frame, k))
  {
    assert KeyOk(reg, m, frame, k);
    assert k in KeySet(keys);
    if k in frame {
      UpdatePassWrites(reg, m, frame, keys, sink, GaugeCell(m[k]));
    }
    if k + "counter" in frame {
      UpdatePassWrites(reg, m, frame, keys, sink, CounterCell(m[k]));
    }
  }

  /** With distinct targets, the iteration order of the table does not
      matter: two orders of the same keys both succeed or both fail, and
      on success leave the same sink. */
  lemma UpdatePassOrderIndependent(reg: Registry, m: Table, frame: Frame, keys1: seq<string>, keys2: seq<string>, sink: Sink)
    requires forall i :: 0 <= i < |keys1| ==> keys1[i] in m
    requires forall i :: 0 <= i < |keys2| ==> keys2[i] in m
    requires KeySet(keys1) == KeySet(keys2)
    requires GaugeTargetsDistinct(m) && CounterTargetsDistinct(m)
    ensures UpdatePass(reg, m, frame, keys1, sink).Ok? <==> UpdatePass(reg, m, frame, keys2, sink).Ok?
    ensures UpdatePass(reg, m, frame, keys1, sink).Ok? ==>
              UpdatePass(reg, m, frame, keys1, sink) == UpdatePass(reg, m, frame, keys2, sink)
  {
    assert forall k :: k in keys1 <==> k in KeySet(keys1);
    assert forall k :: k in keys2 <==> k in KeySet(keys2);
    if UpdatePass(reg, m, frame, keys1, sink).Ok? {
      var r1 := UpdatePass(reg, m, frame, keys1, sink).value;
      var r2 := UpdatePass(reg, m, frame, keys2, sink).value;
      var tg := GaugeTargets(m, frame, KeySet(keys1));
      var tc := CounterTargets(m, frame, KeySet(keys1));
      UpdatePassUntouched(reg, m, frame, keys1, sink);
      UpdatePassUntouched(reg, m, frame, keys2, sink);
      forall c | c in tg
        ensures c in r1.gauges && c in r2.gauges && r1.gauges[c] == r2.gauges[c]
      {
        UpdatePassWrites(reg, m, frame, keys1, sink, c);
        UpdatePassWrites(reg, m, frame, keys2, sink, c);
      }
      forall c | c in tc
        ensures c in r1.counters && c in r2.counters && r1.counters[c] == r2.counters[c]
      {
        UpdatePassWrites(reg, m, frame, keys1, sink, c);
        UpdatePassWrites(reg, m, frame, keys2, sink, c);
      }
      MapsEqual(r1.gauges, r2.gauges, tg);
      MapsEqual(r1.counters, r2.counters, tc);
    }
  }

  /** Two frames that agree on every `k` and `k + "counter"` for the keys
      iterated over give the same pass: no other frame entry is read. */
  lemma {:induction false} UpdatePassReadsOnlyKeys(reg: Registry, m: Table, f1: Frame, f2: Frame, keys: seq<string>, sink: Sink)
    requires forall i :: 0 <= i < |keys| ==> keys[i] in m
    requires forall k :: k in keys ==> (k in f1 <==> k in f2) && (k in f1 ==> f1[k] == f2[k])
    requires forall k :: k in keys ==>
      (k + "counter" in f1 <==> k + "counter" in f2) && (k + "counter" in f1 ==> f1[k + "counter"] == f2[k + "counter"])
    ensures UpdatePass(reg, m, f1, keys, sink) == UpdatePass(reg, m, f2, keys, sink)
    decreases |keys|
  {
    if |keys| > 0 {
      UpdatePassStep(reg, m, f1, keys, sink);
      UpdatePassStep(reg, m, f2, keys, sink);
      var k0 := keys[0];
      assert k0 in keys;
      assert UpdateKey(reg, m, f1, k0, sink) == UpdateKey(reg, m, f2, k0, sink);
      if UpdateKey(reg, m, f1, k0, sink).Ok? {
        UpdatePassReadsOnlyKeys(reg, m, f1, f2, keys[1..], UpdateKey(reg, m, f1, k0, sink).value);
      }
    }
  }

  // ---------------------------------------------------------------------
  // The exporter's own table

  /** The names the start-up loop registers for the exporter's table. */
  function TableRegistry(): Registry {
    Registry(GaugeNames(ChannelMappings), CounterNames(ChannelMappings))
  }

  /** Registration of the exporter's table succeeds: every row has a gauge
      name and no name is both a gauge and a counter. */
  lemma TableRegistrationSucceeds()
    ensures RegistrationSucceeds(ChannelMappings)
  {
    forall k | k in ChannelMappings
      ensures |ChannelMappings[k]| >= 2
      ensures ChannelMappings[k][0] in GaugeMetrics
      ensures |ChannelMappings[k]| == 3 ==> ChannelMappings[k][1] in CounterMetrics
    {
      ChannelMappingsLookup(k);
      RowShape(k);
    }
    MetricKindsDisjoint();
    assert GaugeNames(ChannelMappings) <= GaugeMetrics;
    assert CounterNames(ChannelMappings) <= CounterMetrics;
  }

  /** Distinct keys of the exporter's table write distinct series. */
  lemma TableTargetsDistinct()
    ensures GaugeTargetsDistinct(ChannelMappings) && CounterTargetsDistinct(ChannelMappings)
  {
    forall k | k in ChannelMappings
      ensures |ChannelMappings[k]| >= 2 && GaugeKeyOf(GaugeCell(ChannelMappings[k])) == Some(k)
      ensures |ChannelMappings[k]| == 3 ==> CounterKeyOf(CounterCell(ChannelMappings[k])) == Some(k)
      ensures |ChannelMappings[k]| <= 3
    {
      ChannelMappingsLookup(k);
      RowShape(k);
    }
  }

  /** The update pass over the exporter's table gives the same sink for
      every iteration order of its keys. */
  lemma TableOrderIndependent(frame: Frame, keys1: seq<string>, keys2: seq<string>, sink: Sink)
    requires Enumerates(keys1, ChannelMappings) && Enumerates(keys2, ChannelMappings)
    ensures UpdatePass(TableRegistry(), ChannelMappings, frame, keys1, sink).Ok? <==>
            UpdatePass(TableRegistry(), ChannelMappings, frame, keys2, sink).Ok?
    ensures UpdatePass(TableRegistry(), ChannelMappings, frame, keys1, sink).Ok? ==>
              UpdatePass(TableRegistry(), ChannelMappings, frame, keys1, sink)
              == UpdatePass(TableRegistry(), ChannelMappings, frame, keys2, sink)
  {
    TableTargetsDistinct();
    assert KeySet(keys1) == ChannelMappings.Keys == KeySet(keys2);
    UpdatePassOrderIndependent(TableRegistry(), ChannelMappings, frame, keys1, keys2, sink);
  }

  /** The serial number and the unit entries of a frame never reach the
      sink: adding or changing "serial" or any key ending in "unit" leaves
      the pass over the exporter's table unchanged. */
  lemma TableIgnoresSerialAndUnits(frame: Frame, keys: seq<string>, sink: Sink, extra: string, v: string)
    requires Enumerates(keys, ChannelMappings)
    requires extra == "serial" || (|extra| >= 4 && extra[|extra| - 4..] == "unit")
    ensures UpdatePass(TableRegistry(), ChannelMappings, frame[extra := v], keys, sink)
            == UpdatePass(TableRegistry(), ChannelMappings, frame, keys, sink)
  {
    if extra != "serial" {
      assert Last(extra) == extra[|extra| - 4..][3] == 't';
    }
    forall k | k in keys
      ensures k != extra && k + "counter" != extra
    {
      ChannelMappingsLookup(k);
      MappingKeyEndings(k);
      LastOfAppend(k, "counter");
    }
    UpdatePassReadsOnlyKeys(TableRegistry(), ChannelMappings, frame[extra := v], frame, keys, sink);
  }

  // ---------------------------------------------------------------------
  // Decoder output meets the exporter

  lemma AppendCancel(a: string, b: string, s: string)
    requires a + s == b + s
    ensures a == b
  {
    assert |a| == |b|;
    assert a == (a + s)[..|a|];
    assert b == (b + s)[..|b|];
  }

  /** A decoder entry whose key ends neither in 't' nor in 'r' (so is not a
      unit, counter or counter-unit key) holds a decimal number. */
  lemma PlainEntryIsNumber(k: string, v: string)
    requires FrameEntry(k, v) && |k| > 0 && Last(k) != 't' && Last(k) != 'r'
    ensures DecodedNumber(v)
  {
    if k != "serial" {
      var code :| SmaChannel(code).Some? && code != VersionCode && ChannelEntry(SmaChannel(code).value, k, v);
      var name := SmaChannel(code).value.name;
      LastOfAppend(name, "unit");
      LastOfAppend(name, "counter");
      LastOfAppend(name, "counterunit");
    }
  }

  /** A decoder entry `k + "counter"`, for `k` a catalog-style name, holds a
      decimal number and comes from a channel named `k` with a counter unit. */
  lemma CounterEntryIsNumber(k: string, v: string)
    requires FrameEntry(k + "counter", v) && |k| > 0 && Last(k) != 't' && Last(k) != 'r'
    ensures DecodedNumber(v)
    ensures exists code :: SmaChannel(code).Some? && code != VersionCode
                        && SmaChannel(code).value.name == k && SmaChannel(code).value.counterUnit.Some?
  {
    LastOfAppend(k, "counter");
    var code :| SmaChannel(code).Some? && code != VersionCode && ChannelEntry(SmaChannel(code).value, k + "counter", v);
    var name := SmaChannel(code).value.name;
    NamesEndings(code);
    LastOfAppend(name, "unit");
    LastOfAppend(name, "counterunit");
    if name + "counter" == k + "counter" {
      AppendCancel(name, k, "counter");
    }
  }

  /** Every key of the exporter's table can be updated from a frame the
      decoder produces. */
  lemma DecodedFrameKeyOk(frame: Frame, k: string)
    requires WellFormedFrame(frame) && k in ChannelMappings
    ensures KeyOk(TableRegistry(), ChannelMappings, frame, k)
  {
    ChannelMappingsLookup(k);
    RowShape(k);
    MappingKeyEndings(k);
    var row := ChannelMappings[k];
    assert row[0] in GaugeNames(ChannelMappings);
    if k in frame {
      assert FrameEntry(k, frame[k]);
      PlainEntryIsNumber(k, frame[k]);
    }
    if k + "counter" in frame {
      assert FrameEntry(k + "counter", frame[k + "counter"]);
      CounterEntryIsNumber(k, frame[k + "counter"]);
      var code :| SmaChannel(code).Some? && code != VersionCode
               && SmaChannel(code).value.name == k && SmaChannel(code).value.counterUnit.Some?;
      CatalogAgreement(code);
      assert |row| == 3;
      assert row[1] in CounterNames(ChannelMappings);
    }
  }

  /** The update pass never panics on what the decoder returns: the tables
      agree, every value is a decimal natural, and the registry holds every
      name the table asks for. */
  lemma DecodedFramesNeverFault(d: seq<Bytes.byte>, keys: seq<string>, sink: Sink)
    requires Enumerates(keys, ChannelMappings)
    requires DecodeSpeedwire(d).Ok?
    ensures UpdatePass(TableRegistry(), ChannelMappings, DecodeSpeedwire(d).value, keys, sink).Ok?
  {
    var frame := DecodeSpeedwire(d).value;
    DecodedFrameWellFormed(d);
    forall k | k in keys
      ensures KeyOk(TableRegistry(), ChannelMappings, frame, k)
    {
      DecodedFrameKeyOk(frame, k);
    }
  }
}

/** The exporter's projection table: which Prometheus series each decoder
    key feeds, and the facts about it that the update pass relies on. */
module Mappings {
  import opened Wrappers
  import opened Catalog

  /** A series of a labelled metric: the metric name and the value of its
      single `phase` label. */
  datatype Cell = Cell(metric: string, phase: string)

  /** The mapping row of a decoder key: `[gauge, counter, phase]` for a
      channel with an energy counter, `[gauge, phase]` otherwise. */
  function MappingOf(key: string): (r: Option<seq<string>>)
    ensures r.Some? ==> 2 <= |r.value| <= 3 && r.value[|r.value| - 1] in Phases
  {
    match key
    // totals
    case "pconsume" => Some(["smahomemanager_real_consumed_watts", "smahomemanager_real_consumed_watthours", "Total"])
    case "psupply" => Some(["smahomemanager_real_supplied_watts", "smahomemanager_real_supplied_watthours", "Total"])
    case "qconsume" => Some(["smahomemanager_reactive_consumed_var", "smahomemanager_reactive_consumed_varh", "Total"])
    case "qsupply" => Some(["smahomemanager_reactive_supplied_var", "smahomemanager_reactive_supplied_varh", "Total"])
    case "sconsume" => Some(["smahomemanager_apparent_consumed_va", "smahomemanager_apparent_consumed_vah", "Total"])
    case "ssupply" => Some(["smahomemanager_apparent_supplied_va", "smahomemanager_apparent_supplied_vah", "Total"])
    case "cosphi" => Some(["smahomemanager_cosphi_degrees", "Total"])
    case "frequency" => Some(["smahomemanager_frequency_millihertz", "Total"])
    // phase 1
    case "p1consume" => Some(["smahomemanager_real_consumed_watts", "smahomemanager_real_consumed_watthours", "L1"])
    case "p1supply" => Some(["smahomemanager_real_supplied_watts", "smahomemanager_real_supplied_watthours", "L1"])
    case "q1consume" => Some(["smahomemanager_reactive_consumed_var", "smahomemanager_reactive_consumed_varh", "L1"])
    case "q1supply" => Some(["smahomemanager_reactive_supplied_var", "smahomemanager_reactive_supplied_varh", "L1"])
    case "s1consume" => Some(["smahomemanager_apparent_consumed_va", "smahomemanager_apparent_consumed_vah", "L1"])
    case "s1supply" => Some(["smahomemanager_apparent_supplied_va", "smahomemanager_apparent_supplied_vah", "L1"])
    case "i1" => Some(["smahomemanager_current_milliamperes", "L1"])
    case "u1" => Some(["smahomemanager_voltage_millivolts", "L1"])
    case "cosphi1" => Some(["smahomemanager_cosphi_degrees", "L1"])
    // phase 2
    case "p2consume" => Some(["smahomemanager_real_consumed_watts", "smahomemanager_real_consumed_watthours", "L2"])
    case "p2supply" => Some(["smahomemanager_real_supplied_watts", "smahomemanager_real_supplied_watthours", "L2"])
    case "q2consume" => Some(["smahomemanager_reactive_consumed_var", "smahomemanager_reactive_consumed_varh", "L2"])
    case "q2supply" => Some(["smahomemanager_reactive_supplied_var", "smahomemanager_reactive_supplied_varh", "L2"])
    case "s2consume" => Some(["smahomemanager_apparent_consumed_va", "smahomemanager_apparent_consumed_vah", "L2"])
    case "s2supply" => Some(["smahomemanager_apparent_supplied_va", "smahomemanager_apparent_supplied_vah", "L2"])
    case "i2" => Some(["smahomemanager_current_milliamperes", "L2"])
    case "u2" => Some(["smahomemanager_voltage_millivolts", "L2"])
    case "cosphi2" => Some(["smahomemanager_cosphi_degrees", "L2"])
    // phase 3
    case "p3consume" => Some(["smahomemanager_real_consumed_watts", "smahomemanager_real_consumed_watthours", "L3"])
    case "p3supply" => Some(["smahomemanager_real_supplied_watts", "smahomemanager_real_supplied_watthours", "L3"])
    case "q3consume" => Some(["smahomemanager_reactive_consumed_var", "smahomemanager_reactive_consumed_varh", "L3"])
    case "q3supply" => Some(["smahomemanager_reactive_supplied_var", "smahomemanager_reactive_supplied_varh", "L3"])
    case "s3consume" => Some(["smahomemanager_apparent_consumed_va", "smahomemanager_apparent_consumed_vah", "L3"])
    case "s3supply" => Some(["smahomemanager_apparent_supplied_va", "smahomemanager_apparent_supplied_vah", "L3"])
    case "i3" => Some(["smahomemanager_current_milliamperes", "L3"])
    case "u3" => Some(["smahomemanager_voltage_millivolts", "L3"])
    case "cosphi3" => Some(["smahomemanager_cosphi_degrees", "L3"])
    case _ => None
  }

  /** The keys the table defines. */
  const MappingKeys: set<string> := {
      "pconsume",
      "psupply",
      "qconsume",
      "qsupply",
      "sconsume",
      "ssupply",
      "cosphi",
      "frequency",
      "p1consume",
      "p1supply",
      "q1consume",
      "q1supply",
      "s1consume",
      "s1supply",
      "i1",
      "u1",
      "cosphi1",
      "p2consume",
      "p2supply",
      "q2consume",
      "q2supply",
      "s2consume",
      "s2supply",
      "i2",
      "u2",
      "cosphi2",
      "p3consume",
      "p3supply",
      "q3consume",
      "q3supply",
      "s3consume",
      "s3supply",
      "i3",
      "u3",
      "cosphi3"
    }

  /** The table as the map the exporter iterates over. */
  const ChannelMappings: map<string, seq<string>> :=
    map k | k in MappingKeys && MappingOf(k).Some? :: MappingOf(k).value

  /** The gauge series a row feeds: the row's gauge metric, labelled with
      the row's phase, which is the last element of a two- or three-element
      row. */
  function GaugeCell(row: seq<string>): (c: Cell)
    requires |row| >= 2
    ensures c.metric == row[0]
    ensures |row| <= 3 ==> c.phase == row[|row| - 1]
  {
    Cell(row[0], if |row| == 3 then row[2] else row[1])
  }

  /** The counter series a three-element row feeds: the row's counter
      metric, under the same phase label as the row's gauge. */
  function CounterCell(row: seq<string>): (c: Cell)
    requires |row| >= 3
    ensures c.metric == row[1]
    ensures |row| == 3 ==> c.phase == row[|row| - 1] && c.phase == GaugeCell(row).phase
  {
    Cell(row[1], row[2])
  }

  const Phases: set<string> := {"Total", "L1", "L2", "L3"}

  /** Every gauge metric name of the table. */
  const GaugeMetrics: set<string> := {
      "smahomemanager_real_consumed_watts",
      "smahomemanager_real_supplied_watts",
      "smahomemanager_reactive_consumed_var",
      "smahomemanager_reactive_supplied_var",
      "smahomemanager_apparent_consumed_va",
      "smahomemanager_apparent_supplied_va",
      "smahomemanager_cosphi_degrees",
      "smahomemanager_frequency_millihertz",
      "smahomemanager_current_milliamperes",
      "smahomemanager_voltage_millivolts"
    }

  /** Every counter metric name of the table. */
  const CounterMetrics: set<string> := {
      "smahomemanager_real_consumed_watthours",
      "smahomemanager_real_supplied_watthours",
      "smahomemanager_reactive_consumed_varh",
      "smahomemanager_reactive_supplied_varh",
      "smahomemanager_apparent_consumed_vah",
      "smahomemanager_apparent_supplied_vah"
    }

  /** The key whose row feeds gauge series `c`, read off the table by phase. */
  function GaugeKeyOf(c: Cell): Option<string>
  {
    match c.phase
    case "Total" =>
      (match c.metric
       case "smahomemanager_real_consumed_watts" => Some("pconsume")
       case "smahomemanager_real_supplied_watts" => Some("psupply")
       case "smahomemanager_reactive_consumed_var" => Some("qconsume")
       case "smahomemanager_reactive_supplied_var" => Some("qsupply")
       case "smahomemanager_apparent_consumed_va" => Some("sconsume")
       case "smahomemanager_apparent_supplied_va" => Some("ssupply")
       case "smahomemanager_cosphi_degrees" => Some("cosphi")
       case "smahomemanager_frequency_millihertz" => Some("frequency")
       case _ => None)
    case "L1" =>
      (match c.metric
       case "smahomemanager_real_consumed_watts" => Some("p1consume")
       case "smahomemanager_real_supplied_watts" => Some("p1supply")
       case "smahomemanager_reactive_consumed_var" => Some("q1consume")
       case "smahomemanager_reactive_supplied_var" => Some("q1supply")
       case "smahomemanager_apparent_consumed_va" => Some("s1consume")
       case "smahomemanager_apparent_supplied_va" => Some("s1supply")
       case "smahomemanager_current_milliamperes" => Some("i1")
       case "smahomemanager_voltage_millivolts" => Some("u1")
       case "smahomemanager_cosphi_degrees" => Some("cosphi1")
       case _ => None)
    case "L2" =>
      (match c.metric
       case "smahomemanager_real_consumed_watts" => Some("p2consume")
       case "smahomemanager_real_supplied_watts" => Some("p2supply")
       case "smahomemanager_reactive_consumed_var" => Some("q2consume")
       case "smahomemanager_reactive_supplied_var" => Some("q2supply")
       case "smahomemanager_apparent_consumed_va" => Some("s2consume")
       case "smahomemanager_apparent_supplied_va" => Some("s2supply")
       case "smahomemanager_current_milliamperes" => Some("i2")
       case "smahomemanager_voltage_millivolts" => Some("u2")
       case "smahomemanager_cosphi_degrees" => Some("cosphi2")
       case _ => None)
    case "L3" =>
      (match c.metric
       case "smahomemanager_real_consumed_watts" => Some("p3consume")
       case "smahomemanager_real_supplied_watts" => Some("p3supply")
       case "smahomemanager_reactive_consumed_var" => Some("q3consume")
       case "smahomemanager_reactive_supplied_var" => Some("q3supply")
       case "smahomemanager_apparent_consumed_va" => Some("s3consume")
       case "smahomemanager_apparent_supplied_va" => Some("s3supply")
       case "smahomemanager_current_milliamperes" => Some("i3")
       case "smahomemanager_voltage_millivolts" => Some("u3")
       case "smahomemanager_cosphi_degrees" => Some("cosphi3")
       case _ => None)
    case _ => None
  }

  /** The key whose row feeds counter series `c`. */
  function CounterKeyOf(c: Cell): Option<string>
  {
    match c.phase
    case "Total" =>
      (match c.metric
       case "smahomemanager_real_consumed_watthours" => Some("pconsume")
       case "smahomemanager_real_supplied_watthours" => Some("psupply")
       case "smahomemanager_reactive_consumed_varh" => Some("qconsume")
       case "smahomemanager_reactive_supplied_varh" => Some("qsupply")
       case "smahomemanager_apparent_consumed_vah" => Some("sconsume")
       case "smahomemanager_apparent_supplied_vah" => Some("ssupply")
       case _ => None)
    case "L1" =>
      (match c.metric
       case "smahomemanager_real_consumed_watthours" => Some("p1consume")
       case "smahomemanager_real_supplied_watthours" => Some("p1supply")
       case "smahomemanager_reactive_consumed_varh" => Some("q1consume")
       case "smahomemanager_reactive_supplied_varh" => Some("q1supply")
       case "smahomemanager_apparent_consumed_vah" => Some("s1consume")
       case "smahomemanager_apparent_supplied_vah" => Some("s1supply")
       case _ => None)
    case "L2" =>
      (match c.metric
       case "smahomemanager_real_consumed_watthours" => Some("p2consume")
       case "smahomemanager_real_supplied_watthours" => Some("p2supply")
       case "smahomemanager_reactive_consumed_varh" => Some("q2consume")
       case "smahomemanager_reactive_supplied_varh" => Some("q2supply")
       case "smahomemanager_apparent_consumed_vah" => Some("s2consume")
       case "smahomemanager_apparent_supplied_vah" => Some("s2supply")
       case _ => None)
    case "L3" =>
      (match c.metric
       case "smahomemanager_real_consumed_watthours" => Some("p3consume")
       case "smahomemanager_real_supplied_watthours" => Some("p3supply")
       case "smahomemanager_reactive_consumed_varh" => Some("q3consume")
       case "smahomemanager_reactive_supplied_varh" => Some("q3supply")
       case "smahomemanager_apparent_consumed_vah" => Some("s3consume")
       case "smahomemanager_apparent_supplied_vah" => Some("s3supply")
       case _ => None)
    case _ => None
  }

  lemma MappingKeysExact(k: string)
    ensures MappingOf(k).Some? <==> k in MappingKeys
  {
    match k
    case "pconsume" =>
    case "psupply" =>
    case "qconsume" =>
    case "qsupply" =>
    case "sconsume" =>
    case "ssupply" =>
    case "cosphi" =>
    case "frequency" =>
    case "p1consume" =>
    case "p1supply" =>
    case "q1consume" =>
    case "q1supply" =>
    case "s1consume" =>
    case "s1supply" =>
    case "i1" =>
    case "u1" =>
    case "cosphi1" =>
    case "p2consume" =>
    case "p2supply" =>
    case "q2consume" =>
    case "q2supply" =>
    case "s2consume" =>
    case "s2supply" =>
    case "i2" =>
    case "u2" =>
    case "cosphi2" =>
    case "p3consume" =>
    case "p3supply" =>
    case "q3consume" =>
    case "q3supply" =>
    case "s3consume" =>
    case "s3supply" =>
    case "i3" =>
    case "u3" =>
    case "cosphi3" =>
    case _ =>
  }

  /** `ChannelMappings` holds exactly the rows of the table. */
  lemma ChannelMappingsLookup(k: string)
    ensures k in ChannelMappings <==> MappingOf(k).Some?
    ensures k in ChannelMappings ==> ChannelMappings[k] == MappingOf(k).value
  {
    MappingKeysExact(k);
  }

  /** Each row is `[gauge, counter, phase]` or `[gauge, phase]`, with a
      gauge name first, a counter name in the middle of a three-element
      row and one of the four phase labels last; and the row's series
      lead back to its key, so no two keys share a gauge series or a
      counter series. */
  lemma RowShape(k: string)
    requires MappingOf(k).Some?
    ensures var row := MappingOf(k).value;
      && (|row| == 2 || |row| == 3)
      && row[|row| - 1] in Phases
      && row[0] in GaugeMetrics
      && (|row| == 3 ==> row[1] in CounterMetrics)
      && GaugeKeyOf(GaugeCell(row)) == Some(k)
      && (|row| == 3 ==> CounterKeyOf(CounterCell(row)) == Some(k))
  {
    match k
    case "pconsume" =>
    case "psupply" =>
    case "qconsume" =>
    case "qsupply" =>
    case "sconsume" =>
    case "ssupply" =>
    case "cosphi" =>
    case "frequency" =>
    case "p1consume" =>
    case "p1supply" =>
    case "q1consume" =>
    case "q1supply" =>
    case "s1consume" =>
    case "s1supply" =>
    case "i1" =>
    case "u1" =>
    case "cosphi1" =>
    case "p2consume" =>
    case "p2supply" =>
    case "q2consume" =>
    case "q2supply" =>
    case "s2consume" =>
    case "s2supply" =>
    case "i2" =>
    case "u2" =>
    case "cosphi2" =>
    case "p3consume" =>
    case "p3supply" =>
    case "q3consume" =>
    case "q3supply" =>
    case "s3consume" =>
    case "s3supply" =>
    case "i3" =>
    case "u3" =>
    case "cosphi3" =>
    case _ =>
  }

  /** No metric name is registered both as a gauge and as a counter. */
  lemma MetricKindsDisjoint()
    ensures GaugeMetrics !! CounterMetrics
  {
  }

  /** The catalog code of the channel a table key names; 0, which is no
      catalog code, for any other string. */
  function CatalogCode(k: string): nat
  {
    match k
    case "pconsume" => 1
    case "psupply" => 2
    case "qconsume" => 3
    case "qsupply" => 4
    case "sconsume" => 9
    case "ssupply" => 10
    case "cosphi" => 13
    case "frequency" => 14
    case "p1consume" => 21
    case "p1supply" => 22
    case "q1consume" => 23
    case "q1supply" => 24
    case "s1consume" => 29
    case "s1supply" => 30
    case "i1" => 31
    case "u1" => 32
    case "cosphi1" => 33
    case "p2consume" => 41
    case "p2supply" => 42
    case "q2consume" => 43
    case "q2supply" => 44
    case "s2consume" => 49
    case "s2supply" => 50
    case "i2" => 51
    case "u2" => 52
    case "cosphi2" => 53
    case "p3consume" => 61
    case "p3supply" => 62
    case "q3consume" => 63
    case "q3supply" => 64
    case "s3consume" => 69
    case "s3supply" => 70
    case "i3" => 71
    case "u3" => 72
    case "cosphi3" => 73
    case _ => 0
  }

  /** Every key of the table is the name of a catalog channel other than
      the version marker. */
  lemma MappedNamesAreChannels(k: string)
    requires MappingOf(k).Some?
    ensures var code := CatalogCode(k);
      SmaChannel(code).Some? && code != VersionCode && SmaChannel(code).value.name == k
  {
    match k
    case "pconsume" => assert CatalogCode(k) == 1;
    case "psupply" => assert CatalogCode(k) == 2;
    case "qconsume" => assert CatalogCode(k) == 3;
    case "qsupply" => assert CatalogCode(k) == 4;
    case "sconsume" => assert CatalogCode(k) == 9;
    case "ssupply" => assert CatalogCode(k) == 10;
    case "cosphi" => assert CatalogCode(k) == 13;
    case "frequency" => assert CatalogCode(k) == 14;
    case "p1consume" => assert CatalogCode(k) == 21;
    case "p1supply" => assert CatalogCode(k) == 22;
    case "q1consume" => assert CatalogCode(k) == 23;
    case "q1supply" => assert CatalogCode(k) == 24;
    case "s1consume" => assert CatalogCode(k) == 29;
    case "s1supply" => assert CatalogCode(k) == 30;
    case "i1" => assert CatalogCode(k) == 31;
    case "u1" => assert CatalogCode(k) == 32;
    case "cosphi1" => assert CatalogCode(k) == 33;
    case "p2consume" => assert CatalogCode(k) == 41;
    case "p2supply" => assert CatalogCode(k) == 42;
    case "q2consume" => assert CatalogCode(k) == 43;
    case "q2supply" => assert CatalogCode(k) == 44;
    case "s2consume" => assert CatalogCode(k) == 49;
    case "s2supply" => assert CatalogCode(k) == 50;
    case "i2" => assert CatalogCode(k) == 51;
    case "u2" => assert CatalogCode(k) == 52;
    case "cosphi2" => assert CatalogCode(k) == 53;
    case "p3consume" => assert CatalogCode(k) == 61;
    case "p3supply" => assert CatalogCode(k) == 62;
    case "q3consume" => assert CatalogCode(k) == 63;
    case "q3supply" => assert CatalogCode(k) == 64;
    case "s3consume" => assert CatalogCode(k) == 69;
    case "s3supply" => assert CatalogCode(k) == 70;
    case "i3" => assert CatalogCode(k) == 71;
    case "u3" => assert CatalogCode(k) == 72;
    case "cosphi3" => assert CatalogCode(k) == 73;
    case _ =>
  }

  /** The decoder catalog and the table agree: every channel other than
      the version marker has a row, and the row has three elements exactly
      when the channel has a counter unit. */
  lemma CatalogAgreement(code: nat)
    requires SmaChannel(code).Some? && code != VersionCode
    ensures var ch := SmaChannel(code).value;
      && MappingOf(ch.name).Some?
      && (ch.counterUnit.Some? <==> |MappingOf(ch.name).value| == 3)
  {
    match code
    case 1 =>
    case 2 =>
    case 3 =>
    case 4 =>
    case 9 =>
    case 10 =>
    case 13 =>
    case 14 =>
    case 21 =>
    case 22 =>
    case 23 =>
    case 24 =>
    case 29 =>
    case 30 =>
    case 31 =>
    case 32 =>
    case 33 =>
    case 41 =>
    case 42 =>
    case 43 =>
    case 44 =>
    case 49 =>
    case 50 =>
    case 51 =>
    case 52 =>
    case 53 =>
    case 61 =>
    case 62 =>
    case 63 =>
    case 64 =>
    case 69 =>
    case 70 =>
    case 71 =>
    case 72 =>
    case 73 =>
    case _ =>
  }

  /** A table key is nonempty, ends neither in 't' nor in 'r', and is not
      "serial"; so no decoder key ending in "unit", "counter" or
      "counterunit" is a table key. */
  lemma MappingKeyEndings(k: string)
    requires MappingOf(k).Some?
    ensures |k| > 0 && Last(k) != 't' && Last(k) != 'r' && k != "serial"
  {
    MappedNamesAreChannels(k);
    NamesEndings(CatalogCode(k));
  }
}

/** The decoder's two static tables: unit scaling and the channel catalog. */
module Catalog {
  import opened Wrappers

  /** One catalog row: the name the decoder emits, the unit of actual
      readings and, for channels that also carry an energy counter, the
      unit of counter readings. A row of two strings has no counter unit. */
  datatype Channel = Channel(name: string, unit: string, counterUnit: Option<string>)

  /** Code of the version marker record. */
  const VersionCode: nat := 36864

  /** The scaling divisor of a unit: a raw reading divided by it is the
      reported value. Units outside the table have no divisor. */
  function Divisor(unit: string): (r: Option<nat>)
    ensures r.Some? ==> r.value in {10, 1000, 3600}
    ensures unit == "" ==> r.None?
  {
    match unit
    case "W" => Some(10)
    case "VA" => Some(10)
    case "VAr" => Some(10)
    case "Wh" => Some(3600)
    case "VAh" => Some(3600)
    case "VArh" => Some(3600)
    case "A" => Some(1000)
    case "V" => Some(1000)
    case "°" => Some(1000)
    case "Hz" => Some(1000)
    case _ => None
  }

  function Full(name: string, unit: string, counterUnit: string): Channel {
    Channel(name, unit, Some(counterUnit))
  }

  function Actual(name: string, unit: string): Channel {
    Channel(name, unit, None)
  }

  /** Every channel the meter is known to send, looked up by measurement
      code; `None` for a code outside the catalog. */
  function SmaChannel(code: nat): (r: Option<Channel>)
    ensures r.Some? ==> code < 74 || code == VersionCode
    ensures r.Some? ==> (r.value.unit == "" <==> code == VersionCode)
    ensures r.Some? && r.value.counterUnit.Some? ==> r.value.counterUnit.value == r.value.unit + "h"
  {
    match code
    // totals
    case 1 => Some(Full("pconsume", "W", "Wh"))
    case 2 => Some(Full("psupply", "W", "Wh"))
    case 3 => Some(Full("qconsume", "VAr", "VArh"))
    case 4 => Some(Full("qsupply", "VAr", "VArh"))
    case 9 => Some(Full("sconsume", "VA", "VAh"))
    case 10 => Some(Full("ssupply", "VA", "VAh"))
    case 13 => Some(Actual("cosphi", "°"))
    case 14 => Some(Actual("frequency", "Hz"))
    // phase 1
    case 21 => Some(Full("p1consume", "W", "Wh"))
    case 22 => Some(Full("p1supply", "W", "Wh"))
    case 23 => Some(Full("q1consume", "VAr", "VArh"))
    case 24 => Some(Full("q1supply", "VAr", "VArh"))
    case 29 => Some(Full("s1consume", "VA", "VAh"))
    case 30 => Some(Full("s1supply", "VA", "VAh"))
    case 31 => Some(Actual("i1", "A"))
    case 32 => Some(Actual("u1", "V"))
    case 33 => Some(Actual("cosphi1", "°"))
    // phase 2
    case 41 => Some(Full("p2consume", "W", "Wh"))
    case 42 => Some(Full("p2supply", "W", "Wh"))
    case 43 => Some(Full("q2consume", "VAr", "VArh"))
    case 44 => Some(Full("q2supply", "VAr", "VArh"))
    case 49 => Some(Full("s2consume", "VA", "VAh"))
    case 50 => Some(Full("s2supply", "VA", "VAh"))
    case 51 => Some(Actual("i2", "A"))
    case 52 => Some(Actual("u2", "V"))
    case 53 => Some(Actual("cosphi2", "°"))
    // phase 3
    case 61 => Some(Full("p3consume", "W", "Wh"))
    case 62 => Some(Full("p3supply", "W", "Wh"))
    case 63 => Some(Full("q3consume", "VAr", "VArh"))
    case 64 => Some(Full("q3supply", "VAr", "VArh"))
    case 69 => Some(Full("s3consume", "VA", "VAh"))
    case 70 => Some(Full("s3supply", "VA", "VAh"))
    case 71 => Some(Actual("i3", "A"))
    case 72 => Some(Actual("u3", "V"))
    case 73 => Some(Actual("cosphi3", "°"))
    // common
    case 36864 => Some(Actual("speedwire-version", ""))
    case _ => None
  }

  /** The last character of a nonempty string. */
  function Last(s: string): char
    requires |s| > 0
  {
    s[|s| - 1]
  }

  /** Every channel except the version marker has a scalable actual unit;
      the version marker's unit `""` is not in the unit table. */
  lemma ActualUnitsScalable(code: nat)
    requires SmaChannel(code).Some?
    ensures Divisor(SmaChannel(code).value.unit).Some? <==> code != VersionCode
  {
  }

  /** Every counter unit in the catalog is an energy unit, scaled by 3600. */
  lemma CounterUnitsScalable(code: nat)
    requires SmaChannel(code).Some? && SmaChannel(code).value.counterUnit.Some?
    ensures Divisor(SmaChannel(code).value.counterUnit.value) == Some(3600)
  {
  }

  /** No catalog name is empty, equals "serial", or ends in 't' or 'r', so a
      catalog name never coincides with a key ending in "unit", "counter" or
      "counterunit". */
  lemma NamesEndings(code: nat)
    requires SmaChannel(code).Some?
    ensures |SmaChannel(code).value.name| > 0
    ensures Last(SmaChannel(code).value.name) != 't' && Last(SmaChannel(code).value.name) != 'r'
    ensures SmaChannel(code).value.name != "serial"
  {
    match code
    case 1 =>
    case 2 =>
    case 3 =>
    case 4 =>
    case 9 =>
    case 10 =>
    case 13 =>
    case 14 =>
    case 21 =>
    case 22 =>
    case 23 =>
    case 24 =>
    case 29 =>
    case 30 =>
    case 31 =>
    case 32 =>
    case 33 =>
    case 41 =>
    case 42 =>
    case 43 =>
    case 44 =>
    case 49 =>
    case 50 =>
    case 51 =>
    case 52 =>
    case 53 =>
    case 61 =>
    case 62 =>
    case 63 =>
    case 64 =>
    case 69 =>
    case 70 =>
    case 71 =>
    case 72 =>
    case 73 =>
    case 36864 =>
  }

  /** A key built from a catalog name is never "serial". */
  lemma KeysNeverSerial(code: nat)
    requires SmaChannel(code).Some?
    ensures SmaChannel(code).value.name != "serial"
    ensures SmaChannel(code).value.name + "unit" != "serial"
    ensures SmaChannel(code).value.name + "counter" != "serial"
    ensures SmaChannel(code).value.name + "counterunit" != "serial"
  {
    var name := SmaChannel(code).value.name;
    NamesEndings(code);
    LastOfAppend(name, "unit");
    LastOfAppend(name, "counter");
    LastOfAppend(name, "counterunit");
  }

  lemma LastOfAppend(a: string, b: string)
    requires |b| > 0
    ensures Last(a + b) == Last(b)
  {
  }
}

/** The Speedwire datagram decoder: one datagram in, a map of decimal
    readings and their units out. */
module Speedwire {
  import opened Wrappers
  import opened Bytes
  import opened Decimal
  import opened Catalog

  /** The decoder's output: key to decimal value or unit string. */
  type Frame = map<string, string>

  /** Why decoding stopped where the Rust decoder panics. */
  datatype Panic =
    | ReadPastEnd(offset: nat, width: nat)  // an `unwrap` of a read beyond the buffer
    | LengthOverflow(declared: nat)         // `u16 + 16` exceeds the u16 range
    | MissingUnit(unit: string)             // the unit is absent from the unit table
    | MissingCounterUnit(code: nat)         // `sma_channel[2]` on a two-element row

  /** How an OBIS record header classifies the record. */
  datatype RecordKind = ActualKind | CounterKind | VersionKind | UnknownKind

  const U16Max: nat := 0xFFFF

  /** A byte reinterpreted as the signed `i8` the header is read as. */
  function AsI8(b: byte): (r: int)
    ensures -128 <= r < 128
    ensures r % 256 == b % 256
  {
    if b < 128 then b else b - 256
  }

  /** Bytes `S`, `M`, `A` open every Speedwire datagram: read as a 24-bit
      big-endian number, the first three bytes are 0x534D41. */
  predicate HasSmaPrefix(d: seq<byte>): (b: bool)
    ensures b <==> |d| >= 3 && d[..3] == ToBE(0x534D41, 3)
    ensures b ==> FromBE(d[..3]) == 0x534D41
  {
    FromToBE(0x534D41, 3);
    |d| >= 3 && d[0] == 'S' as nat && d[1] == 'M' as nat && d[2] == 'A' as nat
  }

  /** What a cursor positioned at `pos` hands out as its remaining bytes:
      the rest of the buffer, nothing once the cursor is at or past its end. */
  function Remaining(d: seq<byte>, pos: nat): (r: seq<byte>)
    ensures pos <= |d| ==> d[..pos] + r == d
    ensures pos >= |d| ==> r == []
  {
    if pos <= |d| then d[pos..] else []
  }

  /** The 3-byte OBIS header: a big-endian u16 measurement code and a
      signed type byte. Type 4 is an actual reading, type 8 a counter,
      type 0 on code 36864 the version marker, anything else unknown. */
  function DecodeObis(obis: seq<byte>): (r: Option<(nat, RecordKind)>)
    ensures r.Some? <==> |obis| >= 3
    ensures r.Some? ==> r.value.0 == FromBE(obis[..2]) && r.value.0 <= U16Max
    ensures r.Some? ==> (r.value.1 == ActualKind <==> obis[2] == 4)
    ensures r.Some? ==> (r.value.1 == CounterKind <==> obis[2] == 8)
    ensures r.Some? ==> (r.value.1 == VersionKind <==> obis[2] == 0 && r.value.0 == VersionCode)
  {
    var code :- ReadU16(obis, 0);
    var rawType :- ReadBE(obis, 2, 1);
    assert obis[0..2] == obis[..2];
    assert FromBE(obis[2..3]) == obis[2] by {
      assert obis[2..3][..0] == [];
    }
    var t := AsI8(rawType);
    var kind :=
      if t == 4 then ActualKind
      else if t == 8 then CounterKind
      else if t == 0 && code == VersionCode then VersionKind
      else UnknownKind;
    Some((code, kind))
  }

  /** Converts a failed read at `pos` into the panic it causes. */
  function Need(r: Option<nat>, pos: nat, width: nat): (res: Result<nat, Panic>)
    ensures r.Some? ==> res == Ok(r.value)
    ensures r.None? ==> res == Err(ReadPastEnd(pos, width))
  {
    match r
    case Some(v) => Ok(v)
    case None => Err(ReadPastEnd(pos, width))
  }

  /** Records an actual reading: the value divided by the unit's divisor
      under the channel name, and the unit under name + "unit". Unknown
      codes leave the frame as it is. */
  function StoreActual(acc: Frame, code: nat, raw: nat): (r: Result<Frame, Panic>)
    ensures SmaChannel(code).None? ==> r == Ok(acc)
    ensures SmaChannel(code).Some? ==>
              var ch := SmaChannel(code).value;
              match Divisor(ch.unit)
              case None => r == Err(MissingUnit(ch.unit))
              case Some(div) =>
                && r.Ok?
                && r.value.Keys == acc.Keys + {ch.name, ch.name + "unit"}
                && r.value[ch.name] == NatToString(raw / div)
                && r.value[ch.name + "unit"] == ch.unit
                && (forall k :: k in acc && k != ch.name && k != ch.name + "unit" ==> r.value[k] == acc[k])
    ensures r.Ok? && "serial" in acc ==> r.value["serial"] == acc["serial"]
  {
    if SmaChannel(code).None? then Ok(acc)
    else
      var ch := SmaChannel(code).value;
      KeysNeverSerial(code);
      assert ch.name != ch.name + "unit";
      match Divisor(ch.unit)
      case None => Err(MissingUnit(ch.unit))
      case Some(div) => Ok(acc[ch.name := NatToString(raw / div)][ch.name + "unit" := ch.unit])
  }

  /** Records a counter reading: the value divided by the counter unit's
      divisor under name + "counter", and the counter unit under
      name + "counterunit". A known channel without a counter unit panics. */
  function StoreCounter(acc: Frame, code: nat, raw: nat): (r: Result<Frame, Panic>)
    ensures SmaChannel(code).None? ==> r == Ok(acc)
    ensures SmaChannel(code).Some? && SmaChannel(code).value.counterUnit.None? ==> r == Err(MissingCounterUnit(code))
    ensures SmaChannel(code).Some? && SmaChannel(code).value.counterUnit.Some? ==>
              var ch := SmaChannel(code).value;
              var unit := ch.counterUnit.value;
              match Divisor(unit)
              case None => r == Err(MissingUnit(unit))
              case Some(div) =>
                && r.Ok?
                && r.value.Keys == acc.Keys + {ch.name + "counter", ch.name + "counterunit"}
                && r.value[ch.name + "counter"] == NatToString(raw / div)
                && r.value[ch.name + "counterunit"] == unit
                && (forall k :: k in acc && k != ch.name + "counter" && k != ch.name + "counterunit" ==> r.value[k] == acc[k])
    ensures r.Ok? && "serial" in acc ==> r.value["serial"] == acc["serial"]
  {
    if SmaChannel(code).None? then Ok(acc)
    else
      var ch := SmaChannel(code).value;
      KeysNeverSerial(code);
      match ch.counterUnit
      case None => Err(MissingCounterUnit(code))
      case Some(unit) =>
        assert (ch.name + "counter")[|ch.name| + 7..] == [];
        assert ch.name + "counter" != ch.name + "counterunit";
        match Divisor(unit)
        case None => Err(MissingUnit(unit))
        case Some(div) => Ok(acc[ch.name + "counter" := NatToString(raw / div)][ch.name + "counterunit" := unit])
  }

  /** The OBIS loop: decodes the record at `pos` and moves on while
      `pos < end`. The cursor advances by 12 after a counter record and by
      8 after any other, whether or not its code is known. */
  function Walk(d: seq<byte>, end: nat, pos: nat, acc: Frame): (r: Result<Frame, Panic>)
    // no clamp: the walk only succeeds when the declared end lies at most
    // the 5 unread bytes of a skipped record past the buffer
    ensures r.Ok? && pos < end ==> end <= |d| + 5
    ensures r.Ok? ==> acc.Keys <= r.value.Keys
    ensures r.Ok? && "serial" in acc ==> r.value["serial"] == acc["serial"]
    decreases end - pos
  {
    if pos >= end then Ok(acc)
    else
      match DecodeObis(Remaining(d, pos))
      case None => Err(ReadPastEnd(pos, 3))
      case Some((code, kind)) =>
        if kind == ActualKind then
          var raw :- Need(ReadU32(d, pos + 4), pos + 4, 4);
          var acc' :- StoreActual(acc, code, raw);
          Walk(d, end, pos + 8, acc')
        else if kind == CounterKind then
          var raw :- Need(ReadU64(d, pos + 4), pos + 4, 8);
          var acc' :- StoreCounter(acc, code, raw);
          Walk(d, end, pos + 12, acc')
        else
          Walk(d, end, pos + 8, acc)
  }

  /** The whole decoder. Input without the `SMA` prefix, including input
      shorter than three bytes, decodes to the empty frame. Otherwise the
      u16 at offset 12 plus 16 is the end of the OBIS loop, the u32 at
      offset 20 is the serial number and the u32 at offset 24 (a timestamp)
      is read and dropped; the records start at offset 28. */
  function DecodeSpeedwire(d: seq<byte>): (r: Result<Frame, Panic>)
    ensures !HasSmaPrefix(d) ==> r == Ok(map[])
    ensures HasSmaPrefix(d) && |d| < 28 ==> r.Err?
    ensures HasSmaPrefix(d) && r.Ok? ==>
              "serial" in r.value && r.value["serial"] == NatToString(FromBE(d[20..24]))
  {
    if !HasSmaPrefix(d) then Ok(map[])
    else
      var length :- Need(ReadU16(d, 12), 12, 2);
      if length + 16 > U16Max then Err(LengthOverflow(length))
      else
        var end := length + 16;
        var serial :- Need(ReadU32(d, 20), 20, 4);
        var _ :- Need(ReadU32(d, 24), 24, 4);
        Walk(d, end, 28, map["serial" := NatToString(serial)])
  }

  /** 2^53: every natural below it is exactly representable as an f64. */
  const F64Exact: nat := 0x20_0000_0000_0000

  /** A decimal rendering of a natural that an f64 holds exactly. */
  predicate DecodedNumber(v: string) {
    ParseNat(v).Some? && ParseNat(v).value < F64Exact
  }

  /** The four keys a catalog channel can contribute and their values. */
  predicate ChannelEntry(ch: Channel, k: string, v: string) {
    || (k == ch.name && DecodedNumber(v))
    || (k == ch.name + "unit" && v == ch.unit)
    || (ch.counterUnit.Some? && k == ch.name + "counter" && DecodedNumber(v))
    || (ch.counterUnit.Some? && k == ch.name + "counterunit" && v == ch.counterUnit.value)
  }

  /** A key/value pair the decoder can emit: the serial number, or an entry
      of a catalog channel other than the version marker. */
  ghost predicate FrameEntry(k: string, v: string) {
    || (k == "serial" && DecodedNumber(v))
    || exists code :: SmaChannel(code).Some? && code != VersionCode && ChannelEntry(SmaChannel(code).value, k, v)
  }

  ghost predicate WellFormedFrame(f: Frame) {
    forall k :: k in f ==> FrameEntry(k, f[k])
  }

  lemma DecodedNumberOf(n: nat)
    requires n < F64Exact
    ensures DecodedNumber(NatToString(n))
  {
    ParseNatToString(n);
  }

  /** Storing a u32 actual reading keeps a frame well formed. */
  lemma StoreActualWellFormed(acc: Frame, code: nat, raw: nat)
    requires WellFormedFrame(acc) && raw < 0x1_0000_0000
    ensures StoreActual(acc, code, raw).Ok? ==> WellFormedFrame(StoreActual(acc, code, raw).value)
  {
    if SmaChannel(code).Some? && StoreActual(acc, code, raw).Ok? {
      var ch := SmaChannel(code).value;
      var div := Divisor(ch.unit).value;
      var f := StoreActual(acc, code, raw).value;
      DecodedNumberOf(raw / div);
      assert code != VersionCode;
      assert ChannelEntry(ch, ch.name, f[ch.name]);
      assert ChannelEntry(ch, ch.name + "unit", f[ch.name + "unit"]);
    }
  }

  /** Storing a u64 counter reading keeps a frame well formed: the counter
      units all divide by 3600, which brings any u64 below 2^53. */
  lemma StoreCounterWellFormed(acc: Frame, code: nat, raw: nat)
    requires WellFormedFrame(acc) && raw < 0x1_0000_0000_0000_0000
    ensures StoreCounter(acc, code, raw).Ok? ==> WellFormedFrame(StoreCounter(acc, code, raw).value)
  {
    if SmaChannel(code).Some? && StoreCounter(acc, code, raw).Ok? {
      var ch := SmaChannel(code).value;
      CounterUnitsScalable(code);
      var f := StoreCounter(acc, code, raw).value;
      DecodedNumberOf(raw / 3600);
      assert ChannelEntry(ch, ch.name + "counter", f[ch.name + "counter"]);
      assert ChannelEntry(ch, ch.name + "counterunit", f[ch.name + "counterunit"]);
    }
  }

  lemma {:induction false} WalkWellFormed(d: seq<byte>, end: nat, pos: nat, acc: Frame)
    requires WellFormedFrame(acc)
    ensures Walk(d, end, pos, acc).Ok? ==> WellFormedFrame(Walk(d, end, pos, acc).value)
    decreases end - pos
  {
    if pos < end && DecodeObis(Remaining(d, pos)).Some? {
      PowersUsed();
      var (code, kind) := DecodeObis(Remaining(d, pos)).value;
      if kind == ActualKind {
        if ReadU32(d, pos + 4).Some? {
          var raw := ReadU32(d, pos + 4).value;
          StoreActualWellFormed(acc, code, raw);
          if StoreActual(acc, code, raw).Ok? {
            WalkWellFormed(d, end, pos + 8, StoreActual(acc, code, raw).value);
          }
        }
      } else if kind == CounterKind {
        if ReadU64(d, pos + 4).Some? {
          var raw := ReadU64(d, pos + 4).value;
          StoreCounterWellFormed(acc, code, raw);
          if StoreCounter(acc, code, raw).Ok? {
            WalkWellFormed(d, end, pos + 12, StoreCounter(acc, code, raw).value);
          }
        }
      } else {
        WalkWellFormed(d, end, pos + 8, acc);
      }
    }
  }

  /** Every key of a decoded frame is "serial" or a catalog name followed by
      "", "unit", "counter" or "counterunit"; every numeric value is the
      decimal rendering of a natural below 2^53; every unit is the
      channel's own. */
  lemma DecodedFrameWellFormed(d: seq<byte>)
    ensures DecodeSpeedwire(d).Ok? ==> WellFormedFrame(DecodeSpeedwire(d).value)
  {
    if HasSmaPrefix(d) && DecodeSpeedwire(d).Ok? {
      PowersUsed();
      var length := ReadU16(d, 12).value;
      var serial := ReadU32(d, 20).value;
      var f := map["serial" := NatToString(serial)];
      DecodedNumberOf(serial);
      assert WellFormedFrame(f);
      WalkWellFormed(d, length + 16, 28, f);
    }
  }

  /** The decoder does not clamp the declared length to the buffer: it
      succeeds only when the declared end lies at most 5 bytes past the
      buffer (the unread tail of a skipped record), so any longer
      declaration makes it panic. */
  lemma DeclaredLengthNotClamped(d: seq<byte>)
    requires HasSmaPrefix(d) && |d| >= 14
    ensures DecodeSpeedwire(d).Ok? ==> FromBE(d[12..14]) + 16 <= |d| + 5
  {
  }

  lemma FromBEZeros(s: seq<byte>)
    requires forall i :: 0 <= i < |s| ==> s[i] == 0
    ensures FromBE(s) == 0
  {
  }

  /** Zero bytes, as the zero-filled receive buffer holds past the end of a
      short datagram, decode as unknown 8-byte records and store nothing. */
  lemma {:induction false} ZeroRecordsStoreNothing(d: seq<byte>, end: nat, pos: nat, acc: Frame)
    requires end + 2 <= |d|
    requires forall i :: pos <= i < |d| ==> d[i] == 0
    ensures Walk(d, end, pos, acc) == Ok(acc)
    decreases end - pos
  {
    if pos < end {
      var obis := Remaining(d, pos);
      FromBEZeros(obis[..2]);
      assert DecodeObis(obis).value.1 == UnknownKind;
      ZeroRecordsStoreNothing(d, end, pos + 8, acc);
    }
  }

  /** A second actual reading of the same channel overwrites the first. */
  lemma RepeatedActualOverwrites(acc: Frame, code: nat, first: nat, second: nat)
    requires StoreActual(acc, code, first).Ok?
    ensures StoreActual(StoreActual(acc, code, first).value, code, second) == StoreActual(acc, code, second)
  {
    if SmaChannel(code).Some? {
      assert StoreActual(acc, code, second).Ok?;
      var a := StoreActual(StoreActual(acc, code, first).value, code, second).value;
      var b := StoreActual(acc, code, second).value;
      assert a.Keys == b.Keys;
      assert forall k :: k in a ==> a[k] == b[k];
      assert a == b;
    }
  }

  /** A second counter reading of the same channel overwrites the first. */
  lemma RepeatedCounterOverwrites(acc: Frame, code: nat, first: nat, second: nat)
    requires StoreCounter(acc, code, first).Ok?
    ensures StoreCounter(StoreCounter(acc, code, first).value, code, second) == StoreCounter(acc, code, second)
  {
    if SmaChannel(code).Some? {
      assert StoreCounter(acc, code, second).Ok?;
      var a := StoreCounter(StoreCounter(acc, code, first).value, code, second).value;
      var b := StoreCounter(acc, code, second).value;
      assert a.Keys == b.Keys;
      assert forall k :: k in a ==> a[k] == b[k];
      assert a == b;
    }
  }
}

/** Building Speedwire datagrams, the inverse of the decoder: decoding a
    built datagram folds its records into the frame. */
module SpeedwireEncoding {
  import opened Wrappers
  import opened Bytes
  import opened Decimal
  import opened Catalog
  import opened Speedwire

  /** One OBIS record as the meter lays it out. The byte after the type
      (`tariff`) and the five bytes after a skipped record's header are
      never read. */
  datatype Obis =
    | ActualRecord(code: nat, tariff: byte, value: nat)
    | CounterRecord(code: nat, tariff: byte, value: nat)
    | SkippedRecord(code: nat, typeByte: byte, rest: seq<byte>)

  predicate ValidRecord(r: Obis) {
    && r.code < 0x1_0000
    && match r
       case ActualRecord(_, _, v) => v < 0x1_0000_0000
       case CounterRecord(_, _, v) => v < 0x1_0000_0000_0000_0000
       case SkippedRecord(_, t, rest) => t != 4 && t != 8 && |rest| == 5
  }

  predicate AllValid(rs: seq<Obis>) {
    |rs| == 0 || (ValidRecord(rs[0]) && AllValid(rs[1..]))
  }

  function EncodeRecord(r: Obis): (bytes: seq<byte>)
    requires ValidRecord(r)
    ensures |bytes| == (if r.CounterRecord? then 12 else 8)
  {
    PowersUsed();
    match r
    case ActualRecord(code, tariff, v) => ToBE(code, 2) + [4, tariff] + ToBE(v, 4)
    case CounterRecord(code, tariff, v) => ToBE(code, 2) + [8, tariff] + ToBE(v, 8)
    case SkippedRecord(code, t, rest) => ToBE(code, 2) + [t] + rest
  }

  function EncodeRecords(rs: seq<Obis>): (bytes: seq<byte>)
    requires AllValid(rs)
  {
    if |rs| == 0 then [] else EncodeRecord(rs[0]) + EncodeRecords(rs[1..])
  }

  /** What one record stores into the frame; version and unknown records
      store nothing. */
  function StoreRecord(acc: Frame, r: Obis): Result<Frame, Panic>
  {
    match r
    case ActualRecord(code, _, v) => StoreActual(acc, code, v)
    case CounterRecord(code, _, v) => StoreCounter(acc, code, v)
    case SkippedRecord(_, _, _) => Ok(acc)
  }

  /** The frame the decoder builds from a record list: each record applied
      in order, stopping at the first that panics. */
  function ApplyRecords(acc: Frame, rs: seq<Obis>): Result<Frame, Panic>
    decreases |rs|
  {
    if |rs| == 0 then Ok(acc)
    else
      var acc' :- StoreRecord(acc, rs[0]);
      ApplyRecords(acc', rs[1..])
  }

  lemma ApplyRecordsStep(acc: Frame, rs: seq<Obis>)
    requires |rs| > 0
    ensures ApplyRecords(acc, rs) ==
              match StoreRecord(acc, rs[0])
              case Ok(next) => ApplyRecords(next, rs[1..])
              case Err(e) => Err(e)
  {
  }

  /** A datagram: the `SMA` prefix, 9 free bytes, the u16 length that puts
      the loop end right after the records, 6 free bytes, serial number,
      timestamp, records. */
  function EncodeDatagram(fill1: seq<byte>, fill2: seq<byte>, serial: nat, timestamp: nat, rs: seq<Obis>): (d: seq<byte>)
    requires |fill1| == 9 && |fill2| == 6
    requires serial < 0x1_0000_0000 && timestamp < 0x1_0000_0000
    requires AllValid(rs)
    requires 28 + |EncodeRecords(rs)| <= U16Max
    ensures |d| == 28 + |EncodeRecords(rs)|
    ensures d[..3] == ['S' as nat, 'M' as nat, 'A' as nat] && d[3..12] == fill1
    ensures d[12..14] == ToBE(12 + |EncodeRecords(rs)|, 2) && d[14..20] == fill2
    ensures d[20..24] == ToBE(serial, 4) && d[24..28] == ToBE(timestamp, 4)
    ensures d[28..] == EncodeRecords(rs)
  {
    PowersUsed();
    ['S' as nat, 'M' as nat, 'A' as nat] + fill1 + ToBE(12 + |EncodeRecords(rs)|, 2) + fill2
      + ToBE(serial, 4) + ToBE(timestamp, 4) + EncodeRecords(rs)
  }

  /** The header of a record sits at the front of its encoding. */
  lemma DecodeRecordHeader(r: Obis, rest: seq<byte>)
    requires ValidRecord(r)
    ensures DecodeObis(EncodeRecord(r) + rest) ==
              Some((r.code, match r
                            case ActualRecord(_, _, _) => ActualKind
                            case CounterRecord(_, _, _) => CounterKind
                            case SkippedRecord(c, t, _) =>
                              if t == 0 && c == VersionCode then VersionKind else UnknownKind))
  {
    var bytes := EncodeRecord(r) + rest;
    assert bytes[..2] == ToBE(r.code, 2);
    FromToBE(r.code, 2);
  }

  lemma SplitSlice(d: seq<byte>, pos: nat, end: nat, head: seq<byte>, rest: seq<byte>)
    requires pos <= end <= |d| && d[pos..end] == head + rest
    ensures d[pos..pos + |head|] == head
    ensures d[pos + |head|..end] == rest
  {
    assert d[pos..end][..|head|] == head;
    assert d[pos..end][|head|..] == rest;
  }

  /** The decoder's view of one encoded record at `pos`: its header and,
      for actual and counter records, its value. */
  lemma RecordAt(d: seq<byte>, pos: nat, r: Obis)
    requires ValidRecord(r)
    requires pos + |EncodeRecord(r)| <= |d|
    requires d[pos..pos + |EncodeRecord(r)|] == EncodeRecord(r)
    ensures DecodeObis(Remaining(d, pos)) ==
              Some((r.code, match r
                            case ActualRecord(_, _, _) => ActualKind
                            case CounterRecord(_, _, _) => CounterKind
                            case SkippedRecord(c, t, _) =>
                              if t == 0 && c == VersionCode then VersionKind else UnknownKind))
    ensures r.ActualRecord? ==> ReadU32(d, pos + 4) == Some(r.value)
    ensures r.CounterRecord? ==> ReadU64(d, pos + 4) == Some(r.value)
  {
    PowersUsed();
    var head := EncodeRecord(r);
    var w := |head|;
    assert Remaining(d, pos) == head + d[pos + w..];
    DecodeRecordHeader(r, d[pos + w..]);
    match r
    case ActualRecord(_, _, v) =>
      assert d[pos + 4..pos + 8] == head[4..8] == ToBE(v, 4);
      ReadEncoded(d, pos + 4, v, 4);
    case CounterRecord(_, _, v) =>
      assert d[pos + 4..pos + 12] == head[4..12] == ToBE(v, 8);
      ReadEncoded(d, pos + 4, v, 8);
    case SkippedRecord(_, _, _) =>
  }

  /** One step of the walk over an actual record. */
  lemma WalkActualStep(d: seq<byte>, end: nat, pos: nat, acc: Frame, code: nat, v: nat)
    requires pos < end
    requires DecodeObis(Remaining(d, pos)) == Some((code, ActualKind))
    requires ReadU32(d, pos + 4) == Some(v)
    ensures Walk(d, end, pos, acc) ==
              match StoreActual(acc, code, v)
              case Ok(next) => Walk(d, end, pos + 8, next)
              case Err(e) => Err(e)
  {
  }

  /** One step of the walk over a counter record. */
  lemma WalkCounterStep(d: seq<byte>, end: nat, pos: nat, acc: Frame, code: nat, v: nat)
    requires pos < end
    requires DecodeObis(Remaining(d, pos)) == Some((code, CounterKind))
    requires ReadU64(d, pos + 4) == Some(v)
    ensures Walk(d, end, pos, acc) ==
              match StoreCounter(acc, code, v)
              case Ok(next) => Walk(d, end, pos + 12, next)
              case Err(e) => Err(e)
  {
  }

  /** One step of the walk over a version or unknown record. */
  lemma WalkSkipStep(d: seq<byte>, end: nat, pos: nat, acc: Frame, code: nat, kind: RecordKind)
    requires pos < end
    requires DecodeObis(Remaining(d, pos)) == Some((code, kind))
    requires kind == VersionKind || kind == UnknownKind
    ensures Walk(d, end, pos, acc) == Walk(d, end, pos + 8, acc)
  {
  }

  /** One step of the walk over an encoded record the frame accepts. */
  lemma WalkRecordOk(d: seq<byte>, end: nat, pos: nat, acc: Frame, r: Obis, next: Frame)
    requires ValidRecord(r)
    requires pos < end
    requires pos + |EncodeRecord(r)| <= |d|
    requires d[pos..pos + |EncodeRecord(r)|] == EncodeRecord(r)
    requires StoreRecord(acc, r) == Ok(next)
    ensures Walk(d, end, pos, acc) == Walk(d, end, pos + |EncodeRecord(r)|, next)
  {
    RecordAt(d, pos, r);
    match r
    case ActualRecord(code, _, v) =>
      WalkActualStep(d, end, pos, acc, code, v);
    case CounterRecord(code, _, v) =>
      WalkCounterStep(d, end, pos, acc, code, v);
    case SkippedRecord(code, _, _) =>
      WalkSkipStep(d, end, pos, acc, code, DecodeObis(Remaining(d, pos)).value.1);
  }

  /** The walk stops with the panic of an encoded record the frame rejects. */
  lemma WalkRecordErr(d: seq<byte>, end: nat, pos: nat, acc: Frame, r: Obis)
    requires ValidRecord(r)
    requires pos < end
    requires pos + |EncodeRecord(r)| <= |d|
    requires d[pos..pos + |EncodeRecord(r)|] == EncodeRecord(r)
    requires StoreRecord(acc, r).Err?
    ensures Walk(d, end, pos, acc) == Err(StoreRecord(acc, r).error)
  {
    RecordAt(d, pos, r);
    match r
    case ActualRecord(code, _, v) =>
      WalkActualStep(d, end, pos, acc, code, v);
    case CounterRecord(code, _, v) =>
      WalkCounterStep(d, end, pos, acc, code, v);
  }

  /** Walking over encoded records that end where the loop ends, whatever
      follows them in the buffer, gives the frame the records build. */
  lemma {:induction false} WalkEncoded(d: seq<byte>, end: nat, pos: nat, acc: Frame, rs: seq<Obis>)
    requires AllValid(rs)
    requires end == pos + |EncodeRecords(rs)| <= |d|
    requires d[pos..end] == EncodeRecords(rs)
    ensures Walk(d, end, pos, acc) == ApplyRecords(acc, rs)
    decreases |rs|, 1
  {
    if |rs| > 0 {
      WalkEncodedCons(d, end, pos, acc, rs);
    } else {
      assert EncodeRecords(rs) == [];
    }
  }

  lemma {:induction false} WalkEncodedCons(d: seq<byte>, end: nat, pos: nat, acc: Frame, rs: seq<Obis>)
    requires |rs| > 0 && AllValid(rs)
    requires end == pos + |EncodeRecords(rs)| <= |d|
    requires d[pos..end] == EncodeRecords(rs)
    ensures Walk(d, end, pos, acc) == ApplyRecords(acc, rs)
    decreases |rs|, 0
  {
    var r := rs[0];
    var rest := rs[1..];
    var w := |EncodeRecord(r)|;
    assert EncodeRecords(rs) == EncodeRecord(r) + EncodeRecords(rest);
    SplitSlice(d, pos, end, EncodeRecord(r), EncodeRecords(rest));
    ApplyRecordsStep(acc, rs);
    var step := StoreRecord(acc, r);
    if step.Ok? {
      WalkRecordOk(d, end, pos, acc, r, step.value);
      WalkEncoded(d, end, pos + w, step.value, rest);
    } else {
      WalkRecordErr(d, end, pos, acc, r);
    }
  }

  /** Round trip: decoding a built datagram, followed by any bytes at all
      (the receive buffer is larger than the datagram), yields the serial
      number plus what the records store, or the panic of the first record
      that panics. */
  lemma DecodeEncoded(fill1: seq<byte>, fill2: seq<byte>, serial: nat, timestamp: nat, rs: seq<Obis>, tail: seq<byte>)
    requires |fill1| == 9 && |fill2| == 6
    requires serial < 0x1_0000_0000 && timestamp < 0x1_0000_0000
    requires AllValid(rs)
    requires 28 + |EncodeRecords(rs)| <= U16Max
    ensures DecodeSpeedwire(EncodeDatagram(fill1, fill2, serial, timestamp, rs) + tail)
            == ApplyRecords(map["serial" := NatToString(serial)], rs)
  {
    PowersUsed();
    var body := EncodeRecords(rs);
    var d := EncodeDatagram(fill1, fill2, serial, timestamp, rs) + tail;
    assert HasSmaPrefix(d);
    assert d[12..14] == ToBE(12 + |body|, 2);
    ReadEncoded(d, 12, 12 + |body|, 2);
    assert d[20..24] == ToBE(serial, 4);
    ReadEncoded(d, 20, serial, 4);
    assert d[28..28 + |body|] == body;
    WalkEncoded(d, 28 + |body|, 28, map["serial" := NatToString(serial)], rs);
  }

  lemma StorePconsumeExample(f: Frame)
    ensures StoreActual(f, 1, 1234) == Ok(f["pconsume" := "123"]["pconsumeunit" := "W"])
  {
    assert SmaChannel(1).value == Full("pconsume", "W", "Wh");
    assert "pconsume" + "unit" == "pconsumeunit";
    assert NatToString(123) == "123" by {
      assert NatToString(12) == "12";
    }
  }

  lemma StorePsupplyCounterExample(f: Frame)
    ensures StoreCounter(f, 2, 36000000) == Ok(f["psupplycounter" := "10000"]["psupplycounterunit" := "Wh"])
  {
    assert SmaChannel(2).value == Full("psupply", "W", "Wh");
    assert "psupply" + "counter" == "psupplycounter";
    assert "psupply" + "counterunit" == "psupplycounterunit";
    assert NatToString(10000) == "10000" by {
      assert NatToString(10) == "10";
      assert NatToString(100) == "100";
      assert NatToString(1000) == "1000";
    }
  }

  /** A single actual reading of real consumed power (code 1) with raw
      value 1234: the divisor of "W" is 10, so the frame holds "123". */
  lemma ActualReadingExample(fill1: seq<byte>, fill2: seq<byte>, serial: nat, timestamp: nat, tail: seq<byte>)
    requires |fill1| == 9 && |fill2| == 6
    requires serial < 0x1_0000_0000 && timestamp < 0x1_0000_0000
    ensures DecodeSpeedwire(EncodeDatagram(fill1, fill2, serial, timestamp, [ActualRecord(1, 0, 1234)]) + tail)
            == Ok(map["serial" := NatToString(serial), "pconsume" := "123", "pconsumeunit" := "W"])
  {
    var rs := [ActualRecord(1, 0, 1234)];
    var f := map["serial" := NatToString(serial)];
    assert EncodeRecords(rs) == EncodeRecord(rs[0]) + EncodeRecords([]);
    DecodeEncoded(fill1, fill2, serial, timestamp, rs, tail);
    ApplyRecordsStep(f, rs);
    StorePconsumeExample(f);
    assert rs[1..] == [];
  }

  /** A single counter reading of real supplied energy (code 2) with raw
      value 36000000: the divisor of "Wh" is 3600, so the frame holds
      "10000". */
  lemma CounterReadingExample(fill1: seq<byte>, fill2: seq<byte>, serial: nat, timestamp: nat, tail: seq<byte>)
    requires |fill1| == 9 && |fill2| == 6
    requires serial < 0x1_0000_0000 && timestamp < 0x1_0000_0000
    ensures DecodeSpeedwire(EncodeDatagram(fill1, fill2, serial, timestamp, [CounterRecord(2, 0, 36000000)]) + tail)
            == Ok(map["serial" := NatToString(serial), "psupplycounter" := "10000", "psupplycounterunit" := "Wh"])
  {
    var rs := [CounterRecord(2, 0, 36000000)];
    var f := map["serial" := NatToString(serial)];
    assert EncodeRecords(rs) == EncodeRecord(rs[0]) + EncodeRecords([]);
    DecodeEncoded(fill1, fill2, serial, timestamp, rs, tail);
    ApplyRecordsStep(f, rs);
    StorePsupplyCounterExample(f);
    assert rs[1..] == [];
  }

  /** An actual reading with unknown code 9999 stores nothing, and the
      reading after it is still decoded. */
  lemma UnknownCodeExample(fill1: seq<byte>, fill2: seq<byte>, serial: nat, timestamp: nat, tail: seq<byte>)
    requires |fill1| == 9 && |fill2| == 6
    requires serial < 0x1_0000_0000 && timestamp < 0x1_0000_0000
    ensures DecodeSpeedwire(EncodeDatagram(fill1, fill2, serial, timestamp,
                                           [ActualRecord(9999, 0, 5), ActualRecord(1, 0, 1234)]) + tail)
            == Ok(map["serial" := NatToString(serial), "pconsume" := "123", "pconsumeunit" := "W"])
  {
    var rs := [ActualRecord(9999, 0, 5), ActualRecord(1, 0, 1234)];
    assert EncodeRecords(rs) == EncodeRecord(rs[0]) + (EncodeRecord(rs[1]) + EncodeRecords([]));
    DecodeEncoded(fill1, fill2, serial, timestamp, rs, tail);
    ApplyUnknownThenPconsume(map["serial" := NatToString(serial)]);
  }

  lemma ApplyUnknownThenPconsume(f: Frame)
    ensures ApplyRecords(f, [ActualRecord(9999, 0, 5), ActualRecord(1, 0, 1234)])
            == Ok(f["pconsume" := "123"]["pconsumeunit" := "W"])
  {
    var rs := [ActualRecord(9999, 0, 5), ActualRecord(1, 0, 1234)];
    assert StoreActual(f, 9999, 5) == Ok(f);
    ApplyRecordsStep(f, rs);
    assert rs[1..] == [ActualRecord(1, 0, 1234)];
    ApplyRecordsStep(f, rs[1..]);
    StorePconsumeExample(f);
    assert rs[1..][1..] == [];
  }

  /** An actual reading on the version marker's code panics: its unit ""
      is not in the unit table. */
  lemma VersionAsActualPanics(fill1: seq<byte>, fill2: seq<byte>, serial: nat, timestamp: nat, v: nat, tail: seq<byte>)
    requires |fill1| == 9 && |fill2| == 6
    requires serial < 0x1_0000_0000 && timestamp < 0x1_0000_0000 && v < 0x1_0000_0000
    ensures DecodeSpeedwire(EncodeDatagram(fill1, fill2, serial, timestamp, [ActualRecord(VersionCode, 0, v)]) + tail)
            == Err(MissingUnit(""))
  {
    var rs := [ActualRecord(VersionCode, 0, v)];
    assert EncodeRecords(rs) == EncodeRecord(rs[0]) + EncodeRecords([]);
    DecodeEncoded(fill1, fill2, serial, timestamp, rs, tail);
    var f := map["serial" := NatToString(serial)];
    ApplyRecordsStep(f, rs);
    StoreVersionActual(f, v);
  }

  lemma StoreVersionActual(f: Frame, v: nat)
    ensures StoreActual(f, VersionCode, v) == Err(MissingUnit(""))
  {
    assert SmaChannel(VersionCode).value == Actual("speedwire-version", "");
  }

  /** A counter reading on a channel without a counter unit (code 13,
      "cosphi") panics on the missing third catalog element. */
  lemma CounterWithoutCounterUnitPanics(fill1: seq<byte>, fill2: seq<byte>, serial: nat, timestamp: nat, v: nat, tail: seq<byte>)
    requires |fill1| == 9 && |fill2| == 6
    requires serial < 0x1_0000_0000 && timestamp < 0x1_0000_0000 && v < 0x1_0000_0000_0000_0000
    ensures DecodeSpeedwire(EncodeDatagram(fill1, fill2, serial, timestamp, [CounterRecord(13, 0, v)]) + tail)
            == Err(MissingCounterUnit(13))
  {
    var rs := [CounterRecord(13, 0, v)];
    assert EncodeRecords(rs) == EncodeRecord(rs[0]) + EncodeRecords([]);
    DecodeEncoded(fill1, fill2, serial, timestamp, rs, tail);
    ApplyRecordsStep(map["serial" := NatToString(serial)], rs);
  }
}

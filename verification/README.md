# sma_exporter in Dafny

This project models the two self-contained pieces of logic in `sma_exporter`, a Prometheus exporter for the SMA Home Manager / Energy Meter.

1. **The Speedwire decoder** (`decode_obis`, `decode_speedwire`, and the `SMA_UNITS` and `SMA_CHANNELS` tables in `src/sma_decoder.rs`). It turns one UDP datagram into a string→string map holding:
   - the meter's serial number;
   - per channel, the reading divided by its unit's scale, with the unit beside it.
2. **The exporter's projection** (`CHANNEL_MAPPINGS`, the metric registration loop and the per-frame update pass in `src/main.rs`). It maps decoder keys onto Prometheus gauge and counter series labelled by phase.

The datagram is an immutable `seq<byte>`. The decoder is a pure recursive cursor walk returning `Result<Frame, Panic>`:
- `Frame` is `map<string, string>`;
- `Panic` names the `unwrap`, table-index or overflow failure at which the Rust code would panic.

The metrics library is abstracted:
- **Registry:** the set of registered gauge names and the set of registered counter names. It refuses a name that is already taken.
- **Sink:** a `map<Cell, nat>` for gauges and another for counters. A `Cell` is a (metric name, phase label) pair.

The update pass is a pure transition `Sink → Result<Sink, Fault>`.

## Modules

| file | module | contents |
|---|---|---|
| `wrappers.dfy` | `Wrappers` | `Option`, `Result` |
| `bytes.dfy` | `Bytes` | bytes, big-endian encode/decode, cursor reads that fail past the end |
| `decimal.dfy` | `Decimal` | `to_string` of unsigned integers, and the parse the exporter applies to it |
| `catalog.dfy` | `Catalog` | `SMA_UNITS` (`Divisor`) and `SMA_CHANNELS` (`SmaChannel`) |
| `speedwire.dfy` | `Speedwire` | `decode_obis`, the OBIS loop (`Walk`), `decode_speedwire`, well-formedness of the output |
| `speedwire_encoding.dfy` | `SpeedwireEncoding` | building datagrams, the round trip through the decoder, worked examples |
| `mappings.dfy` | `Mappings` | `CHANNEL_MAPPINGS` and its agreement with the catalog |
| `exporter.dfy` | `Exporter` | registration, the update pass, the lemmas about the pass |

## Model

| member | source | states |
|---|---|---|
| Bytes.ReadBE | src/sma_decoder.rs:124-133 | A big-endian read of `width` bytes at a cursor position succeeds exactly when that many bytes remain. Its value is below 256^width. |
| Bytes.FromToBE | src/sma_decoder.rs:124 | Big-endian decoding inverts big-endian encoding for every value that fits the width. |
| Bytes.ReadEncoded | src/sma_decoder.rs:128 | A read where an encoding of `v` sits gives `v`, whatever bytes surround it. |
| Decimal.NatToString | src/sma_decoder.rs:129 | `to_string` of an unsigned integer is a nonempty digit string with no superfluous leading zero. |
| Decimal.ParseNat | src/main.rs:166 | The parse succeeds exactly on nonempty strings of decimal digits. |
| Decimal.ParseNatToString | src/main.rs:176 | Parsing what the decoder rendered gives the decoder's number back. |
| Decimal.NatToStringParse | src/main.rs:166 | On canonical digit strings the parse and the rendering are inverse the other way round as well. |
| Decimal.NatToStringInjective | src/sma_decoder.rs:153 | Distinct readings render as distinct strings. |
| Catalog.Divisor | src/sma_decoder.rs:27-39 | Every unit's divisor is 10, 1000 or 3600. The empty unit has no divisor. |
| Catalog.SmaChannel | src/sma_decoder.rs:46-90 | The catalog holds codes below 74 and the version code 36864. The unit is empty exactly for the version marker. A counter unit is always the actual unit followed by "h" (W→Wh, VAr→VArh, VA→VAh). |
| Catalog.ActualUnitsScalable | src/sma_decoder.rs:49-88 | A catalog channel's actual unit has a divisor exactly when the channel is not the version marker 36864. |
| Catalog.CounterUnitsScalable | src/sma_decoder.rs:49-86 | Every counter unit in the catalog (Wh, VArh, VAh) is divided by 3600. |
| Catalog.NamesEndings | src/sma_decoder.rs:49-88 | Catalog names are nonempty and are not "serial". None ends in 't' or 'r', so a name never clashes with a `…unit`, `…counter` or `…counterunit` key. |
| Catalog.KeysNeverSerial | src/sma_decoder.rs:129-170 | No key built from a catalog name equals "serial", so channel entries never overwrite the serial number. |
| Speedwire.HasSmaPrefix | src/sma_decoder.rs:119 | A datagram is accepted exactly when its first three bytes are `S`, `M`, `A`, that is, the 24-bit big-endian value 0x534D41. |
| Speedwire.Remaining | src/sma_decoder.rs:141-142 | What the cursor hands to `decode_obis` is the rest of the buffer: with the consumed prefix it makes up the whole buffer, and it is empty once the cursor is at or past the end. |
| Speedwire.AsI8 | src/sma_decoder.rs:96 | The type byte is reinterpreted as an `i8`: in range, and congruent to the byte mod 256. |
| Speedwire.DecodeObis | src/sma_decoder.rs:93-112 | The header fails on fewer than 3 bytes. Otherwise the code is the big-endian u16 of bytes 0..2. The kind is actual iff the type byte is 4, counter iff 8, version iff 0 on code 36864, and unknown otherwise. |
| Speedwire.StoreActual | src/sma_decoder.rs:150-156 | An unknown code leaves the frame as it is. A known code stores exactly name → raw / divisor (truncating) and name+"unit" → unit, and keeps every other key. A unit missing from the unit table panics. |
| Speedwire.StoreCounter | src/sma_decoder.rs:164-171 | An unknown code leaves the frame as it is. A two-element channel panics. Otherwise it stores exactly name+"counter" → raw / divisor and name+"counterunit" → counter unit, and keeps every other key. |
| Speedwire.Walk | src/sma_decoder.rs:138-179 | The OBIS loop terminates. On success it only adds keys and keeps the serial number. It succeeds only if the declared end lies at most 5 bytes past the buffer. |
| Speedwire.DecodeSpeedwire | src/sma_decoder.rs:115-182 | Input without the `SMA` prefix (including input shorter than 3 bytes) gives the empty map. Prefixed input shorter than 28 bytes panics. On success "serial" is the decimal rendering of the u32 at bytes 20..24. |
| Speedwire.StoreActualWellFormed | src/sma_decoder.rs:150-156 | Storing an actual reading keeps the frame within the decoder's vocabulary. |
| Speedwire.StoreCounterWellFormed | src/sma_decoder.rs:164-171 | Storing a counter reading keeps the frame within the decoder's vocabulary. |
| Speedwire.WalkWellFormed | src/sma_decoder.rs:138-179 | The loop keeps the frame within the decoder's vocabulary. |
| Speedwire.DecodedFrameWellFormed | src/sma_decoder.rs:115-182 | Every output key is "serial", a catalog name, or a catalog name plus "unit", "counter" or "counterunit". Values are decimal naturals below 2^53 or the channel's unit. |
| Speedwire.DeclaredLengthNotClamped | src/sma_decoder.rs:124-142 | The declared length is not clamped to the buffer: decoding succeeds only when length + 16 ≤ buffer size + 5. |
| Speedwire.ZeroRecordsStoreNothing | src/sma_decoder.rs:173-178 | Zero bytes, as the zero-filled receive buffer holds past a short datagram, are unknown 8-byte records and store nothing. |
| Speedwire.RepeatedActualOverwrites | src/sma_decoder.rs:153-155 | A second actual reading of the same code overwrites the first. |
| Speedwire.RepeatedCounterOverwrites | src/sma_decoder.rs:168-170 | A second counter reading of the same code overwrites the first. |
| SpeedwireEncoding.EncodeRecord | src/sma_decoder.rs:145-178 | An actual record and a skipped record occupy 8 bytes each. A counter record occupies 12. |
| SpeedwireEncoding.EncodeDatagram | src/sma_decoder.rs:119-138 | A built datagram is the 28-byte header the decoder reads, followed by its records: `SMA` at 0..3, the big-endian u16 length at 12..14 that puts the loop end right after the records, the serial number at 20..24, the timestamp at 24..28, and the records from 28 on. |
| SpeedwireEncoding.DecodeRecordHeader | src/sma_decoder.rs:93-112 | `decode_obis` reads back the code and kind of an encoded record. |
| SpeedwireEncoding.WalkEncoded | src/sma_decoder.rs:138-179 | Walking encoded records applies them in order, stopping at the first panic. |
| SpeedwireEncoding.DecodeEncoded | src/sma_decoder.rs:115-182 | Round trip: decoding a built datagram, followed by any trailing bytes, gives the serial number plus what its records store. |
| SpeedwireEncoding.ActualReadingExample | src/sma_decoder.rs:145-156 | Code 1 with raw value 1234 gives "pconsume" → "123" and "pconsumeunit" → "W". |
| SpeedwireEncoding.CounterReadingExample | src/sma_decoder.rs:159-171 | Code 2 with raw counter 36000000 gives "psupplycounter" → "10000" and "psupplycounterunit" → "Wh". |
| SpeedwireEncoding.VersionAsActualPanics | src/sma_decoder.rs:153 | An actual reading on the version code 36864 panics: its unit "" is missing from the unit table. |
| SpeedwireEncoding.CounterWithoutCounterUnitPanics | src/sma_decoder.rs:168 | A counter reading on a two-element channel (code 13, "cosphi") panics on the missing `sma_channel[2]`. |
| SpeedwireEncoding.UnknownCodeExample | src/sma_decoder.rs:145-157 | A reading with unknown code 9999 stores nothing, and the reading after it is still decoded. |
| Mappings.MappingOf | src/main.rs:63-104 | Every row of the table has two or three elements, and its last element is one of the phase labels Total, L1, L2, L3. |
| Mappings.ChannelMappingsLookup | src/main.rs:63-104 | The map the exporter iterates over holds exactly the keys the table defines, each with its row. |
| Mappings.GaugeCell | src/main.rs:164-166 | A row's gauge series is its first element, labelled with the row's last element as phase. |
| Mappings.CounterCell | src/main.rs:173-175 | A three-element row's counter series is its second element, under the same phase label as the row's gauge. |
| Mappings.RowShape | src/main.rs:66-103 | Every row is `[gauge, counter, phase]` or `[gauge, phase]`. The phase is Total, L1, L2 or L3. Each row's gauge series and counter series lead back to its key, so keys target distinct series. |
| Mappings.MetricKindsDisjoint | src/main.rs:66-103 | No metric name of the table is both a gauge name and a counter name. |
| Mappings.MappedNamesAreChannels | src/main.rs:66-103 | Every table key names a catalog channel other than the version marker. |
| Mappings.CatalogAgreement | src/sma_decoder.rs:49-86 | Every catalog channel except "speedwire-version" has a row. The row has three elements exactly when the channel has a counter unit. |
| Mappings.MappingKeyEndings | src/main.rs:66-103 | No table key is "serial" or ends in 't' or 'r'. |
| Exporter.RegisterMetrics | src/main.rs:116-138 | Registration succeeds exactly when no row is empty and no name is wanted both as a gauge and as a counter. It registers exactly one gauge per distinct `values[0]` and one counter per distinct `values[1]` of a three-element row, each name once. |
| Exporter.SetGauge | src/main.rs:160-167 | Setting a gauge fails exactly on a row shorter than two, an unregistered gauge or an unparsable value. On success the row's gauge series holds the parsed value, every other gauge series is unchanged, and counters are untouched. |
| Exporter.SetCounter | src/main.rs:169-177 | Reset-then-increment leaves the counter equal to the frame value, not a running sum. Every other counter series is unchanged and gauges are untouched. It fails exactly on a row shorter than three, an unregistered counter or an unparsable value. |
| Exporter.UpdateKey | src/main.rs:158-178 | One turn succeeds exactly when the key's gauge and counter can be set. When the key is in the frame, its gauge series holds the parsed `frame[key]`; when key+"counter" is, its counter series holds the parsed `frame[key+"counter"]`. All other series keep their values, and a family whose frame entry is absent is left alone. |
| Exporter.UpdatePass | src/main.rs:158-178 | The pass over the keys in iteration order succeeds exactly when every key's updates can be made, whatever the sink holds. |
| Exporter.UpdatePassUntouched | src/main.rs:160-177 | Series whose keys are absent from the frame keep their values, and no series is removed or added besides the written ones. |
| Exporter.UpdatePassWrites | src/main.rs:160-177 | Every written series holds the frame value of a key that targets it. |
| Exporter.UpdatePassAgrees | src/main.rs:158-178 | Two sinks updated from one frame agree on every written series. |
| Exporter.UpdatePassIdempotent | src/main.rs:169-177 | Applying the same frame twice gives the state of applying it once. |
| Exporter.UpdatePassSetsValue | src/main.rs:160-177 | With distinct targets, a key present in the frame leaves its gauge equal to the frame value. A key whose `…counter` entry is present leaves its counter equal to that value. |
| Exporter.UpdatePassOrderIndependent | src/main.rs:158 | With distinct targets, any two iteration orders of the same keys both succeed or both fail, and on success give the same sink. |
| Exporter.UpdatePassReadsOnlyKeys | src/main.rs:158-178 | Only `key` and `key+"counter"` are read from the frame, for each table key. |
| Exporter.TableRegistrationSucceeds | src/main.rs:116-138 | Registration of the exporter's own table succeeds. |
| Exporter.TableTargetsDistinct | src/main.rs:66-103 | Distinct keys of the exporter's table write distinct gauge series and distinct counter series. |
| Exporter.TableOrderIndependent | src/main.rs:158-178 | The update over the exporter's table gives the same sink for every hash-map iteration order. |
| Exporter.TableIgnoresSerialAndUnits | src/main.rs:158-178 | Adding or changing "serial" or any key ending in "unit" (hence "counterunit") leaves the update unchanged. |
| Exporter.DecodedFrameKeyOk | src/main.rs:160-177 | Every key of the table can be updated from any frame the decoder returns. |
| Exporter.DecodedFramesNeverFault | src/main.rs:158-178 | The update pass never panics on decoder output: there are no failed lookups, no short rows and no failed parses. |

## Left out

- `src/udp_client.rs`: socket creation, multicast join and `recv` are I/O. Only its zero-filled receive buffer shows up, as `ZeroRecordsStoreNothing` and the arbitrary `tail` of `DecodeEncoded`.
- The HTTP server (`handle`, `full`, the listener and its tasks): network transport.
- The metrics library's internals (`GaugeVec`, `CounterVec`, `TextEncoder`, `gather`):
  - A series is a map entry.
  - Registration refusing a taken name is the one library behaviour modelled.
  - Metric-name syntax checks and label-count checks are not modelled; the table's names and its single `phase` label satisfy them.
- The `LOCK` mutex, the spawned thread and the one-second sleep: concurrency and timing. One update pass is modelled per frame.
- The timestamp at offset 24: it is read only as a bounds check.
- Decimal.ParseNat: models `parse::<f64>()` only on decimal naturals. The f64 grammar also accepts signs, fractions, exponents, `inf` and `nan`. The decoder never emits those, and every value it emits is below 2^53, so the f64 is exact.
- Speedwire.DecodeSpeedwire: `u16 + 16` at line 124 is modelled as the panic of a debug build (`LengthOverflow`). A release build wraps and would then end the loop at the wrapped value.
- The partial state after a panic: the model returns the fault and discards the frame or sink built so far. In the program, the panic ends the decoding thread. A decoder panic happens before `LOCK` is taken (`src/main.rs:155`), so the metrics only stop changing. A fault in the update pass happens while `LOCK` is held, which poisons it, and every later scrape then panics at `LOCK.lock().unwrap()` (`src/main.rs:50`); `Exporter.DecodedFramesNeverFault` rules that case out for decoder output.
- The key order of `CHANNEL_MAPPINGS.keys()` is not modelled: it is a parameter. Order independence is proved instead.

## Declared length

The code at `src/sma_decoder.rs:124-139` loops up to the declared length plus 16 and does not bound it by the buffer size. `Speedwire.DeclaredLengthNotClamped` states the consequence: a declared end more than 5 bytes past the buffer makes decoding panic.

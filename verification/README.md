# EclypseZ7Source control-word encoder

A Dafny model of the client side of the Eclypse Z7 software-defined-radio
link in `observation.py`. The client opens two TCP connections to the device.
It sends the handshake word 0 on the control socket and the handshake word 1
on the data socket. It then configures the radio with two control words: the
frequency word `0 << 28 | f` and the sample-rate word `1 << 28 | code`, where
`code` comes from the fixed table `rates`. Every word goes out as
`struct.pack('<I', v)`: four bytes, least significant first.

Modules:

- `Wrappers` (wrappers.dfy): `Option`, `Result` and the two exceptions the
  client can raise, `ValueError` and `struct.error` (`StructError`).
- `Bits` (bits.dfy): `1 << k` and Python's `|` on unbounded integers of any
  sign (`BitOr`), so the word layout is proved, not assumed.
- `Wire` (wire.dfy): the `'<I'` format. It holds the little-endian encoder and
  decoder, `Pack` with its `struct.error` range, and `Words`, the device's view
  of a byte stream as 32-bit words.
- `ControlWords` (control_words.dfy): the `rates` table, `set_rate`'s word or
  error, and `set_freq`'s word.
- `Eclypse` (eclypse.dfy): the `EclypseZ7Source` object. Its sockets are
  append-only byte logs `ctrl` and `data`. A ghost `trace` records the order of
  the sends across both sockets. Its methods are `SendWord` (one
  `sock.send(struct.pack('<I', v))`), `SetFreq`, `SetRate`, and the
  construction sequence `Handshake`, `Configure` and `Init`. A raised
  exception is modelled as the returned `Outcome` `Raised(e)`.
- `Reception` (reception.dfy): the arithmetic of the sample-unpacking format
  in `write_received_data_to_file`. See Findings.

Two facts about the code shape the model:

- `set_freq` has no 28-bit payload check. It sends `0 << 28 | f`, which is
  `f` itself, and only `struct.pack` limits it to [0, 2^32). The example
  frequency 1420405000 therefore goes out with bits 31..28 equal to 5
  (`Freq1420405000Example`).
- The receive path carries no leftover bytes from one read to the next.
  Each read is unpacked on its own (see Findings).

## Model

| member | source | states |
|---|---|---|
| `Bits.BitOr` | observation.py:38 | Python's bitwise or on ints of any sign; its contract says that or-ing two non-negative ints gives at least each of them, and that or-ing with a negative int gives a negative result, which `struct.pack` then rejects; its exact meaning for the words sent comes from `BitOrShifted`, `ControlWordLayout`, `RateWord` and `FreqWord` |
| `Bits.BitOrShifted` | observation.py:38 | `t << k` or-ed with b equals `t * 2^k + b` whenever `0 <= b < 2^k`: or-ing a small payload into a shifted tag is plain addition |
| `Wire.FromLEOfLE` | observation.py:20 | decoding the n-byte little-endian encoding of v (v < 256^n) gives back v |
| `Wire.LEOfFromLE` | observation.py:20 | re-encoding the value of any byte string gives back the same bytes, so the encoding is a bijection on n-byte strings |
| `Wire.LE32` | observation.py:23 | the `'<I'` bytes of v are exactly 4 and decode back to v; byte 0 is v mod 256, bytes 1 and 2 are the next two octets, and byte 3 is v / 2^24 (least significant first) |
| `Wire.Unpack32` | observation.py:38 | every 4-byte string decodes to a value in [0, 2^32) whose `'<I'` encoding is that string |
| `Wire.Pack` | observation.py:33 | `struct.pack('<I', v)` succeeds exactly when 0 <= v < 2^32 and then yields 4 bytes that unpack to v; otherwise it raises `struct.error` |
| `Wire.Pack32RoundTrip` | observation.py:20 | round trip of the 32-bit format in both directions: unpack after pack is the identity on [0, 2^32), and pack after unpack is the identity on 4-byte strings |
| `Wire.WordsOfCons` | observation.py:33 | a stream that starts with a packed word is read by the device as that word followed by the words of the rest |
| `Wire.WordsOfPacked` | observation.py:38 | a stream made by packing a sequence of words one after another is read back as exactly those words, in order |
| `ControlWords.ControlWord` | observation.py:33 | the word `tag << 28` or-ed with the payload (also line 38): with tag 0 the word is the payload itself, unmasked, and a payload below 2^28 is simply added to `tag * 2^28`; the bit layout is spelled out by `ControlWordLayout` |
| `ControlWords.ControlWordLayout` | observation.py:38 | for a payload below 2^28, the word `tag << 28` or-ed with the payload has the tag in bits 28 and up and the payload in bits 27..0 |
| `ControlWords.RateCode` | observation.py:10 | a rate found in the table has a code in 0..6 and equals 24000 * 2^code |
| `ControlWords.RateCodeComplete` | observation.py:10 | every code 0..6 is found, for the rate 24000 * 2^code; with `RateCode`, exactly the seven rates 24000 … 1536000 are accepted |
| `ControlWords.RateCodeMonotone` | observation.py:10 | the table is injective and order-preserving: for accepted rates, r1 < r2 iff code1 < code2, and r1 == r2 iff the codes are equal |
| `ControlWords.RateWord` | observation.py:35-40 | `set_rate` raises `ValueError` exactly for rates outside the table; otherwise its word fits in 32 bits, bits 31..28 hold 1 and bits 27..0 hold the rate's code |
| `ControlWords.FreqWord` | observation.py:33 | the frequency word, `0 << 28` or-ed with f, equals the effective frequency f unchanged, with no masking to 28 bits |
| `ControlWords.Rate768000Example` | observation.py:82 | the rate 768000 gives the word 0x10000005, sent as bytes 05 00 00 10 |
| `ControlWords.Freq1420405000Example` | observation.py:81 | the example frequency 1420405000 gives the word 0x54a9a908, whose bits 31..28 are 5, sent as bytes 08 a9 a9 54 |
| `Eclypse.ControlStreamWords` | observation.py:19-27 | the control stream after construction reads as the words [0, f] and, when the rate is accepted, [0, f, rate word] |
| `Eclypse.EclypseZ7Source.constructor` | observation.py:15-16 | two fresh sockets with nothing sent on either |
| `Eclypse.EclypseZ7Source.SendWord` | observation.py:20 | one `send(struct.pack('<I', v))`: it appends the 4 bytes of v to that socket's log and to the trace and leaves the other socket alone; for v outside [0, 2^32) it raises `struct.error` and nothing changes |
| `Eclypse.EclypseZ7Source.SetFreq` | observation.py:32-33 | appends the `'<I'` bytes of f to the control log only; for f outside [0, 2^32) it raises `struct.error` and sends nothing |
| `Eclypse.EclypseZ7Source.SetRate` | observation.py:35-40 | for a rate in the table it appends the bytes of `RateWord(rate)` to the control log; for any other rate it raises `ValueError` and sends nothing; the data log never changes |
| `Eclypse.EclypseZ7Source.Handshake` | observation.py:19-23 | sends word 0 on the control socket, then word 1 on the data socket, in that order |
| `Eclypse.EclypseZ7Source.Configure` | observation.py:26-27 | the trace gains exactly the frequency send and then the rate send, both on the control socket (only the frequency send when the rate raises `ValueError`, nothing when f is out of range); a failed `set_freq` stops before `set_rate`; the control log grows by f's bytes and then by the rate word's bytes, or stops after f's bytes when the rate raises `ValueError` |
| `Eclypse.EclypseZ7Source.Init` | observation.py:19-27 | the trace gains control word 0, then data word 1, then the sends of `Configure` for the same outcome; the data log gains exactly `LE32(1)`; the control log gains `LE32(0) + LE32(f) + LE32(rate word)` on success, ends after `LE32(f)` with `ValueError` for an unsupported rate, and ends after `LE32(0)` with `struct.error` for f outside [0, 2^32) |
| `Reception.UnpackFitsAsWritten` | observation.py:55-57 | the format `f'<{len // 8}ff'` describes `FloatsAsWritten(len)` = len // 8 + 1 floats, that is 4 * (len // 8 + 1) bytes, which equals len only for len = 4 or len = 8 |
| `Reception.OnlyEightByteReadsDecode` | observation.py:55-58 | of all non-empty reads, only an 8-byte read both unpacks and reshapes into (I, Q) pairs |
| `Reception.IntendedDecodesWholeSamples` | observation.py:55-58 | with two floats per 8-byte sample, a read decodes exactly when its length is a multiple of 8, into len / 8 pairs |

## Left out

- Socket creation, `connect`, `recv` and the TCP transport: sockets are byte
  logs, and a connection failure is not modelled.
- `socket.send` returning fewer bytes than given: every send is modelled as
  complete, and the source ignores the count it returns.
- The float frequency correction `int((1.0 + 1e-6 * corr) * freq)`: floating
  point. `SetFreq`, `Configure` and `Init` take the effective frequency as an
  integer. With `corr = 0`, `int(1.0 * freq)` is `freq` for integer
  `|freq| < 2^53`.
- `set_rate` given a non-integer key that compares equal to a table rate
  (such as `768000.0`): rates are modelled as integers.
- `write_received_data_to_file`: the receive loop, the file writes, the hex
  dump, the console output, the numpy complex-sample construction and the
  broad `except`/`finally` that closes both sockets. These are I/O and a
  foreign library. Only the arithmetic of its unpack format is modelled, in
  `Reception`.
- The `__main__` configuration block: it is glue. Its example values appear
  only in `Rate768000Example` and `Freq1420405000Example`.

## Findings

| source | as written | input that shows it | evidently intended | confidence | as-written member | corrected member |
|---|---|---|---|---|---|---|
| observation.py:55-58 | format `f'<{num_samples}ff'` with `num_samples = len(data) // 8` describes `num_samples + 1` floats | a 16-byte read: the format describes 12 bytes, so `struct.unpack` raises and reception stops; a 4-byte read unpacks one float and then `reshape(-1, 2)` raises | two floats per 8-byte sample (`f'<{2 * num_samples}f'`), as the comments on lines 55 and 58 describe | high, not executed | `Reception.OnlyEightByteReadsDecode` | `Reception.IntendedDecodesWholeSamples` |

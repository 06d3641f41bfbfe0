/**
 * The control words of the EclypseZ7Source client: a 4-bit command tag in
 * bits 31..28 or-ed with a payload, `tag << 28 | payload`.
 */
module ControlWords {
  import opened Wrappers
  import opened Bits
  import opened Wire

  /** EclypseZ7Source.rates: each supported sample rate (samples/s) and its code. */
  const Rates: map<int, nat> :=
    map[24000 := 0, 48000 := 1, 96000 := 2, 192000 := 3, 384000 := 4, 768000 := 5, 1536000 := 6]

  /** The shift that places the tag above the payload. */
  const PayloadBits: nat := 28
  /** Tag of the set-frequency command. */
  const FreqTag: nat := 0
  /** Tag of the set-rate command. */
  const RateTag: nat := 1

  /** `tag << 28 | payload`, with Python's unbounded `|`: nothing masks the payload. */
  function ControlWord(tag: nat, payload: int): (w: int)
    ensures tag == 0 ==> w == payload
    ensures 0 <= payload < Pow2(PayloadBits) ==> w == tag * Pow2(PayloadBits) + payload
  {
    var w := BitOr(tag * Pow2(PayloadBits), payload);
    if 0 <= payload < Pow2(PayloadBits) then
      BitOrShifted(tag, PayloadBits, payload);
      w
    else
      w
  }

  /** 1 << 28. */
  lemma TagUnit()
    ensures Pow2(PayloadBits) == 0x1000_0000
  {
    assert Pow2(8) == 0x100;
    assert Pow2(16) == 0x1_0000;
    assert Pow2(24) == 0x100_0000;
  }

  /** A payload that fits in 28 bits sits below the tag, which fills bits 28 and up. */
  lemma ControlWordLayout(tag: nat, payload: int)
    requires 0 <= payload < Pow2(PayloadBits)
    ensures ControlWord(tag, payload) / Pow2(PayloadBits) == tag
    ensures ControlWord(tag, payload) % Pow2(PayloadBits) == payload
  {
    TagUnit();
  }

  /** The table lookup `rates[rate]`, None when `rate not in rates`. */
  function RateCode(rate: int): (r: Option<nat>)
    ensures r.Some? ==> r.value <= 6 && rate == 24000 * Pow2(r.value)
  {
    if rate in Rates then Some(Rates[rate]) else None
  }

  /** Every code 0..6 belongs to the rate 24000 * 2^code: with RateCode's ensures, exactly those seven rates are accepted. */
  lemma RateCodeComplete(code: nat)
    requires code <= 6
    ensures RateCode(24000 * Pow2(code)) == Some(code)
  {
    assert Pow2(0) == 1 && Pow2(1) == 2 && Pow2(2) == 4 && Pow2(3) == 8;
    assert Pow2(4) == 16 && Pow2(5) == 32 && Pow2(6) == 64;
  }

  lemma {:induction false} Pow2Increasing(i: nat, j: nat)
    requires i < j
    ensures Pow2(i) < Pow2(j)
  {
    if i + 1 < j {
      Pow2Increasing(i, j - 1);
    }
  }

  /** The table is injective and order-preserving: a higher rate has a higher code. */
  lemma RateCodeMonotone(r1: int, r2: int)
    requires RateCode(r1).Some? && RateCode(r2).Some?
    ensures r1 < r2 <==> RateCode(r1).value < RateCode(r2).value
    ensures r1 == r2 <==> RateCode(r1).value == RateCode(r2).value
  {
    var c1, c2 := RateCode(r1).value, RateCode(r2).value;
    if c1 < c2 {
      Pow2Increasing(c1, c2);
    } else if c2 < c1 {
      Pow2Increasing(c2, c1);
    }
  }

  /** The word set_rate sends, or the ValueError it raises instead. */
  function RateWord(rate: int): (r: Result<int, Error>)
    ensures r.Err? <==> RateCode(rate).None?
    ensures r.Err? ==> r.error == ValueError
    ensures r.Ok? ==> IsU32(r.value)
    ensures r.Ok? ==> r.value / Pow2(PayloadBits) == RateTag
    ensures r.Ok? ==> r.value % Pow2(PayloadBits) == RateCode(rate).value
  {
    match RateCode(rate)
    case None => Err(ValueError)
    case Some(code) =>
      TagUnit();
      ControlWordLayout(RateTag, code);
      Ok(ControlWord(RateTag, code))
  }

  /** The word set_freq sends for effective frequency f: `0 << 28 | f` is f itself, unmasked. */
  function FreqWord(f: int): (w: int)
    ensures w == f
  {
    ControlWord(FreqTag, f)
  }

  /** Rate 768000 becomes word 0x10000005, sent as bytes 05 00 00 10. */
  lemma Rate768000Example()
    ensures RateWord(768000) == Ok(0x1000_0005)
    ensures LE32(0x1000_0005) == [0x05, 0x00, 0x00, 0x10]
  {
    TagUnit();
    assert RateCode(768000) == Some(5);
    var b := LE32(0x1000_0005);
    assert b[0] == 0x05 && b[1] == 0x00 && b[2] == 0x00 && b[3] == 0x10;
  }

  /**
   * The example frequency 1420405000 Hz is sent as it is: its bits 31..28 are
   * 5, not the set-frequency tag 0, and it goes out as bytes 08 a9 a9 54.
   */
  lemma Freq1420405000Example()
    ensures FreqWord(1420405000) == 0x54a9_a908
    ensures FreqWord(1420405000) / Pow2(PayloadBits) == 5
    ensures LE32(FreqWord(1420405000)) == [0x08, 0xa9, 0xa9, 0x54]
  {
    TagUnit();
    var b := LE32(0x54a9_a908);
    assert b[0] == 0x08 && b[1] == 0xa9 && b[2] == 0xa9 && b[3] == 0x54;
  }
}

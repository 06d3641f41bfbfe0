/**
 * The arithmetic of the sample unpacking in write_received_data_to_file:
 * for a read of len bytes it computes n = len // 8 and unpacks with the
 * format f'<{n}ff', then reshapes the floats into (I, Q) pairs.
 */
module Reception {

  /** Floats described by f'<{n}ff' with n = len // 8: n for '{n}f' and one more for the trailing 'f'. */
  function FloatsAsWritten(len: nat): nat
  {
    len / 8 + 1
  }

  /**
   * A read gets through the decoding as written: struct.unpack needs exactly
   * 4 bytes per described float, and reshape(-1, 2) an even float count.
   */
  predicate DecodesAsWritten(len: nat)
  {
    4 * FloatsAsWritten(len) == len && FloatsAsWritten(len) % 2 == 0
  }

  /** Only reads of 4 or 8 bytes match the format as written. */
  lemma UnpackFitsAsWritten(len: nat)
    ensures 4 * FloatsAsWritten(len) == len <==> len == 4 || len == 8
  {
  }

  /** Of all non-empty reads, only an 8-byte read is decoded; every other length raises. */
  lemma OnlyEightByteReadsDecode(len: nat)
    requires len > 0
    ensures DecodesAsWritten(len) <==> len == 8
  {
    UnpackFitsAsWritten(len);
  }

  /** Floats in the format the comments describe: two per 8-byte sample, f'<{2 * n}f'. */
  function FloatsIntended(len: nat): nat
  {
    2 * (len / 8)
  }

  predicate DecodesIntended(len: nat)
  {
    4 * FloatsIntended(len) == len && FloatsIntended(len) % 2 == 0
  }

  /** With two floats per sample, every whole number of samples decodes, into len / 8 pairs. */
  lemma IntendedDecodesWholeSamples(len: nat)
    ensures DecodesIntended(len) <==> len % 8 == 0
    ensures DecodesIntended(len) ==> FloatsIntended(len) / 2 == len / 8
  {
  }
}

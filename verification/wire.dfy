/**
 * The wire format of every handshake and command: `struct.pack('<I', v)`,
 * a 4-byte unsigned integer with the least significant byte first.
 */
module Wire {
  import opened Wrappers

  /** One octet on the wire. */
  newtype Byte = x: int | 0 <= x < 256

  /** 256^n: one more than the largest value n bytes can hold. */
  function Pow256(n: nat): (r: nat)
    ensures r >= 1
  {
    if n == 0 then 1 else 256 * Pow256(n - 1)
  }

  /** The n-byte little-endian encoding of v. */
  function LE(v: nat, n: nat): (r: seq<Byte>)
    requires v < Pow256(n)
    ensures |r| == n
  {
    if n == 0 then [] else [(v % 256) as Byte] + LE(v / 256, n - 1)
  }

  /** The value of a little-endian byte string: byte i weighs 256^i. */
  function FromLE(b: seq<Byte>): (r: nat)
    ensures r < Pow256(|b|)
  {
    if b == [] then 0 else b[0] as nat + 256 * FromLE(b[1..])
  }

  /** Decoding an encoding gives back the value. */
  lemma {:induction false} FromLEOfLE(v: nat, n: nat)
    requires v < Pow256(n)
    ensures FromLE(LE(v, n)) == v
  {
    if n > 0 {
      var e := LE(v, n);
      assert e[1..] == LE(v / 256, n - 1);
      FromLEOfLE(v / 256, n - 1);
      assert e[0] as nat == v % 256;
      assert FromLE(e) == e[0] as nat + 256 * FromLE(e[1..]);
    }
  }

  /** Encoding a decoded byte string gives back the bytes: no two byte strings of one length share a value. */
  lemma {:induction false} LEOfFromLE(b: seq<Byte>)
    ensures LE(FromLE(b), |b|) == b
  {
    if b != [] {
      var v := FromLE(b);
      var rest := FromLE(b[1..]);
      var b0 := b[0] as nat;
      assert b0 < 256;
      assert v == b0 + 256 * rest;
      assert v % 256 == b0 && v / 256 == rest;
      LEOfFromLE(b[1..]);
      assert LE(v, |b|) == [b[0]] + b[1..];
    }
  }

  const U32Limit: nat := 0x1_0000_0000

  /** The range `struct.pack('<I', v)` accepts. */
  predicate IsU32(v: int) { 0 <= v < U32Limit }

  /** The 4 bytes `struct.pack('<I', v)` produces for an accepted v. */
  function LE32(v: int): (r: seq<Byte>)
    requires IsU32(v)
    ensures |r| == 4 && FromLE(r) == v
    ensures r[0] as int == v % 0x100 && r[1] as int == v / 0x100 % 0x100
    ensures r[2] as int == v / 0x1_0000 % 0x100 && r[3] as int == v / 0x100_0000
  {
    assert Pow256(4) == U32Limit;
    FromLEOfLE(v, 4);
    var v1, v2, v3 := v / 0x100, v / 0x1_0000, v / 0x100_0000;
    assert v1 / 0x100 == v2 && v2 / 0x100 == v3 && v3 < 0x100;
    assert LE(v, 4) == [(v % 256) as Byte] + LE(v1, 3);
    assert LE(v1, 3) == [(v1 % 256) as Byte] + LE(v2, 2);
    assert LE(v2, 2) == [(v2 % 256) as Byte] + LE(v3, 1);
    LE(v, 4)
  }

  /** `struct.unpack('<I', b)[0]` for a 4-byte b. */
  function Unpack32(b: seq<Byte>): (v: int)
    requires |b| == 4
    ensures IsU32(v) && LE32(v) == b
  {
    assert Pow256(4) == U32Limit;
    LEOfFromLE(b);
    FromLE(b)
  }

  /** `struct.pack('<I', v)`: raises struct.error unless 0 <= v < 2^32. */
  function Pack(v: int): (r: Result<seq<Byte>, Error>)
    ensures r.Ok? <==> IsU32(v)
    ensures r.Ok? ==> |r.value| == 4 && Unpack32(r.value) == v
    ensures r.Err? ==> r.error == StructError
  {
    if IsU32(v) then Ok(LE32(v)) else Err(StructError)
  }

  /**
   * Round trip of the 32-bit format in both directions, gathered in one
   * place from the contracts of LE32 and Unpack32.
   */
  lemma Pack32RoundTrip(v: int, b: seq<Byte>)
    requires |b| == 4
    ensures IsU32(v) ==> Unpack32(LE32(v)) == v
    ensures LE32(Unpack32(b)) == b
  {
    if IsU32(v) {
      var e := LE32(v);
      LEOfFromLE(e);
    }
  }

  /** The 32-bit words a byte stream carries, read 4 bytes at a time. */
  function Words(b: seq<Byte>): (w: seq<int>)
    requires |b| % 4 == 0
    ensures |w| == |b| / 4
    ensures forall i :: 0 <= i < |w| ==> IsU32(w[i])
  {
    if b == [] then [] else [Unpack32(b[..4])] + Words(b[4..])
  }

  /** Reading a stream that starts with a packed word yields that word first. */
  lemma WordsOfCons(x: int, rest: seq<Byte>)
    requires IsU32(x) && |rest| % 4 == 0
    ensures Words(LE32(x) + rest) == [x] + Words(rest)
  {
    var all := LE32(x) + rest;
    assert all[..4] == LE32(x);
    assert all[4..] == rest;
    FromLEOfLE(x, 4);
  }

  /** A stream of packed words is read back as those words, in order. */
  lemma {:induction false} WordsOfPacked(w: seq<int>, b: seq<Byte>)
    requires forall i :: 0 <= i < |w| ==> IsU32(w[i])
    requires |b| % 4 == 0
    ensures Words(Concat32(w) + b) == w + Words(b)
  {
    if w != [] {
      var w' := w[1..];
      assert forall i :: 0 <= i < |w'| ==> IsU32(w'[i]) by {
        forall i | 0 <= i < |w'| ensures IsU32(w'[i]) { assert w'[i] == w[i + 1]; }
      }
      var rest := Concat32(w');
      assert Concat32(w) == LE32(w[0]) + rest;
      var tail := rest + b;
      assert Concat32(w) + b == LE32(w[0]) + tail;
      WordsOfCons(w[0], tail);
      WordsOfPacked(w', b);
      calc {
        Words(Concat32(w) + b);
        Words(LE32(w[0]) + tail);
        [w[0]] + Words(tail);
        [w[0]] + (w' + Words(b));
        { assert w == [w[0]] + w'; }
        w + Words(b);
      }
    } else {
      assert Concat32(w) + b == b;
    }
  }

  /** Packing the words a, b, c one after another. */
  lemma Concat32Three(a: int, b: int, c: int)
    requires IsU32(a) && IsU32(b) && IsU32(c)
    ensures Concat32([a, b]) == LE32(a) + LE32(b)
    ensures Concat32([a, b, c]) == LE32(a) + LE32(b) + LE32(c)
  {
    assert [a, b][1..] == [b] && [b][1..] == [];
    assert [a, b, c][1..] == [b, c] && [b, c][1..] == [c] && [c][1..] == [];
    assert Concat32([c]) == LE32(c);
    assert Concat32([b]) == LE32(b);
  }

  /** The bytes sent by packing and sending each word of w in turn. */
  function Concat32(w: seq<int>): (b: seq<Byte>)
    requires forall i :: 0 <= i < |w| ==> IsU32(w[i])
    ensures |b| == 4 * |w|
  {
    if w == [] then [] else LE32(w[0]) + Concat32(w[1..])
  }
}

/**
 * The EclypseZ7Source client as an object: its control and data sockets are
 * append-only logs of the bytes sent on them, and a ghost trace keeps the
 * order in which the sends happened across the two sockets.
 */
module Eclypse {
  import opened Wrappers
  import opened Wire
  import opened ControlWords

  /** The two connections the client opens to the device. */
  datatype Sock = Ctrl | Data

  /** One `send` call: the socket and the bytes handed to it. */
  datatype Send = Send(sock: Sock, bytes: seq<Byte>)

  /** How a call ends: it returns, or it raises. */
  datatype Outcome = Done | Raised(error: Error)

  /** The bytes socket s has carried, in the order they were sent. */
  function Carried(trace: seq<Send>, s: Sock): seq<Byte>
  {
    if trace == [] then []
    else
      var last := trace[|trace| - 1];
      Carried(trace[..|trace| - 1], s) + (if last.sock == s then last.bytes else [])
  }

  /**
   * What the device reads from the control stream left by a construction:
   * the handshake word 0, the frequency word, and the rate word when the
   * rate was accepted.
   */
  lemma {:induction false} ControlStreamWords(f: int, rate: int)
    requires IsU32(f)
    ensures Words(LE32(0) + LE32(f)) == [0, f]
    ensures rate in Rates ==>
      Words(LE32(0) + LE32(f) + LE32(RateWord(rate).value)) == [0, f, RateWord(rate).value]
  {
    var w := if rate in Rates then RateWord(rate).value else 0;
    var empty: seq<Byte> := [];
    assert Words(empty) == [];
    Concat32Three(0, f, w);
    WordsOfPacked([0, f], empty);
    assert Concat32([0, f]) + empty == LE32(0) + LE32(f);
    WordsOfPacked([0, f, w], empty);
    assert Concat32([0, f, w]) + empty == LE32(0) + LE32(f) + LE32(w);
  }

  class EclypseZ7Source {
    /** Bytes sent on ctrl_sock. */
    var ctrl: seq<Byte>
    /** Bytes sent on data_sock. */
    var data: seq<Byte>
    /** Every send on either socket, oldest first. */
    ghost var trace: seq<Send>

    ghost predicate Valid()
      reads this
    {
      ctrl == Carried(trace, Ctrl) && data == Carried(trace, Data)
    }

    /** Two fresh sockets, nothing sent yet. */
    constructor ()
      ensures Valid()
      ensures trace == [] && ctrl == [] && data == []
    {
      ctrl, data, trace := [], [], [];
    }

    /** `sock.send(struct.pack('<I', v))`: 4 bytes, or struct.error and nothing sent. */
    method SendWord(sock: Sock, v: int) returns (out: Outcome)
      requires Valid()
      modifies this
      ensures Valid()
      ensures out == if IsU32(v) then Done else Raised(StructError)
      ensures trace == if IsU32(v) then old(trace) + [Send(sock, LE32(v))] else old(trace)
      ensures ctrl == if IsU32(v) && sock == Ctrl then old(ctrl) + LE32(v) else old(ctrl)
      ensures data == if IsU32(v) && sock == Data then old(data) + LE32(v) else old(data)
    {
      match Pack(v)
      case Err(e) =>
        out := Raised(e);
      case Ok(bytes) =>
        if sock == Ctrl {
          ctrl := ctrl + bytes;
        } else {
          data := data + bytes;
        }
        trace := trace + [Send(sock, bytes)];
        out := Done;
    }

    /**
     * set_freq for effective frequency f: sends f itself as the control word,
     * bits 31..28 included; a value outside [0, 2^32) raises and sends nothing.
     */
    method SetFreq(f: int) returns (out: Outcome)
      requires Valid()
      modifies this
      ensures Valid() && data == old(data)
      ensures out == if IsU32(f) then Done else Raised(StructError)
      ensures trace == if IsU32(f) then old(trace) + [Send(Ctrl, LE32(f))] else old(trace)
      ensures ctrl == if IsU32(f) then old(ctrl) + LE32(f) else old(ctrl)
    {
      out := SendWord(Ctrl, FreqWord(f));
    }

    /**
     * set_rate: a rate in the table sends `1 << 28 | code`; any other rate
     * raises ValueError and sends nothing.
     */
    method SetRate(rate: int) returns (out: Outcome)
      requires Valid()
      modifies this
      ensures Valid() && data == old(data)
      ensures out == if rate in Rates then Done else Raised(ValueError)
      ensures rate in Rates ==>
        var w := RateWord(rate).value;
        trace == old(trace) + [Send(Ctrl, LE32(w))] && ctrl == old(ctrl) + LE32(w)
      ensures rate !in Rates ==> trace == old(trace) && ctrl == old(ctrl)
    {
      match RateWord(rate)
      case Err(e) =>
        out := Raised(e);
      case Ok(w) =>
        out := SendWord(Ctrl, w);
    }

    /** The handshake of __init__: word 0 on the control socket, then word 1 on the data socket. */
    method Handshake()
      requires Valid()
      modifies this
      ensures Valid()
      ensures trace == old(trace) + [Send(Ctrl, LE32(0)), Send(Data, LE32(1))]
      ensures ctrl == old(ctrl) + LE32(0) && data == old(data) + LE32(1)
    {
      ghost var hello, welcome := LE32(0), LE32(1);
      var sent := SendWord(Ctrl, 0);
      ghost var t1, c1, d1 := trace, ctrl, data;
      assert t1 == old(trace) + [Send(Ctrl, hello)] && c1 == old(ctrl) + hello && d1 == old(data);
      sent := SendWord(Data, 1);
      assert trace == t1 + [Send(Data, welcome)] && ctrl == c1 && data == d1 + welcome;
    }

    /**
     * The configuration step of __init__: the frequency word, then the rate
     * word; a failure of set_freq means set_rate is never reached.
     */
    method Configure(f: int, rate: int) returns (out: Outcome)
      requires Valid()
      modifies this
      ensures Valid() && data == old(data)
      ensures |trace| >= |old(trace)| && trace[..|old(trace)|] == old(trace)
      ensures forall i :: |old(trace)| <= i < |trace| ==> trace[i].sock == Ctrl
      ensures !IsU32(f) ==>
        out == Raised(StructError) && ctrl == old(ctrl) && trace == old(trace)
      ensures IsU32(f) && rate !in Rates ==>
        out == Raised(ValueError) && ctrl == old(ctrl) + LE32(f) &&
        trace == old(trace) + [Send(Ctrl, LE32(f))]
      ensures IsU32(f) && rate in Rates ==>
        out == Done && ctrl == old(ctrl) + LE32(f) + LE32(RateWord(rate).value) &&
        trace == old(trace) + [Send(Ctrl, LE32(f)), Send(Ctrl, LE32(RateWord(rate).value))]
    {
      out := SetFreq(f);
      if out == Done {
        ghost var tuned := trace;
        out := SetRate(rate);
        assert trace[..|tuned|] == tuned;
      }
    }

    /**
     * __init__ once the sockets exist: the handshake, then the configuration.
     * The first failure stops construction before any data is received.
     */
    method Init(f: int, rate: int) returns (out: Outcome)
      requires Valid()
      modifies this
      ensures Valid()
      ensures data == old(data) + LE32(1)
      ensures |trace| >= |old(trace)| + 2 && trace[..|old(trace)|] == old(trace)
      ensures trace[|old(trace)|] == Send(Ctrl, LE32(0))
      ensures trace[|old(trace)| + 1] == Send(Data, LE32(1))
      ensures !IsU32(f) ==>
        out == Raised(StructError) && ctrl == old(ctrl) + LE32(0)
      ensures IsU32(f) && rate !in Rates ==>
        out == Raised(ValueError) && ctrl == old(ctrl) + LE32(0) + LE32(f)
      ensures IsU32(f) && rate in Rates ==>
        out == Done && ctrl == old(ctrl) + LE32(0) + LE32(f) + LE32(RateWord(rate).value)
      ensures var shake := old(trace) + [Send(Ctrl, LE32(0)), Send(Data, LE32(1))];
        (!IsU32(f) ==> trace == shake) &&
        (IsU32(f) && rate !in Rates ==> trace == shake + [Send(Ctrl, LE32(f))]) &&
        (IsU32(f) && rate in Rates ==>
           trace == shake + [Send(Ctrl, LE32(f)), Send(Ctrl, LE32(RateWord(rate).value))])
    {
      Handshake();
      ghost var shaken := trace;
      out := Configure(f, rate);
      assert trace[..|shaken|] == shaken;
      assert shaken[..|old(trace)|] == old(trace);
    }
  }
}

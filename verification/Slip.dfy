/** The SLIP interface: packets are framed by END bytes and escaped on their way out, and
    collected from the serial line into a chain of buffers on their way in. */
module Slip {
  import opened Chains
  import opened Common

  const SLIP_END: Byte := 0xC0
  const SLIP_ESC: Byte := 0xDB
  const SLIP_ESC_END: Byte := 0xDC
  const SLIP_ESC_ESC: Byte := 0xDD

  // ----- The wire format (RFC 1055) -----

  function Escape(c: Byte): seq<Byte> {
    if c == SLIP_END then [SLIP_ESC, SLIP_ESC_END]
    else if c == SLIP_ESC then [SLIP_ESC, SLIP_ESC_ESC]
    else [c]
  }

  function EscapeAll(data: seq<Byte>): seq<Byte> {
    if data == [] then [] else Escape(data[0]) + EscapeAll(data[1..])
  }

  function Encode(packet: seq<Byte>): seq<Byte> {
    [SLIP_END] + EscapeAll(packet) + [SLIP_END]
  }

  function EncodeAll(packets: seq<seq<Byte>>): seq<Byte> {
    if packets == [] then [] else Encode(packets[0]) + EncodeAll(packets[1..])
  }

  lemma {:induction false} EscapeAllAppend(a: seq<Byte>, b: seq<Byte>)
    ensures EscapeAll(a + b) == EscapeAll(a) + EscapeAll(b)
  {
    if a == [] {
      assert a + b == b;
    } else {
      assert (a + b)[1..] == a[1..] + b;
      EscapeAllAppend(a[1..], b);
    }
  }

  lemma EscapeOne(c: Byte)
    ensures EscapeAll([c]) == Escape(c)
  {
  }

  /** The bytes between two END bytes as RFC 1055 has them read: 219 220 stands for 192, 219 221 for 219,
      and every other byte for itself; `None` if they are not of that form. */
  function Spelled(wire: seq<Byte>): Option<seq<Byte>>
    decreases |wire|
  {
    if wire == [] then Some([])
    else if wire[0] == 192 then None
    else if wire[0] != 219 then After(wire[0], Spelled(wire[1..]))
    else if |wire| >= 2 && wire[1] == 220 then After(192, Spelled(wire[2..]))
    else if |wire| >= 2 && wire[1] == 221 then After(219, Spelled(wire[2..]))
    else None
  }

  function After(c: Byte, rest: Option<seq<Byte>>): Option<seq<Byte>> {
    if rest == None then None else Some([c] + rest.value)
  }

  /** The escaped bytes are the one spelling of the packet. */
  lemma {:induction false} OneSpelling(wire: seq<Byte>, packet: seq<Byte>)
    ensures Spelled(wire) == Some(packet) <==> wire == EscapeAll(packet)
    decreases |wire|, |packet|
  {
    hide Spelled;
    if packet == [] {
      SpelledEmpty(wire);
    } else {
      SpelledStep(wire, packet);
      var escape := Escape(packet[0]);
      if escape <= wire {
        OneSpelling(wire[|escape|..], packet[1..]);
        assert wire == escape + wire[|escape|..];
        assert wire == EscapeAll(packet) ==> wire[|escape|..] == EscapeAll(packet[1..]);
      }
    }
  }

  lemma SpelledEmpty(wire: seq<Byte>)
    ensures Spelled(wire) == Some([]) <==> wire == []
  {
  }

  lemma SpelledStep(wire: seq<Byte>, packet: seq<Byte>)
    requires packet != []
    ensures Spelled(wire) == Some(packet) <==>
            Escape(packet[0]) <= wire && Spelled(wire[|Escape(packet[0])|..]) == Some(packet[1..])
  {
    assert packet == [packet[0]] + packet[1..];
  }

  /** A framed packet is two END bytes around its spelling. */
  lemma FrameIs(packet: seq<Byte>)
    ensures var wire := Encode(packet);
            && |wire| >= 2 && wire[0] == 192 && wire[|wire| - 1] == 192
            && Spelled(wire[1..|wire| - 1]) == Some(packet)
  {
    hide Spelled, EscapeAll;
    OneSpelling(EscapeAll(packet), packet);
    assert Encode(packet)[1..|Encode(packet)| - 1] == EscapeAll(packet);
  }

  // ----- What a receiver with room for `max` bytes makes of a stream -----

  /** A packet under reception, and whether an escape is open. */
  datatype Line = Line(packet: seq<Byte>, escaped: bool)

  datatype Heard = Heard(packets: seq<seq<Byte>>, line: Line)

  const START := Line([], false)

  /** Bytes beyond the room are dropped. */
  function Fit(data: seq<Byte>, max: nat): seq<Byte> {
    if |data| <= max then data else data[..max]
  }

  function Unescape(c: Byte): Byte {
    if c == SLIP_ESC_END then SLIP_END else if c == SLIP_ESC_ESC then SLIP_ESC else c
  }

  function HearByte(max: nat, line: Line, c: Byte): Heard {
    if line.escaped then Heard([], Line(Fit(line.packet + [Unescape(c)], max), false))
    else if c == SLIP_END then
      if line.packet == [] then Heard([], line) else Heard([line.packet], START)
    else if c == SLIP_ESC then Heard([], Line(line.packet, true))
    else Heard([], Line(Fit(line.packet + [c], max), false))
  }

  function Hear(max: nat, line: Line, stream: seq<Byte>): Heard
    decreases |stream|
  {
    if stream == [] then Heard([], line)
    else
      var first := HearByte(max, line, stream[0]);
      var rest := Hear(max, first.line, stream[1..]);
      Heard(first.packets + rest.packets, rest.line)
  }

  lemma {:induction false} HearAppend(max: nat, line: Line, a: seq<Byte>, b: seq<Byte>)
    ensures var first := Hear(max, line, a); var rest := Hear(max, first.line, b);
            Hear(max, line, a + b) == Heard(first.packets + rest.packets, rest.line)
    decreases |a|
  {
    hide HearByte;
    if a == [] {
      assert a + b == b;
    } else {
      assert (a + b)[1..] == a[1..] + b;
      HearAppend(max, HearByte(max, line, a[0]).line, a[1..], b);
    }
  }

  lemma HearOne(max: nat, line: Line, c: Byte)
    ensures Hear(max, line, [c]) == HearByte(max, line, c)
  {
  }

  /** An escaped byte arrives as itself. */
  lemma HearEscaped(max: nat, packet: seq<Byte>, c: Byte)
    ensures Hear(max, Line(packet, false), Escape(c)) == Heard([], Line(Fit(packet + [c], max), false))
  {
    if c == SLIP_END || c == SLIP_ESC {
      var e := Escape(c);
      HearAppend(max, Line(packet, false), [SLIP_ESC], [e[1]]);
      HearOne(max, Line(packet, false), SLIP_ESC);
      HearOne(max, Line(packet, true), e[1]);
      assert e == [SLIP_ESC] + [e[1]];
    } else {
      HearOne(max, Line(packet, false), c);
    }
  }

  lemma {:induction false} HearData(max: nat, packet: seq<Byte>, data: seq<Byte>)
    requires |packet| <= max
    ensures Hear(max, Line(packet, false), EscapeAll(data)) == Heard([], Line(Fit(packet + data, max), false))
    decreases |data|
  {
    hide HearByte, Escape, Fit, Hear;
    if data == [] {
      assert packet + data == packet;
      FitsAlready(packet, max);
      HearNone(max, Line(packet, false));
    } else {
      var one := Fit(packet + [data[0]], max);
      FitTwice(packet, data, max);
      HearEscaped(max, packet, data[0]);
      HearData(max, one, data[1..]);
      HearAppend(max, Line(packet, false), Escape(data[0]), EscapeAll(data[1..]));
    }
  }

  lemma FitsAlready(packet: seq<Byte>, max: nat)
    requires |packet| <= max
    ensures Fit(packet, max) == packet
  {
  }

  lemma FitTwice(packet: seq<Byte>, data: seq<Byte>, max: nat)
    requires |packet| <= max && data != []
    ensures var one := Fit(packet + [data[0]], max);
            |one| <= max && Fit(one + data[1..], max) == Fit(packet + data, max)
  {
    if |packet| < max {
      assert packet + [data[0]] + data[1..] == packet + data;
    } else {
      FitFull(packet, [data[0]], max);
      FitFull(packet, data[1..], max);
      FitFull(packet, data, max);
    }
  }

  lemma FitFull(packet: seq<Byte>, data: seq<Byte>, max: nat)
    requires |packet| == max
    ensures Fit(packet + data, max) == packet
  {
  }

  lemma HearNone(max: nat, line: Line)
    ensures Hear(max, line, []) == Heard([], line)
  {
  }

  function Flush(packet: seq<Byte>): seq<seq<Byte>> {
    if packet == [] then [] else [packet]
  }

  /** One framed packet: what was pending is flushed, then the packet comes as far as it fits. */
  lemma HearFrame(max: nat, pending: seq<Byte>, packet: seq<Byte>)
    requires |pending| <= max
    ensures Hear(max, Line(pending, false), Encode(packet)) ==
            Heard(Flush(pending) + Flush(Fit(packet, max)), START)
  {
    hide EscapeAll, Fit;
    var line := Line(pending, false);
    HearAppend(max, line, [SLIP_END] + EscapeAll(packet), [SLIP_END]);
    HearAppend(max, line, [SLIP_END], EscapeAll(packet));
    HearOne(max, line, SLIP_END);
    HearData(max, [], packet);
    assert [] + packet == packet;
    HearOne(max, Line(Fit(packet, max), false), SLIP_END);
  }

  /** The packets as they arrive: empty ones vanish, long ones are cut. */
  function Received(max: nat, packets: seq<seq<Byte>>): seq<seq<Byte>> {
    if packets == [] then [] else Flush(Fit(packets[0], max)) + Received(max, packets[1..])
  }

  lemma {:induction false} HearFrames(max: nat, packets: seq<seq<Byte>>)
    ensures Hear(max, START, EncodeAll(packets)) == Heard(Received(max, packets), START)
  {
    hide HearByte, Encode, Fit;
    if packets != [] {
      HearFrame(max, [], packets[0]);
      HearFrames(max, packets[1..]);
      HearAppend(max, START, Encode(packets[0]), EncodeAll(packets[1..]));
      assert Flush([]) + Flush(Fit(packets[0], max)) == Flush(Fit(packets[0], max));
    }
  }

  /** Packets of one byte up to the receiver's room come through unchanged. */
  lemma {:induction false} RoundTrip(max: nat, packets: seq<seq<Byte>>)
    requires forall p :: p in packets ==> 1 <= |p| <= max
    ensures Hear(max, START, EncodeAll(packets)) == Heard(packets, START)
  {
    HearFrames(max, packets);
    ReceivedUnchanged(max, packets);
  }

  lemma {:induction false} ReceivedUnchanged(max: nat, packets: seq<seq<Byte>>)
    requires forall p :: p in packets ==> 1 <= |p| <= max
    ensures Received(max, packets) == packets
  {
    if packets != [] {
      assert packets[0] in packets;
      forall p | p in packets[1..] ensures 1 <= |p| <= max {
        assert p in packets;
      }
      ReceivedUnchanged(max, packets[1..]);
    }
  }

  lemma {:induction false} HearFits(max: nat, line: Line, stream: seq<Byte>)
    requires |line.packet| <= max
    ensures |Hear(max, line, stream).line.packet| <= max
    decreases |stream|
  {
    if stream != [] {
      HearFits(max, HearByte(max, line, stream[0]).line, stream[1..]);
    }
  }

  lemma HearPending(max: nat, pending: seq<Byte>, packets: seq<seq<Byte>>)
    requires packets != [] && |pending| <= max
    ensures Hear(max, Line(pending, false), EncodeAll(packets)) == Heard(Flush(pending) + Received(max, packets), START)
  {
    hide Hear, Encode, Fit, Flush;
    HearFrame(max, pending, packets[0]);
    HearFrames(max, packets[1..]);
    HearAppend(max, Line(pending, false), Encode(packets[0]), EncodeAll(packets[1..]));
    Associates(Flush(pending), Flush(Fit(packets[0], max)), Received(max, packets[1..]));
  }

  lemma Associates<T>(a: seq<T>, b: seq<T>, c: seq<T>)
    ensures a + b + c == a + (b + c)
  {
  }

  /** After noise that leaves no escape open, what the noise had begun is flushed as one junk
      packet at most, and then every packet arrives. */
  lemma AfterNoise(max: nat, noise: seq<Byte>, packets: seq<seq<Byte>>)
    requires packets != [] && !Hear(max, START, noise).line.escaped
    ensures var heard := Hear(max, START, noise);
            Hear(max, START, noise + EncodeAll(packets)) ==
            Heard(heard.packets + Flush(heard.line.packet) + Received(max, packets), START)
  {
    hide Hear, EncodeAll, Received, Flush;
    var heard := Hear(max, START, noise);
    HearFits(max, START, noise);
    HearPending(max, heard.line.packet, packets);
    HearAppend(max, START, noise, EncodeAll(packets));
    Associates(heard.packets, Flush(heard.line.packet), Received(max, packets));
  }

  /** Noise without END bytes completes no packet by itself. */
  lemma {:induction false} QuietNoise(max: nat, line: Line, noise: seq<Byte>)
    requires SLIP_END !in noise
    ensures Hear(max, line, noise).packets == []
    decreases |noise|
  {
    if noise != [] {
      QuietNoise(max, HearByte(max, line, noise[0]).line, noise[1..]);
    }
  }

  /** An open escape costs the first packet: its leading END is taken for data, and the packet is
      glued to the noise; the packets after it arrive. */
  lemma AfterOpenEscape(max: nat, noise: seq<Byte>, packets: seq<seq<Byte>>)
    requires packets != [] && Hear(max, START, noise).line.escaped
    ensures var heard := Hear(max, START, noise);
            Hear(max, START, noise + EncodeAll(packets)) ==
            Heard(heard.packets + Flush(Fit(heard.line.packet + [SLIP_END] + packets[0], max))
                  + Received(max, packets[1..]), START)
  {
    hide Fit;
    var heard := Hear(max, START, noise);
    HearFits(max, START, noise);
    HearAppend(max, START, noise, EncodeAll(packets));
    HearFrames(max, packets[1..]);
    HearAppend(max, heard.line, Encode(packets[0]), EncodeAll(packets[1..]));
    HearGlued(max, heard.line.packet, packets[0]);
  }

  lemma HearGlued(max: nat, pending: seq<Byte>, packet: seq<Byte>)
    requires |pending| <= max
    ensures Hear(max, Line(pending, true), Encode(packet)) ==
            Heard(Flush(Fit(pending + [SLIP_END] + packet, max)), START)
  {
    hide EscapeAll;
    var line := Line(pending, true);
    var glued := Fit(pending + [SLIP_END], max);
    HearAppend(max, line, [SLIP_END] + EscapeAll(packet), [SLIP_END]);
    HearAppend(max, line, [SLIP_END], EscapeAll(packet));
    HearOne(max, line, SLIP_END);
    HearData(max, glued, packet);
    assert Fit(glued + packet, max) == Fit(pending + [SLIP_END] + packet, max);
    HearOne(max, Line(Fit(glued + packet, max), false), SLIP_END);
  }

  // ----- Buffer chains -----

  /** A pbuf chain: the payload areas, one after the other. */
  type Chain = seq<array<Byte>>

  function Payloads(chain: Chain): (data: seq<seq<Byte>>)
    reads chain
    ensures |data| == |chain| && forall k :: 0 <= k < |chain| ==> data[k] == chain[k][..]
  {
    if chain == [] then [] else [chain[0][..]] + Payloads(chain[1..])
  }

  predicate Distinct(chain: Chain) {
    forall i, j :: 0 <= i < j < |chain| ==> chain[i] != chain[j]
  }

  /** A byte written into one buffer of a chain. */
  lemma FlatWrite(data: seq<seq<Byte>>, q: nat, i: nat, c: Byte)
    requires q < |data| && i < |data[q]|
    ensures |Flat(data[..q])| + |data[q]| <= |Flat(data)|
    ensures Flat(data[q := data[q][i := c]]) == Flat(data)[|Flat(data[..q])| + i := c]
  {
    hide Flat;
    var after := data[q := data[q][i := c]];
    FlatAt(data, q);
    FlatAt(after, q);
    assert after[..q] == data[..q] && after[q + 1..] == data[q + 1..];
  }

  /** Byte `i` of buffer `q` comes right after `packet`, which fills the chain up to there. */
  ghost predicate Place(data: seq<seq<Byte>>, q: nat, i: nat, packet: seq<Byte>) {
    q <= |data| && |packet| == |Flat(data[..q])| + (if q < |data| then i else 0) && packet <= Flat(data)
  }

  lemma PlaceNext(data: seq<seq<Byte>>, q: nat, i: nat, packet: seq<Byte>, b: Byte)
    requires q < |data| && i < |data[q]| && Place(data, q, i, packet)
    ensures var after := data[q := data[q][i := b]];
            && |Flat(after)| == |Flat(data)|
            && (i + 1 < |data[q]| ==> Place(after, q, i + 1, packet + [b]))
            && (i + 1 == |data[q]| ==> Place(after, q + 1, 0, packet + [b]))
  {
    hide Flat;
    var after := data[q := data[q][i := b]];
    FlatWrite(data, q, i, b);
    FlatAt(after, q);
    assert after[..q] == data[..q];
    assert Flat(data)[..|packet|] == packet;
    assert Flat(after)[..|packet| + 1] == packet + [b];
  }

  lemma PlaceFirst(data: seq<seq<Byte>>)
    ensures Place(data, 0, 0, [])
  {
  }

  lemma PlaceMeans(data: seq<seq<Byte>>, q: nat, i: nat, packet: seq<Byte>)
    requires Place(data, q, i, packet)
    ensures |packet| <= |Flat(data)| && Flat(data)[..|packet|] == packet
    ensures q == |data| ==> |packet| == |Flat(data)|
  {
    assert q == |data| ==> data[..q] == data;
  }

  lemma FitOne(packet: seq<Byte>, b: Byte, max: nat)
    requires |packet| <= max
    ensures Fit(packet + [b], max) == if |packet| < max then packet + [b] else packet
  {
  }

  /** Ways to cut `max` bytes into buffers. */
  predicate Cuts(sizes: seq<nat>, max: nat) {
    (forall k :: 0 <= k < |sizes| ==> sizes[k] > 0) && Sum(sizes) == max
  }

  function Sum(sizes: seq<nat>): nat {
    if sizes == [] then 0 else sizes[0] + Sum(sizes[1..])
  }

  lemma OneCut(max: nat)
    ensures exists sizes: seq<nat> :: Cuts(sizes, max)
  {
    assert Sum([]) == 0;
    assert [max][1..] == [];
    assert Cuts(if max == 0 then [] else [max], max);
  }

  lemma {:induction false} FlatLength(data: seq<seq<Byte>>, sizes: seq<nat>)
    requires |data| == |sizes| && forall k :: 0 <= k < |sizes| ==> |data[k]| == sizes[k]
    ensures |Flat(data)| == Sum(sizes)
  {
    if data != [] {
      FlatLength(data[1..], sizes[1..]);
    }
  }

  /** pbuf_alloc from the pool: a chain of new buffers. */
  method Alloc(sizes: seq<nat>, ghost max: nat) returns (p: Chain)
    requires Cuts(sizes, max)
    ensures Distinct(p) && |Flat(Payloads(p))| == max
    ensures forall k :: 0 <= k < |p| ==> p[k].Length > 0 && fresh(p[k])
  {
    hide Flat;
    p := [];
    while |p| < |sizes|
      invariant Distinct(p) && |p| <= |sizes|
      invariant forall k :: 0 <= k < |p| ==> p[k].Length == sizes[k] && fresh(p[k])
    {
      var buffer := new Byte[sizes[|p|]];
      p := p + [buffer];
    }
    FlatLength(Payloads(p), sizes);
  }

  // ----- The driver -----

  /** What has been read from the line: nothing, a packet's end, or a byte. */
  datatype Kind = Waits | Ends | Data

  /** `tot_len` of a chain. */
  function TotLen(p: Chain): nat {
    if p == [] then 0 else p[0].Length + TotLen(p[1..])
  }

  lemma {:induction false} TotLenIs(p: Chain)
    ensures TotLen(p) == |Flat(Payloads(p))|
  {
    if p != [] {
      TotLenIs(p[1..]);
      assert Payloads(p)[1..] == Payloads(p[1..]);
    }
  }

  /** The serial device: bytes that will come in, how many have been read, and bytes sent. */
  class Serial {
    const input: seq<Byte>
    var pos: nat
    var output: seq<Byte>

    constructor (input: seq<Byte>)
      ensures this.input == input && pos == 0 && output == []
    {
      this.input, pos, output := input, 0, [];
    }

    method Send(c: Byte)
      modifies this`output
      ensures output == old(output) + [c]
    {
      output := output + [c];
    }

    /** sio_recv; `None` stands for waiting for ever. */
    method Recv() returns (c: Option<Byte>)
      requires pos <= |input|
      modifies this`pos
      ensures pos <= |input|
      ensures old(pos) == |input| ==> c == None && pos == old(pos)
      ensures old(pos) < |input| ==> c == Some(input[old(pos)]) && pos == old(pos) + 1
    {
      if pos < |input| {
        c := Some(input[pos]);
        pos := pos + 1;
      } else {
        c := None;
      }
    }

    /** sioslipif_output. */
    method Output(p: Chain)
      modifies this`output
      ensures output == old(output) + Encode(Flat(Payloads(p)))
    {
      hide Escape, Flat;
      Send(SLIP_END);
      var q := 0;
      ghost var data, done := Payloads(p), [];
      assert Flat(data[..0]) == [] && old(output) + [SLIP_END] + EscapeAll([]) == output by { FlatNone(data); }
      while q < |p|
        invariant q <= |p| && done == Flat(data[..q]) && data == Payloads(p)
        invariant Sent(old(output) + [SLIP_END], done)
      {
        OutputBuffer(p[q], old(output) + [SLIP_END], done);
        FlatAt(data, q);
        done := done + data[q];
        q := q + 1;
      }
      assert data[..q] == data;
      Send(SLIP_END);
    }

    ghost predicate Sent(before: seq<Byte>, done: seq<Byte>)
      reads this
    {
      output == before + EscapeAll(done)
    }

    /** The inner loop: one buffer's bytes, escaped. */
    method OutputBuffer(payload: array<Byte>, ghost before: seq<Byte>, ghost done: seq<Byte>)
      requires Sent(before, done)
      modifies this`output
      ensures Sent(before, done + payload[..])
    {
      hide Sent;
      var i := 0;
      assert done + payload[..0] == done;
      while i < payload.Length
        invariant i <= payload.Length
        invariant Sent(before, done + payload[..i])
      {
        OutputByte(payload[i], before, done + payload[..i]);
        assert done + payload[..i + 1] == done + payload[..i] + [payload[i]];
        i := i + 1;
      }
      assert payload[..i] == payload[..];
    }

    method OutputByte(c: Byte, ghost before: seq<Byte>, ghost done: seq<Byte>)
      requires Sent(before, done)
      modifies this`output
      ensures Sent(before, done + [c])
    {
      hide EscapeAll;
      EscapeAllAppend(done, [c]);
      EscapeOne(c);
      if c == SLIP_END {
        Send(SLIP_ESC);
        Send(SLIP_ESC_END);
      } else if c == SLIP_ESC {
        Send(SLIP_ESC);
        Send(SLIP_ESC_ESC);
      } else {
        Send(c);
      }
    }

    /** The line after the bytes from `start` up to `at`, no packet having been completed. */
    ghost predicate HeardLine(max: nat, start: nat, at: nat, line: Line) {
      start <= at <= |input| && Hear(max, START, input[start..at]) == Heard([], line)
    }

    lemma HearMore(max: nat, start: nat, at: nat, line: Line)
      requires HeardLine(max, start, at, line) && at < |input|
      ensures Hear(max, START, input[start..at + 1]) == HearByte(max, line, input[at])
      ensures HearByte(max, line, input[at]).packets == [] ==>
              HeardLine(max, start, at + 1, HearByte(max, line, input[at]).line)
    {
      hide HearByte;
      assert input[start..at + 1] == input[start..at] + [input[at]];
      HearAppend(max, START, input[start..at], [input[at]]);
      HearOne(max, line, input[at]);
    }

    /** `q` and `i` are where the next byte goes, and the first `recved` bytes are the packet. */
    ghost predicate Collecting(p: Chain, q: nat, i: nat, packet: seq<Byte>)
      reads p
    {
      && q <= |p|
      && (q < |p| ==> i < p[q].Length)
      && Place(Payloads(p), q, i, packet)
    }

    method Put(p: Chain, q: nat, i: nat, b: Byte)
      requires Distinct(p) && q < |p| && i < p[q].Length
      modifies p[q]
      ensures Payloads(p) == old(Payloads(p)[q := Payloads(p)[q][i := b]])
    {
      ghost var data := Payloads(p);
      p[q][i] := b;
      assert p[q][..] == data[q][i := b];
      forall k | 0 <= k < |p| ensures Payloads(p)[k] == data[q := data[q][i := b]][k] {
        assert k != q ==> p[k] != p[q];
      }
    }

    method Store(p: Chain, q: nat, i: nat, b: Byte, ghost packet: seq<Byte>)
      returns (q': nat, i': nat)
      requires Distinct(p) && q < |p| && Collecting(p, q, i, packet)
      requires forall k :: 0 <= k < |p| ==> p[k].Length > 0
      modifies p
      ensures Collecting(p, q', i', packet + [b])
      ensures |Flat(Payloads(p))| == old(|Flat(Payloads(p))|)
    {
      hide Flat, Place;
      PlaceNext(Payloads(p), q, i, packet, b);
      Put(p, q, i, b);
      q', i' := q, i + 1;
      if i' >= p[q].Length {
        i' := 0;
        q' := q + 1;
      }
    }

    /** sioslipif_input with a chain of empty buffers: the packet is the first `recved` bytes of
        the chain. Without a whole packet in the rest of the input it waits for ever. */
    method Input(p: Chain) returns (recved: nat, ok: bool)
      requires pos <= |input| && Distinct(p) && forall k :: 0 <= k < |p| ==> p[k].Length > 0
      modifies this`pos, p
      ensures old(pos) <= pos <= |input| && |Flat(Payloads(p))| == old(|Flat(Payloads(p))|)
      ensures recved <= |Flat(Payloads(p))|
      ensures ok ==> pos > old(pos) && recved > 0
      ensures ok ==>
                Hear(|Flat(Payloads(p))|, START, input[old(pos)..pos]) == Heard([Flat(Payloads(p))[..recved]], START)
      ensures !ok ==> pos == |input| && Hear(|Flat(Payloads(p))|, START, input[old(pos)..]).packets == []
    {
      hide Hear, HearByte, Flat, Fit, Payloads, HeardLine, Collecting;
      ghost var start, max, packet := pos, |Flat(Payloads(p))|, [];
      var totLen := TotLen(p);
      TotLenIs(p);
      var q: nat, i: nat := 0, 0;
      recved := 0;
      CollectingStarts(p);
      HearNothing(max, start);
      while true
        invariant totLen == max == |Flat(Payloads(p))| && |packet| == recved <= max
        invariant Collecting(p, q, i, packet) && HeardLine(max, start, pos, Line(packet, false))
        decreases |input| - pos
      {
        var b, kind := Next(max, start, packet);
        if kind == Waits {
          return recved, false;
        } else if kind == Ends {
          if recved > 0 {
            Collected(p, q, i, packet);
            return recved, true;
          }
        } else {
          FitOne(packet, b, max);
          Collected(p, q, i, packet);
          if recved < totLen && q < |p| {
            q, i := Store(p, q, i, b, packet);
            recved := recved + 1;
            packet := packet + [b];
          }
        }
      }
    }

    lemma CollectingStarts(p: Chain)
      requires forall k :: 0 <= k < |p| ==> p[k].Length > 0
      ensures Collecting(p, 0, 0, [])
    {
      PlaceFirst(Payloads(p));
    }

    lemma Collected(p: Chain, q: nat, i: nat, packet: seq<Byte>)
      requires Collecting(p, q, i, packet)
      ensures q <= |p| && |packet| <= |Flat(Payloads(p))| && Flat(Payloads(p))[..|packet|] == packet
      ensures q == |p| ==> |packet| == |Flat(Payloads(p))|
    {
      hide Place, Flat;
      PlaceMeans(Payloads(p), q, i, packet);
    }

    /** Read one byte, or an escape and what follows it. */
    method Next(ghost max: nat, ghost start: nat, ghost packet: seq<Byte>) returns (b: Byte, kind: Kind)
      requires HeardLine(max, start, pos, Line(packet, false)) && |packet| <= max
      modifies this`pos
      ensures old(pos) <= pos <= |input|
      ensures kind == Waits ==> pos == |input| && Hear(max, START, input[start..]).packets == []
      ensures kind != Waits ==> pos > old(pos)
      ensures kind == Ends && packet == [] ==> HeardLine(max, start, pos, START)
      ensures kind == Ends && packet != [] ==> Hear(max, START, input[start..pos]) == Heard([packet], START)
      ensures kind == Data ==> HeardLine(max, start, pos, Line(Fit(packet + [b], max), false))
    {
      hide Hear;
      b, kind := 0, Waits;
      ghost var at := pos;
      var c := Recv();
      assert at == |input| ==> input[start..at] == input[start..];
      if c == None {
        return;
      }
      b := c.value;
      HearMore(max, start, at, Line(packet, false));
      if b == SLIP_END {
        kind := Ends;
      } else if b == SLIP_ESC {
        c := Recv();
        assert at + 1 == |input| ==> input[start..at + 1] == input[start..];
        if c == None {
          return;
        }
        b := c.value;
        HearMore(max, start, at + 1, Line(packet, true));
        if b == SLIP_ESC_END {
          b := SLIP_END;
        } else if b == SLIP_ESC_ESC {
          b := SLIP_ESC;
        }
        kind := Data;
      } else {
        kind := Data;
      }
    }

    lemma HearNothing(max: nat, start: nat)
      requires start <= |input|
      ensures HeardLine(max, start, start, START)
    {
    }

    lemma HearOn(max: nat, start: nat, at: nat, end: nat, received: seq<seq<Byte>>)
      requires start <= at <= end <= |input| && Hear(max, START, input[start..at]) == Heard(received, START)
      ensures Hear(max, START, input[start..end]).packets == received + Hear(max, START, input[at..end]).packets
      ensures Hear(max, START, input[start..end]).line == Hear(max, START, input[at..end]).line
    {
      hide Hear;
      assert input[start..end] == input[start..at] + input[at..end];
      HearAppend(max, START, input[start..at], input[at..end]);
    }

    /** The receiving loop: a new chain of `max` bytes in all for each call, cut into buffers in
        any way, and packet after packet handed on. It takes from the input what `Hear` says. */
    method ReceiveAll(max: nat) returns (received: seq<seq<Byte>>)
      requires pos <= |input|
      modifies this`pos
      ensures pos == |input| && received == Hear(max, START, input[old(pos)..]).packets
    {
      hide Hear, Flat, Cuts;
      received := [];
      ghost var start := pos;
      var more := true;
      HearNothing(max, start);
      while more
        invariant start <= pos <= |input|
        invariant more ==> Hear(max, START, input[start..pos]) == Heard(received, START)
        invariant !more ==> pos == |input| && received == Hear(max, START, input[start..]).packets
        decreases more, |input| - pos
      {
        var packet;
        ghost var at := pos;
        packet, more := ReceiveOne(max);
        HearOn(max, start, at, pos, received);
        if more {
          received := received + [packet];
        } else {
          assert input[start..pos] == input[start..] && input[at..pos] == input[at..];
        }
      }
    }

    /** One round of it: a chain of its own, and the packet in it. */
    method ReceiveOne(max: nat) returns (packet: seq<Byte>, ok: bool)
      requires pos <= |input|
      modifies this`pos
      ensures old(pos) <= pos <= |input|
      ensures ok ==> pos > old(pos) && Hear(max, START, input[old(pos)..pos]) == Heard([packet], START)
      ensures !ok ==> pos == |input| && Hear(max, START, input[old(pos)..]).packets == []
    {
      hide Hear, Flat, Cuts, Payloads;
      OneCut(max);
      var sizes :| Cuts(sizes, max);
      var p := Alloc(sizes, max);
      var recved;
      recved, ok := Input(p);
      packet := Flat(Payloads(p))[..recved];
    }
  }

  method OutputAll(sender: Serial, chains: seq<Chain>, ghost packets: seq<seq<Byte>>)
    requires |chains| == |packets| && forall k :: 0 <= k < |chains| ==> Flat(Payloads(chains[k])) == packets[k]
    modifies sender`output
    ensures sender.output == old(sender.output) + EncodeAll(packets)
  {
    hide Flat, Encode;
    var k := 0;
    assert packets[..0] == [];
    while k < |chains|
      invariant k <= |chains|
      invariant forall j :: 0 <= j < |chains| ==> Flat(Payloads(chains[j])) == packets[j]
      invariant sender.output == old(sender.output) + EncodeAll(packets[..k])
    {
      sender.Output(chains[k]);
      EncodeNext(packets, k);
      k := k + 1;
    }
    assert packets[..k] == packets;
  }

  lemma {:induction false} EncodeNext(packets: seq<seq<Byte>>, k: nat)
    requires k < |packets|
    ensures EncodeAll(packets[..k + 1]) == EncodeAll(packets[..k]) + Encode(packets[k])
  {
    hide Encode;
    if k == 0 {
      assert packets[..1] == [packets[0]] && packets[..1][1..] == [];
    } else {
      EncodeNext(packets[1..], k - 1);
      assert packets[..k + 1][1..] == packets[1..][..k] && packets[..k][1..] == packets[1..][..k - 1];
    }
  }

  /** Packets sent over a line that carries noise first: whatever chains hold them on either side,
      they all arrive, in order and unchanged, after what the noise amounts to. */
  method Link(noise: seq<Byte>, chains: seq<Chain>, ghost packets: seq<seq<Byte>>, max: nat)
    returns (got: seq<seq<Byte>>)
    requires |chains| == |packets| && forall k :: 0 <= k < |chains| ==> Flat(Payloads(chains[k])) == packets[k]
    requires packets != [] && forall p :: p in packets ==> 1 <= |p| <= max
    requires !Hear(max, START, noise).line.escaped
    ensures got == Hear(max, START, noise).packets + Flush(Hear(max, START, noise).line.packet) + packets
  {
    hide Hear, EncodeAll, Flush, Received;
    var sender := new Serial([]);
    OutputAll(sender, chains, packets);
    assert [] + EncodeAll(packets) == EncodeAll(packets);
    var receiver := new Serial(noise + sender.output);
    got := receiver.ReceiveAll(max);
    assert receiver.input[0..] == receiver.input;
    AfterNoise(max, noise, packets);
    ReceivedUnchanged(max, packets);
  }
}

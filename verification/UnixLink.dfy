/** The Unix link driver: a queue of packets waiting for their turn on the wire, and a timer that
    sends one and rearms itself while there are more. */
module UnixLink {
  import opened Chains
  import opened LinkList

  const UNIXIF_QUEUELEN := 6

  /** A buffer: a view of `len` bytes of its memory, and the buffers chained behind it. The memory
      stays as it is while the buffer is queued; the view and the reference count do not. */
  class Pbuf {
    const mem: seq<Byte>
    const rest: seq<seq<Byte>>
    var payload: nat
    var len: nat
    var totLen: nat
    var refs: nat
    // the references held by anyone but the queue
    var others: nat

    constructor (mem: seq<Byte>, rest: seq<seq<Byte>>)
      ensures this.mem == mem && this.rest == rest && payload == 0 && len == |mem|
      ensures totLen == len + |Flat(rest)| && refs == others == 1
    {
      this.mem, this.rest, payload, len := mem, rest, 0, |mem|;
      totLen, refs, others := |mem| + |Flat(rest)|, 1, 1;
    }
  }

  /** A queued packet: the buffer and the view it had when it was queued. */
  datatype Buf = Buf(p: Pbuf, len: nat, totLen: nat, payload: nat)

  /** What goes over the socket for one packet. */
  datatype Frame = Frame(len: int, data: seq<Byte>)

  predicate Fits(buf: Buf) {
    buf.payload + buf.len <= |buf.p.mem| && buf.totLen == buf.len + |Flat(buf.p.rest)|
  }

  /** The packet as it was when it was queued. */
  function Packet(buf: Buf): Frame
    requires Fits(buf)
  {
    Frame(buf.totLen, buf.p.mem[buf.payload..buf.payload + buf.len] + Flat(buf.p.rest))
  }

  /** The frame is the view, then the rest of the chain, and its length word counts them. */
  lemma PacketIs(buf: Buf)
    requires Fits(buf)
    ensures var f := Packet(buf);
            && f.len == |f.data| == buf.len + |Flat(buf.p.rest)|
            && (forall k :: 0 <= k < buf.len ==> f.data[k] == buf.p.mem[buf.payload + k])
            && f.data[buf.len..] == Flat(buf.p.rest)
  {
    hide Flat;
    var view := buf.p.mem[buf.payload..buf.payload + buf.len];
    forall k | 0 <= k < buf.len ensures Packet(buf).data[k] == buf.p.mem[buf.payload + k] {
      assert Packet(buf).data[k] == view[k];
    }
  }

  predicate AllFit(bufs: seq<Buf>) {
    bufs == [] || (Fits(bufs[0]) && AllFit(bufs[1..]))
  }

  function Packets(bufs: seq<Buf>): (frames: seq<Frame>)
    requires AllFit(bufs)
    ensures |frames| == |bufs|
  {
    if bufs == [] then [] else [Packet(bufs[0])] + Packets(bufs[1..])
  }

  /** How many references the queue holds on a buffer. */
  function Held(bufs: seq<Buf>, p: Pbuf): nat {
    if bufs == [] then 0 else (if bufs[0].p == p then 1 else 0) + Held(bufs[1..], p)
  }

  lemma {:induction false} Appended(bufs: seq<Buf>, buf: Buf)
    requires AllFit(bufs) && Fits(buf)
    ensures AllFit(bufs + [buf]) && Packets(bufs + [buf]) == Packets(bufs) + [Packet(buf)]
  {
    if bufs == [] {
      assert bufs + [buf] == [buf] && [buf][1..] == [];
    } else {
      Appended(bufs[1..], buf);
      assert (bufs + [buf])[1..] == bufs[1..] + [buf];
    }
  }

  lemma OneMore(bufs: seq<Buf>, buf: Buf, pbufs: set<Pbuf>)
    ensures forall p :: p in pbufs ==> Held(bufs + [buf], p) == Held(bufs, p) + if p == buf.p then 1 else 0
  {
    if bufs == [] {
      assert bufs + [buf] == [buf] && [buf][1..] == [];
    } else {
      OneMore(bufs[1..], buf, pbufs);
      assert (bufs + [buf])[1..] == bufs[1..] + [buf];
    }
  }

  lemma Taken(bufs: seq<Buf>)
    requires AllFit(bufs) && bufs != []
    ensures Fits(bufs[0]) && AllFit(bufs[1..]) && Packets(bufs) == [Packet(bufs[0])] + Packets(bufs[1..])
  {
  }

  lemma TakenHeld(bufs: seq<Buf>, pbufs: set<Pbuf>)
    requires bufs != []
    ensures forall p :: p in pbufs ==> Held(bufs, p) == Held(bufs[1..], p) + if p == bufs[0].p then 1 else 0
  {
  }

  datatype Event =
    | Output(p: Pbuf)
    | Timeout(failed: bool)
    | View(p: Pbuf, payload: nat, len: nat, totLen: nat)
    | Ref(p: Pbuf)
    | Free(p: Pbuf)

  class UnixIf {
    const q: List<Buf>
    var wire: seq<Frame>
    // how many calls of unixif_output_timeout are pending
    var timeouts: nat
    ghost var accepted: seq<Frame>
    ghost const pbufs: set<Pbuf>

    constructor (ghost pbufs: set<Pbuf>)
      requires forall p :: p in pbufs ==> p.refs == p.others
      ensures Valid() && wire == accepted == [] && this.pbufs == pbufs && fresh(q)
      ensures q.Contents() == []
    {
      q := new List(UNIXIF_QUEUELEN);
      wire, timeouts, accepted := [], 0, [];
      this.pbufs := pbufs;
    }

    ghost predicate Valid()
      reads this, q, q.nodes, pbufs
    {
      && q.Valid() && q.size == UNIXIF_QUEUELEN
      && timeouts == (if q.Contents() == [] then 0 else 1)
      && Kept(q.Contents())
      && Counted(pbufs, q.Contents())
    }

    /** What holds with the packets `bufs` still queued. */
    ghost predicate Kept(bufs: seq<Buf>)
      reads this`accepted, this`wire
    {
      && AllFit(bufs)
      && accepted == wire + Packets(bufs)
      && (forall b :: b in bufs ==> b.p in pbufs)
    }

    static ghost predicate Counted(pbufs: set<Pbuf>, bufs: seq<Buf>)
      reads pbufs`refs, pbufs`others
    {
      forall p :: p in pbufs ==> p.refs == p.others + Held(bufs, p)
    }

    /** pbuf_ref, for a packet about to be queued. */
    method PbufRef(p: Pbuf, ghost bufs: seq<Buf>, ghost more: seq<Buf>)
      requires Counted(pbufs, bufs)
      requires forall x :: x in pbufs ==> Held(more, x) == Held(bufs, x) + if x == p then 1 else 0
      modifies p`refs
      ensures Counted(pbufs, more) && p.refs == old(p.refs) + 1
    {
      p.refs := p.refs + 1;
    }

    /** pbuf_free, for a packet no longer queued. */
    method PbufFree(p: Pbuf, ghost bufs: seq<Buf>, ghost fewer: seq<Buf>)
      requires Counted(pbufs, bufs) && p in pbufs
      requires forall x :: x in pbufs ==> Held(bufs, x) == Held(fewer, x) + if x == p then 1 else 0
      modifies p`refs
      ensures Counted(pbufs, fewer) && p.refs == old(p.refs) - 1
    {
      p.refs := p.refs - 1;
    }

    /** The reference taken and the packet offered to the list. */
    method Enqueue(p: Pbuf, buf: Buf, ghost bufs: seq<Buf>) returns (ok: bool)
      requires q.Valid() && q.size == UNIXIF_QUEUELEN && q.Contents() == bufs && Kept(bufs) && Counted(pbufs, bufs)
      requires p in pbufs && buf.p == p && Fits(buf)
      modifies this`accepted, q, q.nodes, p`refs
      ensures q.Valid() && forall k :: 0 <= k < |q.nodes| ==> q.nodes[k] in old(q.nodes) || fresh(q.nodes[k])
      ensures ok == (|bufs| < UNIXIF_QUEUELEN)
      ensures q.Contents() == (if ok then bufs + [buf] else bufs) && Kept(q.Contents())
      ensures Counted(pbufs, bufs + [buf]) && p.refs == old(p.refs) + 1
      ensures accepted == old(accepted) + if ok then [Packet(buf)] else []
    {
      hide Counted, Data, Fits, Packet, Held, AllFit, Packets, List.Valid, List.Contents;
      Appended(bufs, buf);
      OneMore(bufs, buf, pbufs);
      PbufRef(p, bufs, bufs + [buf]);
      ok := q.Push(buf);
      if ok {
        accepted := accepted + [Packet(buf)];
      }
    }

    /** unixif_output: the packet is queued behind the others, or dropped if there are already six. */
    method Output(p: Pbuf)
      requires Valid() && p in pbufs && p.others > 0 && Fits(Buf(p, p.len, p.totLen, p.payload))
      modifies this`timeouts, this`accepted, q, q.nodes, p`refs
      ensures Valid() && forall k :: 0 <= k < |q.nodes| ==> q.nodes[k] in old(q.nodes) || fresh(q.nodes[k])
      ensures var buf := Buf(p, p.len, p.totLen, p.payload);
              if |old(q.Contents())| < UNIXIF_QUEUELEN
              then q.Contents() == old(q.Contents()) + [buf] && accepted == old(accepted) + [Packet(buf)]
                   && p.refs == old(p.refs) + 1
              else q.Contents() == old(q.Contents()) && accepted == old(accepted) && p.refs == old(p.refs)
    {
      hide Counted, Data, Fits, Packet, Held, AllFit, Packets, List.Valid, List.Contents, Kept;
      var buf := Buf(p, p.len, p.totLen, p.payload);
      ghost var bufs := q.Contents();
      OneMore(bufs, buf, pbufs);
      var elems := q.Elems();
      if elems == 0 {
        var ok := Enqueue(p, buf, bufs);
        timeouts := timeouts + 1;
      } else {
        var ok := Enqueue(p, buf, bufs);
        if !ok {
          PbufFree(p, bufs + [buf], bufs);
        }
      }
    }

    /** The packet copied into one block of memory. */
    static method Copy(p: Pbuf) returns (data: seq<Byte>)
      requires Fits(Buf(p, p.len, p.totLen, p.payload))
      ensures data == Packet(Buf(p, p.len, p.totLen, p.payload)).data
    {
      hide Flat;
      var segments := [p.mem[p.payload..p.payload + p.len]] + p.rest;
      FlatCons(segments[0], p.rest);
      var block := new Byte[p.totLen];
      var i: nat, q: nat := 0, 0;
      FlatNone(segments);
      while q < |segments|
        invariant q <= |segments| && i <= block.Length && block.Length == |Flat(segments)|
        invariant block[..i] == Flat(segments[..q])
      {
        FlatAt(segments, q);
        i := CopySegment(segments[q], block, i);
        q := q + 1;
      }
      assert segments[..q] == segments;
      data := block[..];
      assert block[..i] == block[..];
    }

    static method CopySegment(segment: seq<Byte>, block: array<Byte>, at: nat) returns (i: nat)
      requires at + |segment| <= block.Length
      modifies block
      ensures i == at + |segment| && block[..i] == old(block[..at]) + segment
    {
      i := at;
      var j: nat := 0;
      while j < |segment|
        invariant j <= |segment| && i == at + j
        invariant block[..i] == old(block[..at]) + segment[..j]
      {
        block[i] := segment[j];
        i := i + 1;
        j := j + 1;
      }
    }

    /** The packet goes out as it was when it was queued, and the buffer gets its own view back. */
    method Transmit(buf: Buf, failed: bool) returns (aborted: bool)
      requires Fits(buf)
      modifies this`wire, buf.p`len, buf.p`totLen, buf.p`payload
      ensures aborted <==> buf.totLen == 0 || failed
      ensures !aborted ==> wire == old(wire) + [Packet(buf)]
      ensures !aborted ==>
              buf.p.len == old(buf.p.len) && buf.p.totLen == old(buf.p.totLen) && buf.p.payload == old(buf.p.payload)
    {
      hide Flat;
      var p := buf.p;
      var plen, ptotLen, payload := p.len, p.totLen, p.payload;
      p.len, p.totLen, p.payload := buf.len, buf.totLen, buf.payload;
      if p.totLen == 0 {
        return true;
      }
      var data := Copy(p);
      if failed {
        return true;
      }
      wire := wire + [Frame(p.totLen, data)];
      p.len, p.totLen, p.payload := plen, ptotLen, payload;
      aborted := false;
    }

    /** unixif_output_timeout: the first packet goes out and its reference is given back. The
        driver gives up on an empty packet or when writing to the socket has `failed`. */
    method Timeout(failed: bool) returns (aborted: bool)
      requires Valid() && timeouts > 0
      modifies this`timeouts, this`wire, q, pbufs
      ensures old(q.Contents()) != [] && Fits(old(q.Contents())[0])
      ensures aborted <==> old(q.Contents())[0].totLen == 0 || failed
      ensures q.Contents() == old(q.Contents())[1..] && forall k :: 0 <= k < |q.nodes| ==> q.nodes[k] in old(q.nodes)
      ensures !aborted ==> Valid() && wire == old(wire) + [Packet(old(q.Contents())[0])]
      ensures !aborted ==> forall p :: p in pbufs ==>
                && p.len == old(p.len) && p.totLen == old(p.totLen)
                && p.payload == old(p.payload) && p.others == old(p.others)
      ensures !aborted ==> forall p :: p in pbufs ==>
                p.refs == old(p.refs) - if p == old(q.Contents())[0].p then 1 else 0
    {
      hide Counted, Data, Fits, Packet, Held, List.Valid, List.Contents;
      timeouts := timeouts - 1;
      ghost var bufs := q.Contents();
      Taken(bufs);
      var first := q.Pop();
      var buf := first.value;
      aborted := Transmit(buf, failed);
      if aborted {
        return;
      }
      Done(buf.p, bufs);
    }

    /** The reference given back, and the timer set again if there is more to send. */
    method Done(p: Pbuf, ghost bufs: seq<Buf>)
      requires q.Valid() && q.size == UNIXIF_QUEUELEN && bufs != [] && q.Contents() == bufs[1..]
      requires Kept(bufs[1..]) && Counted(pbufs, bufs) && p == bufs[0].p && p in pbufs && timeouts == 0
      modifies this`timeouts, p`refs
      ensures Valid() && p.refs == old(p.refs) - 1
    {
      hide Counted, Data, Held, List.Valid, List.Contents, Kept;
      TakenHeld(bufs, pbufs);
      PbufFree(p, bufs, bufs[1..]);
      var elems := q.Elems();
      if elems > 0 {
        timeouts := timeouts + 1;
      }
    }

    /** One call from outside, if it can happen now: a packet given to the driver, the timer, or
        somebody else moving a buffer's view or holding or giving back a reference. */
    method Step(e: Event) returns (aborted: bool)
      requires Valid() && (e.Timeout? || e.p in pbufs)
      modifies this`timeouts, this`accepted, this`wire, q, q.nodes, pbufs
      ensures aborted <==> e.Timeout? && old(timeouts) > 0 && (e.failed || old(q.Contents())[0].totLen == 0)
      ensures !aborted ==> Valid() && old(wire) <= wire && old(accepted) <= accepted
      ensures forall k :: 0 <= k < |q.nodes| ==> q.nodes[k] in old(q.nodes) || fresh(q.nodes[k])
      ensures e.Timeout? && old(timeouts) > 0 && !aborted ==>
                old(q.Contents()) != [] && q.Contents() == old(q.Contents())[1..]
      ensures e.Output? && old(e.p.others) > 0 && old(Fits(Buf(e.p, e.p.len, e.p.totLen, e.p.payload)))
              && |old(q.Contents())| < UNIXIF_QUEUELEN ==>
                q.Contents() == old(q.Contents()) + [old(Buf(e.p, e.p.len, e.p.totLen, e.p.payload))]
    {
      hide Counted, Data, Packet, Held, AllFit, Packets, List.Valid, List.Contents, Kept;
      aborted := false;
      match e
      case Output(p) =>
        if p.others > 0 && Fits(Buf(p, p.len, p.totLen, p.payload)) {
          Output(p);
        }
      case Timeout(failed) =>
        if timeouts > 0 {
          aborted := Timeout(failed);
        }
      case View(p, payload, len, totLen) =>
        p.payload, p.len, p.totLen := payload, len, totLen;
      case Ref(p) =>
        Others(p, 1, q.Contents());
      case Free(p) =>
        if p.others > 0 {
          Others(p, -1, q.Contents());
        }
    }

    method Others(p: Pbuf, change: int, ghost bufs: seq<Buf>)
      requires p in pbufs && p.others + change >= 0 && Counted(pbufs, bufs)
      modifies p`others, p`refs
      ensures Counted(pbufs, bufs)
    {
      hide Held;
      p.others := p.others + change;
      p.refs := p.refs + change;
    }

    /** Any run from an empty queue: unless the driver has given up, exactly one timer is pending
        if packets are queued and none otherwise, what has gone out and what is queued are the
        accepted packets in their order, and the queue holds its references and no other. */
    method Run(events: seq<Event>) returns (aborted: bool)
      requires Valid() && forall e :: e in events ==> e.Timeout? || e.p in pbufs
      modifies this`timeouts, this`accepted, this`wire, q, q.nodes, pbufs
      ensures !aborted ==> timeouts == (if q.Contents() == [] then 0 else 1)
      ensures !aborted ==> AllFit(q.Contents()) && accepted == wire + Packets(q.Contents())
      ensures !aborted ==> old(wire) <= wire && old(accepted) <= accepted
      ensures !aborted ==> forall p :: p in pbufs ==> p.refs == p.others + Held(q.Contents(), p)
    {
      hide Data, List.Valid, List.Contents, Held, AllFit, Packets;
      var i := 0;
      aborted := false;
      while i < |events| && !aborted
        invariant i <= |events| && (!aborted ==> Valid() && old(wire) <= wire && old(accepted) <= accepted)
        invariant forall k :: 0 <= k < |q.nodes| ==> q.nodes[k] in old(q.nodes) || fresh(q.nodes[k])
      {
        aborted := Step(events[i]);
        i := i + 1;
      }
    }

    /** With nothing more coming the timer empties the queue: every accepted packet has gone out,
        and no reference is left. */
    method Drain()
      requires Valid() && forall b :: b in q.Contents() ==> b.totLen > 0
      modifies this`timeouts, this`wire, q, q.nodes, pbufs
      ensures Valid() && timeouts == 0 && wire == accepted == old(accepted)
      ensures forall p :: p in pbufs ==> p.refs == p.others == old(p.others)
    {
      hide Data, List.Valid, List.Contents, Held, Counted, Kept;
      while timeouts > 0
        invariant Valid() && accepted == old(accepted) && forall b :: b in q.Contents() ==> b.totLen > 0
        invariant forall k :: 0 <= k < |q.nodes| ==> q.nodes[k] in old(q.nodes)
        invariant forall p :: p in pbufs ==> p.others == old(p.others)
        decreases |q.Contents()|
      {
        var aborted := Timeout(false);
      }
      Drained();
    }

    lemma Drained()
      requires Valid() && timeouts == 0
      ensures wire == accepted && forall p :: p in pbufs ==> p.refs == p.others
    {
    }
  }
}

/** The receive side of the MCF5272 driver: the hardware fills a ring of buffers at any moment,
    the interrupt routine takes whole frames out as buffer chains and refills the ring. */
module FecReceive {
  import opened Chains
  import opened Common
  import Ring

  const NUM_RXBDS := 64
  const U16 := 0x1_0000
  type u16 = n: nat | n < U16

  /** One filled buffer: its data, whether it ends a frame, whether the frame is bad, and the
      length field, which in a last buffer counts the whole frame. */
  datatype Fragment = Fragment(content: nat, last: bool, bad: bool, dataLen: u16)

  /** struct rxbd. */
  datatype RxBd = RxBd(empty: bool, last: bool, wrap: bool, bad: bool, dataLen: u16)

  datatype Part = Part(content: nat, len: nat)

  /** A frame as the driver hands it on or drops it: a chain of buffers and its total length. */
  datatype Outcome = Outcome(chain: seq<Part>, totLen: nat, delivered: bool)

  function Inc(i: nat): nat {
    Ring.Inc(NUM_RXBDS, i)
  }

  /** The slot `k` places after `head`. */
  function Pos(head: nat, k: nat): (i: nat)
    requires head < NUM_RXBDS && k <= NUM_RXBDS
    ensures i < NUM_RXBDS
  {
    Ring.Pos(NUM_RXBDS, head, k)
  }

  // ----- Frames in a stream of fragments -----

  function LastIndex(frags: seq<Fragment>): (e: nat)
    ensures e <= |frags| && (forall k :: 0 <= k < e ==> !frags[k].last)
    ensures e < |frags| ==> frags[e].last
  {
    if frags == [] || frags[0].last then 0 else 1 + LastIndex(frags[1..])
  }

  function SumOfLengths(chain: seq<Part>): nat {
    if chain == [] then 0 else SumOfLengths(chain[..|chain| - 1]) + chain[|chain| - 1].len
  }

  /** The buffers before the last one keep their own lengths. */
  function Leading(frame: seq<Fragment>): (chain: seq<Part>)
    ensures |chain| == |frame|
    ensures forall k :: 0 <= k < |frame| ==> chain[k] == Part(frame[k].content, frame[k].dataLen)
  {
    seq(|frame|, k requires 0 <= k < |frame| => Part(frame[k].content, frame[k].dataLen))
  }

  /** The chain made of one frame: the last buffer gets what the frame's length leaves. */
  function Assemble(frame: seq<Fragment>): Outcome
    requires frame != []
  {
    var lead := Leading(frame[..|frame| - 1]);
    var end := frame[|frame| - 1];
    Outcome(lead + [Part(end.content, (end.dataLen - SumOfLengths(lead)) % U16)], end.dataLen, !end.bad)
  }

  /** What is to become of the complete frames of a stream. */
  function Outcomes(frags: seq<Fragment>): seq<Outcome>
    decreases |frags|
  {
    var e := LastIndex(frags);
    if e == |frags| then [] else [Assemble(frags[..e + 1])] + Outcomes(frags[e + 1..])
  }

  /** The stream ends with a frame. */
  predicate Whole(frags: seq<Fragment>) {
    frags == [] || frags[|frags| - 1].last
  }

  predicate OneFrame(frame: seq<Fragment>) {
    frame != [] && LastIndex(frame) == |frame| - 1
  }

  lemma LastIndexIs(frags: seq<Fragment>, e: nat)
    requires e < |frags| && frags[e].last && forall k :: 0 <= k < e ==> !frags[k].last
    ensures LastIndex(frags) == e
  {
  }

  lemma FirstFrameOff(frags: seq<Fragment>, more: seq<Fragment>)
    requires LastIndex(frags) < |frags|
    ensures var e := LastIndex(frags);
            && Outcomes(frags) == [Assemble(frags[..e + 1])] + Outcomes(frags[e + 1..])
            && Outcomes(frags + more) == [Assemble(frags[..e + 1])] + Outcomes(frags[e + 1..] + more)
  {
    hide Assemble;
    var e := LastIndex(frags);
    LastIndexIs(frags + more, e);
    assert (frags + more)[..e + 1] == frags[..e + 1];
    assert (frags + more)[e + 1..] == frags[e + 1..] + more;
  }

  lemma OutcomesOfOne(frame: seq<Fragment>)
    requires OneFrame(frame)
    ensures Outcomes(frame) == [Assemble(frame)] && Outcomes([]) == []
  {
    hide Assemble;
    assert frame[..|frame|] == frame && frame[|frame|..] == [];
  }

  lemma {:induction false} OutcomesAppend(frags: seq<Fragment>, frame: seq<Fragment>)
    requires Whole(frags) && OneFrame(frame)
    ensures Outcomes(frags + frame) == Outcomes(frags) + [Assemble(frame)] && Whole(frags + frame)
    decreases |frags|
  {
    hide Assemble, Outcomes;
    if frags == [] {
      assert frags + frame == frame;
      OutcomesOfOne(frame);
    } else {
      assert frags[|frags| - 1].last;
      FirstFrameOff(frags, frame);
      OutcomesAppend(frags[LastIndex(frags) + 1..], frame);
    }
  }

  lemma NoFrame(frags: seq<Fragment>)
    requires LastIndex(frags) == |frags|
    ensures Outcomes(frags) == []
  {
  }

  /** Fragments of an unfinished frame add nothing to whole ones. */
  lemma {:induction false} OutcomesOfRest(frags: seq<Fragment>, rest: seq<Fragment>)
    requires Whole(frags) && LastIndex(rest) == |rest|
    ensures Outcomes(frags + rest) == Outcomes(frags)
    decreases |frags|
  {
    hide Outcomes, Assemble;
    if frags == [] {
      assert frags + rest == rest;
      NoFrame(rest);
      NoFrame([]);
    } else {
      var e := LastIndex(frags);
      FirstFrameOff(frags, rest);
      assert Whole(frags[e + 1..]);
      OutcomesOfRest(frags[e + 1..], rest);
    }
  }

  lemma {:induction false} OutcomesGrow(frags: seq<Fragment>, more: seq<Fragment>)
    ensures Outcomes(frags) <= Outcomes(frags + more)
    decreases |frags|
  {
    hide Assemble;
    if LastIndex(frags) < |frags| {
      FirstFrameOff(frags, more);
      OutcomesGrow(frags[LastIndex(frags) + 1..], more);
    }
  }

  /** A frame becomes the chain of its buffers, delivered unless its last descriptor has an error bit.
      The last buffer's length is reckoned in 16 bits, so the lengths of the chain sum to the frame's
      length field exactly when the leading buffers do not exceed it. */
  lemma ChainOfFrame(frame: seq<Fragment>)
    requires frame != []
    ensures var o, last := Assemble(frame), frame[|frame| - 1];
            && |o.chain| == |frame| && (forall k :: 0 <= k < |frame| ==> o.chain[k].content == frame[k].content)
            && (forall k :: 0 <= k < |frame| - 1 ==> o.chain[k].len == frame[k].dataLen)
            && (o.delivered <==> !last.bad) && o.totLen == last.dataLen
            && SumOfLengths(o.chain) % U16 == o.totLen
            && (SumOfLengths(o.chain) == o.totLen <==> SumOfLengths(Leading(frame[..|frame| - 1])) <= o.totLen)
  {
  }

  /** Its last fragment, and only that, ends a frame. */
  ghost predicate EndsAtLast(f: seq<Fragment>) {
    forall k :: 0 <= k < |f| ==> (f[k].last <==> k == |f| - 1)
  }

  lemma FrameThenRest(frame: seq<Fragment>, rest: seq<Fragment>)
    requires frame != [] && EndsAtLast(frame)
    ensures Outcomes(frame + rest) == [Assemble(frame)] + Outcomes(rest)
  {
    hide Assemble, Outcomes;
    LastIndexIs(frame, |frame| - 1);
    FirstFrameOff(frame, rest);
    assert frame[..|frame|] == frame && frame[|frame|..] + rest == rest;
  }

  lemma NoEnd(rest: seq<Fragment>)
    requires forall k :: 0 <= k < |rest| ==> !rest[k].last
    ensures Outcomes(rest) == []
  {
    assert LastIndex(rest) == |rest|;
  }

  /** The frames that end in a stream of fragments each have their one outcome, in order. */
  lemma {:induction false} OutcomesOfFrames(frames: seq<seq<Fragment>>, rest: seq<Fragment>)
    requires forall i :: 0 <= i < |frames| ==> frames[i] != [] && EndsAtLast(frames[i])
    requires forall k :: 0 <= k < |rest| ==> !rest[k].last
    ensures |Outcomes(Flat(frames) + rest)| == |frames|
    ensures forall i :: 0 <= i < |frames| ==> Outcomes(Flat(frames) + rest)[i] == Assemble(frames[i])
  {
    hide Assemble, Outcomes;
    if frames == [] {
      assert Flat(frames) + rest == rest;
      NoEnd(rest);
    } else {
      OutcomesOfFrames(frames[1..], rest);
      FrameThenRest(frames[0], Flat(frames[1..]) + rest);
      assert Flat(frames) + rest == frames[0] + (Flat(frames[1..]) + rest);
    }
  }

  // ----- The arrays -----

  /** `n` slots from `head` on have buffers, the first of them filled with `frags`. */
  ghost predicate Flagged(bd: seq<RxBd>, head: nat, n: nat, frags: seq<Fragment>) {
    && |bd| == NUM_RXBDS && head < NUM_RXBDS && |frags| <= n <= NUM_RXBDS
    && (forall i :: 0 <= i < NUM_RXBDS ==> (bd[i].wrap <==> i == NUM_RXBDS - 1))
    && (forall k :: 0 <= k < NUM_RXBDS ==> (bd[Pos(head, k)].empty <==> |frags| <= k < n))
    && (forall k :: 0 <= k < |frags| ==>
          bd[Pos(head, k)] == RxBd(false, frags[k].last, Pos(head, k) == NUM_RXBDS - 1, frags[k].bad, frags[k].dataLen))
  }

  /** The buffers, of which the first `taken` are already out. */
  ghost predicate Buffered(bufs: seq<Option<nat>>, head: nat, taken: nat, n: nat, frags: seq<Fragment>) {
    && |bufs| == NUM_RXBDS && head < NUM_RXBDS && taken <= |frags| <= n <= NUM_RXBDS
    && (forall k :: 0 <= k < NUM_RXBDS ==> (bufs[Pos(head, k)].Some? <==> taken <= k < n))
    && (forall k :: taken <= k < |frags| ==> bufs[Pos(head, k)] == Some(frags[k].content))
  }

  lemma EmptyRing(bd: seq<RxBd>, bufs: seq<Option<nat>>)
    requires |bd| == |bufs| == NUM_RXBDS
    requires forall i :: 0 <= i < NUM_RXBDS ==>
               bd[i] == RxBd(false, false, i == NUM_RXBDS - 1, false, 0) && bufs[i] == None
    ensures Flagged(bd, 0, 0, []) && Buffered(bufs, 0, 0, 0, [])
    ensures Unfinished([], 0) && Outcomes([]) == [] && Whole([])
  {
  }

  lemma FillOne(bd: seq<RxBd>, bufs: seq<Option<nat>>, head: nat, taken: nat, n: nat, frags: seq<Fragment>, f: Fragment)
    requires Flagged(bd, head, n, frags) && Buffered(bufs, head, taken, n, frags) && bd[Pos(head, |frags|)].empty
    ensures |frags| < n
    ensures var i := Pos(head, |frags|);
            && Flagged(bd[i := RxBd(false, f.last, bd[i].wrap, f.bad, f.dataLen)], head, n, frags + [f])
            && Buffered(bufs[i := Some(f.content)], head, taken, n, frags + [f])
            && Pos(head, |frags| + 1) == if bd[i].wrap then 0 else i + 1
  {
    assert Pos(head, NUM_RXBDS) == Pos(head, 0);
    assert |frags| < NUM_RXBDS;
    var i := Pos(head, |frags|);
    var after := bd[i := RxBd(false, f.last, bd[i].wrap, f.bad, f.dataLen)];
    forall k | 0 <= k < NUM_RXBDS ensures after[Pos(head, k)].empty <==> |frags| + 1 <= k < n {
      assert k != |frags| ==> Pos(head, k) != i;
    }
  }

  lemma FrameTaken(bd: seq<RxBd>, bufs: seq<Option<nat>>, head: nat, m: nat, n: nat, frags: seq<Fragment>)
    requires Flagged(bd, head, n, frags) && Buffered(bufs, head, m, n, frags)
    ensures Flagged(bd, Pos(head, m), n - m, frags[m..]) && Buffered(bufs, Pos(head, m), 0, n - m, frags[m..])
  {
    var next := Pos(head, m);
    forall k | 0 <= k < NUM_RXBDS
      ensures Pos(next, k) == if m + k < NUM_RXBDS then Pos(head, m + k) else Pos(head, m + k - NUM_RXBDS)
    {
    }
  }

  lemma RefillOne(bd: seq<RxBd>, bufs: seq<Option<nat>>, head: nat, n: nat, frags: seq<Fragment>, b: nat, len: u16)
    requires Flagged(bd, head, n, frags) && Buffered(bufs, head, 0, n, frags) && bufs[Pos(head, n)] == None
    ensures n < NUM_RXBDS
    ensures var i := Pos(head, n);
            && Flagged(bd[i := RxBd(true, false, bd[i].wrap, false, len)], head, n + 1, frags)
            && Buffered(bufs[i := Some(b)], head, 0, n + 1, frags)
  {
    assert Pos(head, NUM_RXBDS) == Pos(head, 0);
  }

  /** `run` fragments of an unfinished frame have arrived. */
  ghost predicate Unfinished(arrived: seq<Fragment>, run: nat) {
    && run <= |arrived|
    && (forall k :: |arrived| - run <= k < |arrived| ==> !arrived[k].last)
    && (run < |arrived| ==> arrived[|arrived| - run - 1].last)
  }

  lemma OneMoreArrived(arrived: seq<Fragment>, run: nat, f: Fragment)
    requires Unfinished(arrived, run)
    ensures Unfinished(arrived + [f], if f.last then 0 else run + 1)
  {
  }

  /** If no frame has more fragments than the ring has slots, the ring cannot be full of
      fragments none of which ends a frame. */
  lemma FrameEndIsNear(arrived: seq<Fragment>, consumed: nat, run: nat)
    requires Unfinished(arrived, run) && run < NUM_RXBDS
    requires consumed <= |arrived| <= consumed + NUM_RXBDS
    ensures LastIndex(arrived[consumed..]) < NUM_RXBDS
  {
  }

  lemma FrameOff(frags: seq<Fragment>, e: nat)
    requires e < |frags| && LastIndex(frags) == e
    ensures OneFrame(frags[..e + 1]) && frags[..e + 1][e] == frags[e]
  {
  }

  lemma LastIndexGrows(before: seq<Fragment>, after: seq<Fragment>, e: nat)
    requires before <= after && e < |before| && e <= LastIndex(before)
    ensures if after[e].last then LastIndex(after) == e else e + 1 <= LastIndex(after)
  {
  }

  /** The first `k` buffers of the frame are chained; lengths are 16 bits wide. */
  ghost predicate Building(chain: seq<Part>, totLen: nat, frame: seq<Fragment>, k: nat) {
    k < |frame| && chain == Leading(frame[..k]) && totLen == SumOfLengths(chain) % U16
  }

  ghost predicate Built(chain: seq<Part>, totLen: nat, frame: seq<Fragment>) {
    frame != [] && Outcome(chain, totLen, !frame[|frame| - 1].bad) == Assemble(frame)
  }

  lemma BuildNone(frame: seq<Fragment>)
    requires frame != []
    ensures Building([], 0, frame, 0)
  {
  }

  lemma BuildOne(chain: seq<Part>, totLen: nat, frame: seq<Fragment>, k: nat)
    requires Building(chain, totLen, frame, k)
    ensures k + 1 < |frame| ==>
              Building(chain + [Part(frame[k].content, frame[k].dataLen)], (totLen + frame[k].dataLen) % U16, frame,
                       k + 1)
    ensures k + 1 == |frame| ==>
              var len := (frame[k].dataLen - totLen) % U16;
              Built(chain + [Part(frame[k].content, len)], (totLen + len) % U16, frame)
  {
    hide LastIndex, Leading, SumOfLengths, Built, Assemble;
    if k + 1 < |frame| {
      LeadingNext(frame, k);
      SumNext(chain, Part(frame[k].content, frame[k].dataLen));
      AddLength(SumOfLengths(chain), frame[k].dataLen);
    } else {
      BuildLast(chain, totLen, frame);
    }
  }

  lemma LeadingNext(frame: seq<Fragment>, k: nat)
    requires k < |frame|
    ensures Leading(frame[..k + 1]) == Leading(frame[..k]) + [Part(frame[k].content, frame[k].dataLen)]
  {
  }

  lemma SumNext(chain: seq<Part>, part: Part)
    ensures SumOfLengths(chain + [part]) == SumOfLengths(chain) + part.len
  {
    var longer := chain + [part];
    assert longer[..|longer| - 1] == chain;
  }

  /** The last buffer, and the length of the whole frame. */
  lemma BuildLast(chain: seq<Part>, totLen: nat, frame: seq<Fragment>)
    requires frame != [] && Building(chain, totLen, frame, |frame| - 1)
    ensures var end := frame[|frame| - 1];
            var len := (end.dataLen - totLen) % U16;
            Built(chain + [Part(end.content, len)], (totLen + len) % U16, frame)
  {
    hide Leading, SumOfLengths;
    var len := frame[|frame| - 1].dataLen;
    RestOfLength(len, SumOfLengths(chain));
  }

  lemma AddLength(sum: nat, len: u16)
    ensures (sum % U16 + len) % U16 == (sum + len) % U16
  {
  }

  lemma RestOfLength(len: u16, sum: nat)
    ensures (len - sum % U16) % U16 == (len - sum) % U16
    ensures (sum % U16 + (len - sum % U16) % U16) % U16 == len
  {
  }

  lemma FragmentRead(bd: seq<RxBd>, bufs: seq<Option<nat>>, head: nat, k: nat, n: nat, frags: seq<Fragment>)
    requires Flagged(bd, head, n, frags) && Buffered(bufs, head, k, n, frags) && k < |frags|
    ensures var i := Pos(head, k);
            && bd[i].dataLen == frags[k].dataLen && bufs[i] == Some(frags[k].content)
            && Buffered(bufs[i := None], head, k + 1, n, frags)
  {
  }

  /** The receive half of struct mcf5272if, the hardware that fills the ring, and what has
      happened so far. */
  class FecRx {
    const bd: array<RxBd>
    const bufs: array<Option<nat>>
    var rxRemove: nat
    var rxInsert: nat
    /** The hardware's own place, how far it is in a frame, and everything it has received. */
    var hw: nat
    var run: nat
    ghost var arrived: seq<Fragment>
    /** What was passed to eth_input or freed, in order. */
    var outcomes: seq<Outcome>
    /** How many buffers pbuf_alloc can still give; others take and return them too. */
    var pool: nat
    /** Whether the controller has been switched on. */
    var enabled: bool
    /** The ring as a queue: where it starts, how many slots have buffers, and how many
        fragments have been taken out. */
    ghost var head: nat
    ghost var count: nat
    ghost var consumed: nat

    ghost function Pending(): seq<Fragment>
      reads this`arrived, this`consumed
      requires consumed <= |arrived|
    {
      arrived[consumed..]
    }

    ghost predicate Indexed()
      reads this
    {
      && bd.Length == bufs.Length == NUM_RXBDS && head < NUM_RXBDS && count <= NUM_RXBDS
      && consumed <= |arrived| && |arrived| - consumed <= count
      && rxInsert == Pos(head, count) && hw == Pos(head, |arrived| - consumed)
      && run < NUM_RXBDS && Unfinished(arrived, run)
    }

    ghost predicate Logged()
      reads this`arrived, this`consumed, this`outcomes
    {
      consumed <= |arrived| && outcomes == Outcomes(arrived[..consumed]) && Whole(arrived[..consumed])
    }

    ghost predicate Steady()
      reads this, bd, bufs
    {
      && Indexed() && Logged()
      && Flagged(bd[..], head, count, Pending()) && Buffered(bufs[..], head, 0, count, Pending())
    }

    ghost predicate Valid()
      reads this, bd, bufs
    {
      Steady() && rxRemove == head
    }

    /** The hardware stores as many fragments as it likes and has room for; `taken` of the pending
        ones are being taken out. */
    method Hardware(ghost taken: nat)
      requires Indexed() && Flagged(bd[..], head, count, Pending()) && Buffered(bufs[..], head, taken, count, Pending())
      modifies bd, bufs, this`hw, this`run, this`arrived
      ensures Indexed() && Flagged(bd[..], head, count, Pending()) && Buffered(bufs[..], head, taken, count, Pending())
      ensures old(arrived) <= arrived && (enabled || arrived == old(arrived))
    {
      hide Flagged, Buffered, Unfinished;
      var busy := *;
      while enabled && busy && bd[hw].empty
        invariant Indexed() && Flagged(bd[..], head, count, Pending())
        invariant Buffered(bufs[..], head, taken, count, Pending())
        invariant old(arrived) <= arrived && (enabled || arrived == old(arrived))
        decreases count - (|arrived| - consumed)
      {
        Store(taken);
        busy := *;
      }
    }

    /** One fragment arrives. */
    method Store(ghost taken: nat)
      requires Indexed() && Flagged(bd[..], head, count, Pending()) && Buffered(bufs[..], head, taken, count, Pending())
      requires bd[hw].empty
      modifies bd, bufs, this`hw, this`run, this`arrived
      ensures Indexed() && Flagged(bd[..], head, count, Pending()) && Buffered(bufs[..], head, taken, count, Pending())
      ensures old(arrived) < arrived
    {
      hide Flagged, Buffered, Unfinished, LastIndex;
      var f: Fragment := *;
      if run + 1 == NUM_RXBDS {
        f := f.(last := true);  // frames span at most as many descriptors as there are
      }
      ghost var b, p, before := bd[..], bufs[..], Pending();
      assert b[hw] == bd[hw];
      FillOne(b, p, head, taken, count, before, f);
      var wrap := bd[hw].wrap;
      Fill(f, wrap);
      hw := if wrap then 0 else hw + 1;
      OneMoreArrived(arrived, run, f);
      run := if f.last then 0 else run + 1;
      arrived := arrived + [f];
      assert Pending() == before + [f];
    }

    /** The hardware writes one descriptor and the buffer behind it. */
    method Fill(f: Fragment, wrap: bool)
      requires hw < bd.Length == bufs.Length
      modifies bd, bufs
      ensures bd[..] == old(bd[..])[hw := RxBd(false, f.last, wrap, f.bad, f.dataLen)]
      ensures bufs[..] == old(bufs[..])[hw := Some(f.content)]
    {
      bd[hw] := RxBd(false, f.last, wrap, f.bad, f.dataLen);
      bufs[hw] := Some(f.content);
    }

    /** fill_rx_ring: give every empty slot a buffer, as long as there are buffers. */
    method FillRxRing()
      requires Steady()
      modifies bd, bufs, this`rxInsert, this`hw, this`run, this`arrived, this`count, this`pool
      ensures Steady() && old(count) <= count && old(arrived) <= arrived && (enabled || arrived == old(arrived))
      ensures count + pool == old(count + pool) && (count == NUM_RXBDS || pool == 0)
    {
      hide Flagged, Buffered, Unfinished, Outcomes, Whole;
      var i := rxInsert;
      while bufs[i] == None
        invariant Steady() && i == rxInsert && old(count) <= count
        invariant old(arrived) <= arrived && (enabled || arrived == old(arrived))
        invariant count + pool == old(count + pool)
        decreases NUM_RXBDS - count
      {
        if pool == 0 {
          return;
        }
        Refill();
        i := rxInsert;
        HardwareAnytime();
      }
      NoHole();
    }

    /** One buffer for the empty slot at the insert index. */
    method Refill()
      requires Steady() && bufs[rxInsert] == None && pool > 0
      modifies bd, bufs, this`rxInsert, this`count, this`pool
      ensures Steady() && count == old(count) + 1 && pool == old(pool) - 1
    {
      hide Flagged, Buffered, Unfinished, Outcomes, Whole;
      var i := rxInsert;
      pool := pool - 1;
      var buffer: nat := *;
      ghost var b, u := bd[..], bufs[..];
      RefillOne(b, u, head, count, Pending(), buffer, bd[i].dataLen);
      bufs[i] := Some(buffer);
      bd[i] := RxBd(true, false, bd[i].wrap, false, bd[i].dataLen);
      assert bd[..] == b[i := RxBd(true, false, b[i].wrap, false, b[i].dataLen)] && bufs[..] == u[i := Some(buffer)];
      rxInsert := Inc(rxInsert);
      count := count + 1;
    }

    /** A slot with a buffer at the insert index means that every slot has one. */
    lemma NoHole()
      requires Steady() && bufs[rxInsert] != None
      ensures count == NUM_RXBDS
    {
    }

    method HardwareAnytime()
      requires Steady()
      modifies bd, bufs, this`hw, this`run, this`arrived
      ensures Steady() && old(arrived) <= arrived && (enabled || arrived == old(arrived))
    {
      hide Flagged, Buffered, Unfinished, Outcomes, Whole;
      ghost var before := arrived;
      Hardware(0);
      assert arrived[..consumed] == before[..consumed];
    }

    /** The rings as enable_fec leaves them: as many slots from the first on as there are buffers have an
        empty one for the hardware, which is switched on only then. */
    constructor (pool: nat)
      ensures Valid() && fresh(bd) && fresh(bufs) && outcomes == [] && arrived == [] && enabled
      ensures count + this.pool == pool && (count == NUM_RXBDS || this.pool == 0)
      ensures forall i :: 0 <= i < NUM_RXBDS ==>
                && (bd[i].empty <==> i < count) && (bufs[i] != None <==> i < count)
                && (bd[i].wrap <==> i == NUM_RXBDS - 1)
    {
      hide Flagged, Buffered, Unfinished, Outcomes, Whole;
      bd := new RxBd[NUM_RXBDS](i => RxBd(false, false, i == NUM_RXBDS - 1, false, 0));
      bufs := new Option<nat>[NUM_RXBDS](_ => None);
      rxRemove, rxInsert, hw, run := 0, 0, 0, 0;
      arrived, outcomes, head, count, consumed := [], [], 0, 0, 0;
      this.pool, enabled := pool, false;
      new;
      EmptyRing(bd[..], bufs[..]);
      assert arrived[..consumed] == arrived[consumed..] == [];
      FillRxRing();
      AllEmpty();
      enabled := true;
    }

    /** With nothing received the slots with a buffer are the empty ones. */
    lemma AllEmpty()
      requires Steady() && head == 0 && Pending() == []
      ensures forall i :: 0 <= i < NUM_RXBDS ==>
                && (bd[i].empty <==> i < count) && (bufs[i] != None <==> i < count)
                && (bd[i].wrap <==> i == NUM_RXBDS - 1)
    {
      forall i | 0 <= i < NUM_RXBDS
        ensures (bd[i].empty <==> i < count) && (bufs[i] != None <==> i < count) && (bd[i].wrap <==> i == NUM_RXBDS - 1)
      {
        assert Pos(0, i) == i && bd[..][Pos(0, i)] == bd[i] && bufs[..][Pos(0, i)] == bufs[i];
      }
    }

    /** The inner loop of mcf5272fec_rx: chain the buffers from `sof` up to `eof`, which ends a
        frame, and mark their descriptors free. */
    method ChainFrame(sof: nat, eof: nat, ghost e: nat) returns (chain: seq<Part>, totLen: nat)
      requires Steady() && sof == head && e < |Pending()| && eof == Pos(head, e)
      requires LastIndex(Pending()) == e
      modifies bd, bufs, this`hw, this`run, this`arrived
      ensures Indexed() && Flagged(bd[..], head, count, Pending()) && Buffered(bufs[..], head, e + 1, count, Pending())
      ensures old(arrived) <= arrived && e < |Pending()| && Pending()[..e + 1] == old(Pending())[..e + 1]
      ensures Built(chain, totLen, Pending()[..e + 1])
    {
      hide Flagged, Buffered, Unfinished, Outcomes, Whole, LastIndex, Built, Building;
      BuildNone(Pending()[..e + 1]);
      ghost var frame := Pending()[..e + 1];
      chain, totLen := [], 0;
      var i := sof;
      ghost var k: nat := 0;
      while true
        invariant Indexed() && k <= e < |Pending()| && i == Pos(head, k) && frame == Pending()[..e + 1]
        invariant Flagged(bd[..], head, count, Pending()) && Buffered(bufs[..], head, k, count, Pending())
        invariant old(arrived) <= arrived && Building(chain, totLen, frame, k)
        decreases e - k
      {
        chain, totLen := ChainOne(i, eof, chain, totLen, frame, k);
        if i == eof {
          break;
        }
        i := Inc(i);
        k := k + 1;
      }
    }

    /** One buffer joins the chain. */
    method ChainOne(i: nat, eof: nat, chain: seq<Part>, totLen: nat, ghost frame: seq<Fragment>, ghost k: nat)
      returns (longer: seq<Part>, newLen: nat)
      requires Indexed() && k < |frame| <= |Pending()| && frame == Pending()[..|frame|]
      requires i == Pos(head, k) && eof == Pos(head, |frame| - 1)
      requires Flagged(bd[..], head, count, Pending()) && Buffered(bufs[..], head, k, count, Pending())
      requires Building(chain, totLen, frame, k)
      modifies bd, bufs, this`hw, this`run, this`arrived
      ensures Indexed() && Flagged(bd[..], head, count, Pending()) && Buffered(bufs[..], head, k + 1, count, Pending())
      ensures old(arrived) <= arrived && |frame| <= |Pending()| && frame == Pending()[..|frame|]
      ensures if k + 1 < |frame| then Building(longer, newLen, frame, k + 1) else Built(longer, newLen, frame)
    {
      hide Flagged, Buffered, Unfinished, Built, Building;
      ghost var u, before := bufs[..], Pending();
      FragmentRead(bd[..], u, head, k, count, Pending());
      BuildOne(chain, totLen, frame, k);
      var len := if i == eof then (bd[i].dataLen - totLen) % U16 else bd[i].dataLen;
      longer := chain + [Part(bufs[i].value, len)];
      newLen := (totLen + len) % U16;
      bufs[i] := None;
      assert bufs[..] == u[i := None];
      Hardware(k + 1);
      assert Pending()[..|frame|] == before[..|frame|];
    }

    /** A complete frame leaves the ring as a chain and is passed on, or dropped if it is bad. */
    method TakeFrame(sof: nat, eof: nat, flags: RxBd, ghost e: nat)
      requires Steady() && sof == head && e < |Pending()| && eof == Pos(head, e)
      requires LastIndex(Pending()) == e && flags.bad == Pending()[e].bad
      modifies bd, bufs, this`hw, this`run, this`arrived, this`outcomes, this`head, this`count, this`consumed
      ensures Steady() && head == Inc(eof) && count == old(count) - (e + 1)
      ensures old(arrived) <= arrived && consumed == old(consumed) + e + 1
      ensures outcomes == old(outcomes) + [Assemble(old(Pending())[..e + 1])]
    {
      hide Flagged, Buffered, Unfinished, Outcomes, Whole, LastIndex, Assemble;
      ghost var frame := Pending()[..e + 1];
      FrameOff(Pending(), e);
      var chain, totLen := ChainFrame(sof, eof, e);
      ghost var was := outcomes;
      assert |frame| == e + 1 && frame[|frame| - 1].bad == flags.bad;
      assert Outcome(chain, totLen, !flags.bad) == Assemble(frame);
      outcomes := outcomes + [Outcome(chain, totLen, !flags.bad)];
      assert outcomes[..|outcomes| - 1] == was;
      assert arrived[..consumed] == old(arrived[..consumed]);
      Forget(frame, e + 1);
    }

    /** The ring is counted from the next frame on. */
    ghost method Forget(frame: seq<Fragment>, m: nat)
      requires Indexed() && Flagged(bd[..], head, count, Pending()) && Buffered(bufs[..], head, m, count, Pending())
      requires m <= |Pending()| && frame == Pending()[..m] && OneFrame(frame)
      requires |outcomes| > 0 && outcomes[|outcomes| - 1] == Assemble(frame)
      requires outcomes[..|outcomes| - 1] == Outcomes(arrived[..consumed]) && Whole(arrived[..consumed])
      modifies this`head, this`count, this`consumed
      ensures Steady() && head == Pos(old(head), m) && count == old(count) - m && consumed == old(consumed) + m
    {
      hide Flagged, Buffered, Unfinished, Outcomes, Whole, Assemble;
      FrameTaken(bd[..], bufs[..], head, m, count, Pending());
      OutcomesAppend(arrived[..consumed], frame);
      assert arrived[..consumed + m] == arrived[..consumed] + frame;
      assert arrived[consumed..][m..] == arrived[consumed + m..];
      assert outcomes == outcomes[..|outcomes| - 1] + [Assemble(frame)];
      head, count, consumed := Pos(head, m), count - m, consumed + m;
    }

    /** mcf5272fec_rx: every frame that was complete is handed on or dropped, and the ring gets as
        many buffers as there are. Only buffers of such frames leave the ring and the pool. */
    method Rx()
      requires Valid()
      modifies this, bd, bufs
      ensures Valid() && old(arrived) <= arrived && old(outcomes) <= outcomes
      ensures Outcomes(old(arrived)) <= outcomes
      ensures count == NUM_RXBDS || pool == 0
      ensures old(consumed) <= consumed && count + pool + consumed == old(count + pool + consumed)
    {
      hide Flagged, Buffered, Unfinished, Outcomes, Whole, LastIndex;
      var sof, eof := rxRemove, rxRemove;
      ghost var e: nat := 0;
      while !bd[eof].empty && bufs[eof] != None
        invariant Scanning(sof, eof, e)
        invariant old(arrived) <= arrived && old(outcomes) <= outcomes
        invariant pool == old(pool) && old(consumed) <= consumed && count + consumed == old(count + consumed)
        decreases count, NUM_RXBDS - e
      {
        sof, eof, e := ScanOne(sof, eof, e);
      }
      rxRemove := sof;
      NothingLeft(e, old(arrived));
      FillRxRing();
    }

    /** `e` fragments of the first frame have been passed. */
    ghost predicate Scanning(sof: nat, eof: nat, e: nat)
      reads this, bd, bufs
    {
      && Steady() && sof == head && e < NUM_RXBDS && eof == Pos(head, e)
      && e <= LastIndex(Pending()) && e <= |Pending()|
    }

    /** One filled descriptor: the frame is taken if it ends here. */
    method ScanOne(sof: nat, eof: nat, ghost e: nat) returns (sof': nat, eof': nat, ghost e': nat)
      requires Scanning(sof, eof, e) && !bd[eof].empty && bufs[eof] != None
      modifies bd, bufs, this`hw, this`run, this`arrived, this`outcomes, this`head, this`count, this`consumed
      ensures Scanning(sof', eof', e') && old(arrived) <= arrived && old(outcomes) <= outcomes
      ensures old(consumed) <= consumed && count + consumed == old(count + consumed)
      ensures count < old(count) || (count == old(count) && e' > e)
    {
      hide Flagged, Buffered, Unfinished, Outcomes, Whole, LastIndex;
      var flags := bd[eof];
      FoundFilled(e);
      ghost var before := Pending();
      HardwareAnytime();
      LastIndexGrows(before, Pending(), e);
      FrameEndIsNear(arrived, consumed, run);
      if flags.last {
        TakeFrame(sof, eof, flags, e);
        eof' := Inc(eof);
        sof', e' := eof', 0;
      } else {
        sof', eof', e' := sof, Inc(eof), e + 1;
      }
    }

    /** The scan has stopped behind the last fragment, and no frame ends before it. */
    lemma NothingLeft(e: nat, before: seq<Fragment>)
      requires Steady() && e < NUM_RXBDS && e <= LastIndex(Pending()) && before <= arrived
      requires bd[Pos(head, e)].empty || bufs[Pos(head, e)] == None
      ensures Outcomes(before) <= outcomes
    {
      hide Outcomes, Whole, Unfinished;
      assert bd[..][Pos(head, e)] == bd[Pos(head, e)] && bufs[..][Pos(head, e)] == bufs[Pos(head, e)];
      assert e == |Pending()|;
      OutcomesOfRest(arrived[..consumed], Pending());
      assert arrived == arrived[..consumed] + Pending();
      OutcomesGrow(before, arrived[|before|..]);
      assert before + arrived[|before|..] == arrived;
    }

    /** A descriptor that is not empty and has a buffer holds the next fragment. */
    lemma FoundFilled(e: nat)
      requires Steady() && e < NUM_RXBDS && e <= |Pending()|
      requires !bd[Pos(head, e)].empty && bufs[Pos(head, e)] != None
      ensures e < |Pending()| && bd[Pos(head, e)].last == Pending()[e].last && bd[Pos(head, e)].bad == Pending()[e].bad
    {
    }

    /** Any run: interrupts at any time, the hardware working in between. */
    method Serve(interrupts: nat)
      requires Valid()
      modifies this, bd, bufs
      ensures Valid() && outcomes <= Outcomes(arrived) && old(arrived) <= arrived && old(outcomes) <= outcomes
      ensures Buffered(bufs[..], rxRemove, 0, count, Pending()) && rxInsert == Pos(rxRemove, count)
    {
      hide Flagged, Buffered, Unfinished, Outcomes, Whole;
      var k := 0;
      while k < interrupts
        invariant Valid() && old(arrived) <= arrived && old(outcomes) <= outcomes
      {
        HardwareAnytime();
        pool := *;
        Rx();
        k := k + 1;
      }
      OutcomesGrow(arrived[..consumed], arrived[consumed..]);
      assert arrived[..consumed] + arrived[consumed..] == arrived;
    }
  }

  // ----- A frame that is too long -----

  /** One round of the scan of mcf5272fec_rx at descriptor `eof`: on to the next one, or `None` if the
      loop guard fails or a frame ends here and is taken. */
  function ScanRound(bd: seq<RxBd>, bufs: seq<Option<nat>>, eof: nat): Option<nat>
    requires |bd| == |bufs| == NUM_RXBDS && eof < NUM_RXBDS
  {
    if bd[eof].empty || bufs[eof] == None || bd[eof].last then None else Some(Inc(eof))
  }

  /** Where the scan is after `rounds` rounds, if it has not stopped. */
  function ScanAfter(bd: seq<RxBd>, bufs: seq<Option<nat>>, sof: nat, rounds: nat): (eof: Option<nat>)
    requires |bd| == |bufs| == NUM_RXBDS && sof < NUM_RXBDS
    ensures eof.Some? ==> eof.value < NUM_RXBDS
  {
    if rounds == 0 then Some(sof)
    else
      var at := ScanAfter(bd, bufs, sof, rounds - 1);
      if at == None then None else ScanRound(bd, bufs, at.value)
  }

  /** All descriptors are filled, have a buffer and end no frame. */
  ghost predicate Stuck(bd: seq<RxBd>, bufs: seq<Option<nat>>)
    requires |bd| == |bufs| == NUM_RXBDS
  {
    forall i :: 0 <= i < NUM_RXBDS ==> !bd[i].empty && bufs[i] != None && !bd[i].last
  }

  lemma {:induction false} StuckGoesRound(bd: seq<RxBd>, bufs: seq<Option<nat>>, sof: nat, rounds: nat)
    requires |bd| == |bufs| == NUM_RXBDS && sof < NUM_RXBDS && Stuck(bd, bufs)
    ensures ScanAfter(bd, bufs, sof, rounds).Some?
  {
    if rounds > 0 {
      StuckGoesRound(bd, bufs, sof, rounds - 1);
    }
  }

  /** As long as the scan has not stopped it moves on by one slot a round. */
  lemma {:induction false} ScanMoves(bd: seq<RxBd>, bufs: seq<Option<nat>>, sof: nat, rounds: nat)
    requires |bd| == |bufs| == NUM_RXBDS && sof < NUM_RXBDS && rounds <= NUM_RXBDS
    requires ScanAfter(bd, bufs, sof, rounds).Some?
    ensures ScanAfter(bd, bufs, sof, rounds) == Some(Pos(sof, rounds))
    ensures forall k :: 0 <= k < rounds ==> ScanRound(bd, bufs, Pos(sof, k)).Some?
  {
    if rounds > 0 {
      ScanMoves(bd, bufs, sof, rounds - 1);
    }
  }

  lemma StuckMeansFull(bd: seq<RxBd>, bufs: seq<Option<nat>>, head: nat, n: nat, frags: seq<Fragment>)
    requires Flagged(bd, head, n, frags) && Buffered(bufs, head, 0, n, frags)
    ensures Stuck(bd, bufs) <==> LastIndex(frags) == NUM_RXBDS
    ensures LastIndex(frags) <= |frags| <= n <= NUM_RXBDS && |bd| == |bufs| == NUM_RXBDS && head < NUM_RXBDS
  {
    var e := LastIndex(frags);
    if e < NUM_RXBDS {
      var i := Pos(head, e);
      if e < |frags| {
        assert bd[i].last;
      } else if e < n {
        assert bd[i].empty;
      } else {
        assert bufs[i] == None;
      }
    } else {
      forall i | 0 <= i < NUM_RXBDS ensures !bd[i].empty && bufs[i] != None && !bd[i].last {
        var k := if i >= head then i - head else i + NUM_RXBDS - head;
        assert Pos(head, k) == i;
      }
    }
  }

  /** Why frames must fit: unless the hardware or the pool changes the ring, the scan of
      mcf5272fec_rx goes round for ever if and only if all 64 slots are filled with fragments of one
      unfinished frame. In that state neither can: no descriptor is empty and no slot lacks a buffer. */
  lemma ScanStopsUnlessFrameTooLong(bd: seq<RxBd>, bufs: seq<Option<nat>>, head: nat, n: nat, frags: seq<Fragment>)
    requires Flagged(bd, head, n, frags) && Buffered(bufs, head, 0, n, frags)
    ensures |bd| == |bufs| == NUM_RXBDS && head < NUM_RXBDS
    ensures (forall rounds: nat :: ScanAfter(bd, bufs, head, rounds).Some?) <==> LastIndex(frags) == NUM_RXBDS
    ensures LastIndex(frags) == NUM_RXBDS ==> |frags| == n == NUM_RXBDS
    ensures LastIndex(frags) == NUM_RXBDS ==> Stuck(bd, bufs)
  {
    hide Flagged, Buffered, Stuck;
    StuckMeansFull(bd, bufs, head, n, frags);
    if Stuck(bd, bufs) {
      forall rounds: nat ensures ScanAfter(bd, bufs, head, rounds).Some? {
        StuckGoesRound(bd, bufs, head, rounds);
      }
    } else {
      var rounds := NUM_RXBDS;
      if ScanAfter(bd, bufs, head, rounds).Some? {
        OnceRoundIsStuck(bd, bufs, head);
      }
      assert !ScanAfter(bd, bufs, head, rounds).Some?;
    }
  }

  lemma OnceRoundIsStuck(bd: seq<RxBd>, bufs: seq<Option<nat>>, sof: nat)
    requires |bd| == |bufs| == NUM_RXBDS && sof < NUM_RXBDS && ScanAfter(bd, bufs, sof, NUM_RXBDS).Some?
    ensures Stuck(bd, bufs)
  {
    ScanMoves(bd, bufs, sof, NUM_RXBDS);
    forall i | 0 <= i < NUM_RXBDS ensures !bd[i].empty && bufs[i] != None && !bd[i].last {
      var k := if i >= sof then i - sof else i + NUM_RXBDS - sof;
      assert ScanRound(bd, bufs, Pos(sof, k)).Some?;
    }
  }

  /** There is such a ring: 64 fragments that end no frame. */
  lemma FrameTooLong() returns (bd: seq<RxBd>, bufs: seq<Option<nat>>, frags: seq<Fragment>)
    ensures Flagged(bd, 0, NUM_RXBDS, frags) && Buffered(bufs, 0, 0, NUM_RXBDS, frags)
    ensures LastIndex(frags) == NUM_RXBDS && forall rounds: nat :: ScanAfter(bd, bufs, 0, rounds).Some?
  {
    frags := seq(NUM_RXBDS, _ => Fragment(0, false, false, 1));
    bd := seq(NUM_RXBDS, i => RxBd(false, false, i == NUM_RXBDS - 1, false, 1));
    bufs := seq(NUM_RXBDS, _ => Some(0));
    ScanStopsUnlessFrameTooLong(bd, bufs, 0, NUM_RXBDS, frags);
  }
}

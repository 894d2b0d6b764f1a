/** The transmit side of the MCF5272 driver: a ring of descriptors that the driver fills, the
    DMA hardware works off at any moment, and a task cleans up. */
module FecTransmit {
  import opened Common
  import Ring

  const NUM_TXBDS := 32

  /** One buffer of a chain; a frame is a chain. */
  datatype Pbuf = Pbuf(id: nat, len: nat)
  type Frame = seq<Pbuf>

  /** struct txbd: the ready, last and wrap bits and the buffer it points to. */
  datatype TxBd = TxBd(ready: bool, last: bool, wrap: bool, buf: Option<Pbuf>)

  function Inc(i: nat): nat {
    Ring.Inc(NUM_TXBDS, i)
  }

  function Dec(i: nat): nat {
    Ring.Dec(NUM_TXBDS, i)
  }

  /** The slot `k` places after `head`. */
  function Pos(head: nat, k: nat): (i: nat)
    requires head < NUM_TXBDS && k <= NUM_TXBDS
    ensures i < NUM_TXBDS
  {
    Ring.Pos(NUM_TXBDS, head, k)
  }

  // ----- What is in the ring -----

  /** The buffers of the frames, one after the other. */
  function Slots(live: seq<Frame>): seq<Pbuf> {
    if live == [] then [] else live[0] + Slots(live[1..])
  }

  /** The last descriptor of a frame, and only that, is marked. */
  function FrameMarks(frame: Frame): (m: seq<bool>)
    ensures |m| == |frame|
  {
    seq(|frame|, k => k == |frame| - 1)
  }

  /** Which of them end a frame. */
  function Marks(live: seq<Frame>): (m: seq<bool>)
    ensures |m| == |Slots(live)|
  {
    if live == [] then [] else FrameMarks(live[0]) + Marks(live[1..])
  }

  ghost predicate NoEmptyFrame(live: seq<Frame>) {
    forall f :: f in live ==> f != []
  }

  lemma {:induction false} SlotsAppend(live: seq<Frame>, f: Frame)
    ensures Slots(live + [f]) == Slots(live) + f
    ensures Marks(live + [f]) == Marks(live) + FrameMarks(f)
  {
    if live == [] {
      assert (live + [f])[1..] == [];
    } else {
      assert (live + [f])[1..] == live[1..] + [f];
      SlotsAppend(live[1..], f);
    }
  }

  lemma {:induction false} LastMark(live: seq<Frame>)
    requires NoEmptyFrame(live) && live != []
    ensures |Slots(live)| > 0 && Marks(live)[|Slots(live)| - 1]
  {
    assert live[0] in live;
    if |live| > 1 {
      forall f | f in live[1..] ensures f != [] {
        assert f in live;
      }
      LastMark(live[1..]);
    } else {
      assert live[1..] == [];
    }
  }

  // ----- The arrays -----

  /** The buffer array holds the slots from `head` on and nothing else. */
  ghost predicate Holds(pbufs: seq<Option<Pbuf>>, head: nat, slots: seq<Pbuf>) {
    && |pbufs| == NUM_TXBDS && head < NUM_TXBDS && |slots| <= NUM_TXBDS
    && (forall k :: 0 <= k < |slots| ==> pbufs[Pos(head, k)] == Some(slots[k]))
    && (forall k :: |slots| <= k < NUM_TXBDS ==> pbufs[Pos(head, k)] == None)
  }

  /** The descriptors: `done` of them have been transmitted, the others are ready with their
      buffers, except that those from `lo` up to `hi` are not published yet. */
  ghost predicate Flagged(bd: seq<TxBd>, head: nat, slots: seq<Pbuf>, marks: seq<bool>, done: nat, lo: nat, hi: nat) {
    && |bd| == NUM_TXBDS && head < NUM_TXBDS && |slots| == |marks| <= NUM_TXBDS
    && done <= lo <= hi <= |slots|
    && (forall i :: 0 <= i < NUM_TXBDS ==> (bd[i].wrap <==> i == NUM_TXBDS - 1))
    && (forall k :: 0 <= k < NUM_TXBDS ==>
          (bd[Pos(head, k)].ready <==> k < |slots| && done <= k && !(lo <= k < hi)))
    && (forall k :: 0 <= k < |slots| && !(lo <= k < hi) ==> bd[Pos(head, k)].last == marks[k])
    && (forall k :: done <= k < |slots| ==> bd[Pos(head, k)].buf == Some(slots[k]))
  }

  /** Up to `lo` there are whole frames. */
  ghost predicate WholeFrames(marks: seq<bool>, lo: nat) {
    lo <= |marks| && (lo > 0 ==> marks[lo - 1])
  }

  /** The hardware transmits a ready descriptor. */
  lemma TransmitOne(bd: seq<TxBd>, head: nat, slots: seq<Pbuf>, marks: seq<bool>, done: nat, lo: nat, hi: nat)
    requires Flagged(bd, head, slots, marks, done, lo, hi) && (lo < hi || lo == |slots|)
    requires bd[Pos(head, done)].ready
    ensures done < |slots| && done < lo
    ensures Flagged(bd[Pos(head, done) := bd[Pos(head, done)].(ready := false)], head, slots, marks, done + 1, lo, hi)
    ensures bd[Pos(head, done)].buf == Some(slots[done])
    ensures Pos(head, done + 1) == if bd[Pos(head, done)].wrap then 0 else Pos(head, done) + 1
  {
    assert Pos(head, NUM_TXBDS) == Pos(head, 0);
    var i := Pos(head, done);
    var after := bd[i := bd[i].(ready := false)];
    forall k | 0 <= k < NUM_TXBDS
      ensures after[Pos(head, k)].ready <==> k < |slots| && done + 1 <= k && !(lo <= k < hi)
    {
      assert k != done ==> Pos(head, k) != i;
    }
  }

  /** A frame is published before its first descriptor is: when the hardware finds a descriptor
      ready, everything up to the end of that frame is. */
  lemma FrameIsReady(bd: seq<TxBd>, head: nat, slots: seq<Pbuf>, marks: seq<bool>, done: nat, lo: nat, hi: nat, k: nat)
    requires Flagged(bd, head, slots, marks, done, lo, hi) && WholeFrames(marks, lo)
    requires done < |slots| && bd[Pos(head, done)].ready
    requires done <= k < |slots| && forall j :: done <= j < k ==> !marks[j]
    ensures bd[Pos(head, k)].ready
  {
  }

  /** Setting the flags of the descriptor before the published part of a new frame. */
  lemma PublishOne(bd: seq<TxBd>, head: nat, slots: seq<Pbuf>, marks: seq<bool>, done: nat, lo: nat, hi: nat)
    requires Flagged(bd, head, slots, marks, done, lo, hi) && lo < hi
    ensures var i := Pos(head, hi - 1);
            Flagged(bd[i := bd[i].(ready := true, last := marks[hi - 1])], head, slots, marks, done, lo, hi - 1)
  {
  }

  lemma Published(bd: seq<TxBd>, head: nat, slots: seq<Pbuf>, marks: seq<bool>, done: nat, lo: nat)
    requires Flagged(bd, head, slots, marks, done, lo, lo)
    ensures Flagged(bd, head, slots, marks, done, |slots|, |slots|)
  {
  }

  /** A frame taken off the front leaves the rest as it was, counted from the next slot. */
  lemma RemovedFlags(bd: seq<TxBd>, head: nat, slots: seq<Pbuf>, marks: seq<bool>, done: nat, n: nat)
    requires Flagged(bd, head, slots, marks, done, |slots|, |slots|) && n <= done
    ensures Flagged(bd, Pos(head, n), slots[n..], marks[n..], done - n, |slots| - n, |slots| - n)
  {
    var next := Pos(head, n);
    forall k | 0 <= k < NUM_TXBDS
      ensures Pos(next, k) == if n + k < NUM_TXBDS then Pos(head, n + k) else Pos(head, n + k - NUM_TXBDS)
    {
    }
  }

  lemma RemovedSlots(pbufs: seq<Option<Pbuf>>, head: nat, slots: seq<Pbuf>, n: nat)
    requires |pbufs| == NUM_TXBDS && head < NUM_TXBDS && n <= |slots| <= NUM_TXBDS
    requires forall k :: n <= k < |slots| ==> pbufs[Pos(head, k)] == Some(slots[k])
    requires forall k :: 0 <= k < n || |slots| <= k < NUM_TXBDS ==> pbufs[Pos(head, k)] == None
    ensures Holds(pbufs, Pos(head, n), slots[n..])
  {
    var next := Pos(head, n);
    forall k | 0 <= k < NUM_TXBDS
      ensures Pos(next, k) == if n + k < NUM_TXBDS then Pos(head, n + k) else Pos(head, n + k - NUM_TXBDS)
    {
    }
  }

  /** The head buffers of the frames: what pbuf_free is to be called with. */
  function Heads(frames: seq<Frame>): seq<Pbuf> {
    if frames == [] then [] else (if frames[0] == [] then [] else [frames[0][0]]) + Heads(frames[1..])
  }

  /** Accepted frames are freed or in the ring; the freed ones first, in order, each once and by
      its head; and the hardware has transmitted all of those and `done` buffers of the others. */
  ghost predicate Log(accepted: seq<Frame>, live: seq<Frame>, freed: seq<Pbuf>, sent: seq<Pbuf>, done: nat)
    requires done <= |Slots(live)|
  {
    exists gone :: accepted == gone + live && freed == Heads(gone) && sent == Slots(gone) + Slots(live)[..done]
  }

  lemma LogEntered(accepted: seq<Frame>, live: seq<Frame>, freed: seq<Pbuf>, sent: seq<Pbuf>, done: nat,
                   frame: Frame, later: nat, after: seq<Pbuf>)
    requires done <= |Slots(live)| && Log(accepted, live, freed, sent, done)
    requires Sent(sent, Slots(live) + frame, done, later, after)
    ensures later <= |Slots(live + [frame])| && Log(accepted + [frame], live + [frame], freed, after, later)
  {
    SlotsAppend(live, frame);
    var gone :| accepted == gone + live && freed == Heads(gone) && sent == Slots(gone) + Slots(live)[..done];
    hide Slots, Heads;
    assert accepted + [frame] == gone + (live + [frame]);
    SentPrefix(Slots(gone), Slots(live), frame, done, sent, later, after);
  }

  lemma SentPrefix(gone: seq<Pbuf>, slots: seq<Pbuf>, frame: Frame, done: nat, sent: seq<Pbuf>, later: nat,
                   after: seq<Pbuf>)
    requires done <= |slots| && sent == gone + slots[..done] && Sent(sent, slots + frame, done, later, after)
    ensures after == gone + (slots + frame)[..later]
  {
  }

  lemma WholeRing(live: seq<Frame>)
    requires NoEmptyFrame(live)
    ensures WholeFrames(Marks(live), |Slots(live)|)
  {
    if live != [] {
      LastMark(live);
    }
  }

  datatype Err = ErrOk | ErrMem

  /** Every accepted frame's head is freed at most once and in the order of acceptance, and what
      the hardware has sent is what was accepted, buffer by buffer. */
  lemma LogMeans(accepted: seq<Frame>, live: seq<Frame>, freed: seq<Pbuf>, sent: seq<Pbuf>, done: nat)
    requires done <= |Slots(live)| && Log(accepted, live, freed, sent, done)
    ensures freed <= Heads(accepted) && sent <= Slots(accepted)
    ensures accepted[|accepted| - |live|..] == live && freed == Heads(accepted[..|accepted| - |live|])
  {
    hide Slots, Heads;
    var gone :| accepted == gone + live && freed == Heads(gone) && sent == Slots(gone) + Slots(live)[..done];
    HeadsConcat(gone, live);
    SlotsConcat(gone, live);
    assert accepted[..|accepted| - |live|] == gone;
  }

  lemma {:induction false} HeadsConcat(a: seq<Frame>, b: seq<Frame>)
    ensures Heads(a + b) == Heads(a) + Heads(b)
  {
    if a == [] {
      assert a + b == b;
    } else {
      assert (a + b)[1..] == a[1..] + b;
      HeadsConcat(a[1..], b);
    }
  }

  lemma {:induction false} SlotsConcat(a: seq<Frame>, b: seq<Frame>)
    ensures Slots(a + b) == Slots(a) + Slots(b)
  {
    if a == [] {
      assert a + b == b;
    } else {
      assert (a + b)[1..] == a[1..] + b;
      SlotsConcat(a[1..], b);
    }
  }

  lemma NoSlots()
    ensures Slots([]) == [] && Marks([]) == []
  {
  }

  /** Of the first frame, the slots from `m` on have been emptied. */
  ghost predicate Clearing(pbufs: seq<Option<Pbuf>>, head: nat, slots: seq<Pbuf>, m: nat, n: nat) {
    && |pbufs| == NUM_TXBDS && head < NUM_TXBDS && m <= n <= |slots| <= NUM_TXBDS
    && (forall k :: 0 <= k < m || n <= k < |slots| ==> pbufs[Pos(head, k)] == Some(slots[k]))
    && (forall k :: m <= k < n || |slots| <= k < NUM_TXBDS ==> pbufs[Pos(head, k)] == None)
  }

  lemma ClearingBegins(pbufs: seq<Option<Pbuf>>, head: nat, slots: seq<Pbuf>, n: nat)
    requires Holds(pbufs, head, slots) && n <= |slots|
    ensures Clearing(pbufs, head, slots, n, n)
  {
  }

  lemma ClearingEnds(pbufs: seq<Option<Pbuf>>, head: nat, slots: seq<Pbuf>, n: nat)
    requires Clearing(pbufs, head, slots, 0, n)
    ensures Holds(pbufs, Pos(head, n), slots[n..])
  {
    RemovedSlots(pbufs, head, slots, n);
  }

  lemma ClearUnseen(bd: seq<TxBd>, head: nat, slots: seq<Pbuf>, marks: seq<bool>, done: nat, k: nat)
    requires Flagged(bd, head, slots, marks, done, |slots|, |slots|) && k < done
    ensures var i := Pos(head, k); Flagged(bd[i := bd[i].(buf := None)], head, slots, marks, done, |slots|, |slots|)
  {
  }

  lemma NoEmptyTail(frames: seq<Frame>)
    requires NoEmptyFrame(frames) && frames != []
    ensures frames[0] != [] && NoEmptyFrame(frames[1..])
  {
    assert frames[0] in frames;
    forall f | f in frames[1..] ensures f != [] {
      assert f in frames;
    }
  }

  lemma FirstFrame(live: seq<Frame>)
    requires NoEmptyFrame(live) && live != []
    ensures live[0] != [] && NoEmptyFrame(live[1..])
    ensures |live[0]| <= |Slots(live)| && Slots(live)[..|live[0]|] == live[0]
    ensures Slots(live)[|live[0]|..] == Slots(live[1..])
    ensures Marks(live)[|live[0]|..] == Marks(live[1..])
    ensures forall k :: 0 <= k < |live[0]| ==> Marks(live)[k] == (k == |live[0]| - 1)
  {
    NoEmptyTail(live);
  }

  lemma LogSent(accepted: seq<Frame>, live: seq<Frame>, freed: seq<Pbuf>, sent: seq<Pbuf>, done: nat, later: nat,
                after: seq<Pbuf>)
    requires done <= |Slots(live)| && Log(accepted, live, freed, sent, done)
    requires Sent(sent, Slots(live), done, later, after)
    ensures later <= |Slots(live)| && Log(accepted, live, freed, after, later)
  {
  }

  lemma LogFreed(accepted: seq<Frame>, live: seq<Frame>, freed: seq<Pbuf>, sent: seq<Pbuf>, done: nat)
    requires NoEmptyFrame(live) && live != [] && |live[0]| <= done <= |Slots(live)| && live[0] != []
    requires Log(accepted, live, freed, sent, done)
    ensures done - |live[0]| <= |Slots(live[1..])|
    ensures Log(accepted, live[1..], freed + [live[0][0]], sent, done - |live[0]|)
  {
    hide Slots, Heads, Marks;
    FirstFrame(live);
    var gone :| accepted == gone + live && freed == Heads(gone) && sent == Slots(gone) + Slots(live)[..done];
    var f := live[0];
    SlotsAppend(gone, f);
    HeadsAppend(gone, f);
    assert accepted == (gone + [f]) + live[1..];
    assert Slots(live)[..done] == f + Slots(live[1..])[..done - |f|];
    assert sent == (Slots(gone) + f) + Slots(live[1..])[..done - |f|];
  }

  lemma HeadsStep(frame: Frame, rest: seq<Frame>)
    ensures Heads([frame] + rest) == (if frame == [] then [] else [frame[0]]) + Heads(rest)
  {
    assert ([frame] + rest)[1..] == rest;
  }

  lemma {:induction false} HeadsAppend(frames: seq<Frame>, f: Frame)
    requires f != []
    ensures Heads(frames + [f]) == Heads(frames) + [f[0]]
  {
    if frames == [] {
      HeadsStep(f, []);
      assert frames + [f] == [f] + [];
    } else {
      HeadsAppend(frames[1..], f);
      HeadsStep(frames[0], frames[1..]);
      HeadsStep(frames[0], frames[1..] + [f]);
      assert frames == [frames[0]] + frames[1..];
      assert frames + [f] == [frames[0]] + (frames[1..] + [f]);
    }
  }

  /** From one moment to a later one: more has been accepted, `gone` has left the ring at its front and
      been freed, head by head, and the rest is in it. */
  ghost predicate Moved(accepted: seq<Frame>, live: seq<Frame>, freed: seq<Pbuf>, gone: seq<Frame>,
                        accepted': seq<Frame>, live': seq<Frame>, freed': seq<Pbuf>)
  {
    && accepted <= accepted' && live + accepted'[|accepted|..] == gone + live'
    && freed' == freed + Heads(gone)
  }

  lemma MovedNowhere(accepted: seq<Frame>, live: seq<Frame>, freed: seq<Pbuf>)
    ensures Moved(accepted, live, freed, [], accepted, live, freed)
  {
    assert live + accepted[|accepted|..] == [] + live;
    assert Heads([]) == [];
  }

  lemma MovedIn(accepted: seq<Frame>, live: seq<Frame>, freed: seq<Pbuf>, gone: seq<Frame>,
                accepted': seq<Frame>, live': seq<Frame>, freed': seq<Pbuf>, more: seq<Frame>)
    requires Moved(accepted, live, freed, gone, accepted', live', freed')
    ensures Moved(accepted, live, freed, gone, accepted' + more, live' + more, freed')
  {
    assert live + (accepted' + more)[|accepted|..] == live + accepted'[|accepted|..] + more;
  }

  lemma MovedOut(accepted: seq<Frame>, live: seq<Frame>, freed: seq<Pbuf>, gone: seq<Frame>,
                 accepted': seq<Frame>, live': seq<Frame>, freed': seq<Pbuf>)
    requires Moved(accepted, live, freed, gone, accepted', live', freed') && live' != [] && live'[0] != []
    ensures Moved(accepted, live, freed, gone + [live'[0]], accepted', live'[1..], freed' + [live'[0][0]])
  {
    hide Heads;
    HeadsAppend(gone, live'[0]);
    assert gone + live' == gone + [live'[0]] + live'[1..];
  }

  lemma MovedFurther(accepted: seq<Frame>, live: seq<Frame>, freed: seq<Pbuf>, gone: seq<Frame>,
                     accepted1: seq<Frame>, live1: seq<Frame>, freed1: seq<Pbuf>, gone1: seq<Frame>,
                     accepted2: seq<Frame>, live2: seq<Frame>, freed2: seq<Pbuf>)
    requires Moved(accepted, live, freed, gone, accepted1, live1, freed1)
    requires Moved(accepted1, live1, freed1, gone1, accepted2, live2, freed2)
    ensures Moved(accepted, live, freed, gone + gone1, accepted2, live2, freed2)
  {
    hide Heads;
    HeadsConcat(gone, gone1);
    var more := accepted2[|accepted1|..];
    assert live + accepted2[|accepted|..] == live + accepted1[|accepted|..] + more == gone + live1 + more;
    assert gone + live1 + more == gone + (live1 + more) == gone + gone1 + live2;
  }

  lemma WholeBefore(marks: seq<bool>, frame: Frame)
    requires WholeFrames(marks, |marks|)
    ensures WholeFrames(marks + FrameMarks(frame), |marks|)
  {
  }

  lemma WholeAtEnd(marks: seq<bool>, frame: Frame)
    requires frame != []
    ensures WholeFrames(marks + FrameMarks(frame), |marks| + |frame|)
  {
  }

  /** The hardware has gone from the `a`-th to the `c`-th slot and sent what lies between. */
  ghost predicate Sent(before: seq<Pbuf>, slots: seq<Pbuf>, a: nat, c: nat, after: seq<Pbuf>) {
    a <= c <= |slots| && after == before + slots[a..c]
  }

  lemma SentFurther(before: seq<Pbuf>, slots: seq<Pbuf>, a: nat, b: nat, mid: seq<Pbuf>, c: nat, after: seq<Pbuf>)
    requires Sent(before, slots, a, b, mid) && Sent(mid, slots, b, c, after)
    ensures Sent(before, slots, a, c, after)
  {
  }

  lemma SentIsMore(before: seq<Pbuf>, slots: seq<Pbuf>, a: nat, c: nat, after: seq<Pbuf>)
    requires Sent(before, slots, a, c, after)
    ensures before <= after
  {
  }

  lemma SentNothing(before: seq<Pbuf>, slots: seq<Pbuf>, a: nat)
    requires a <= |slots|
    ensures Sent(before, slots, a, a, before)
  {
  }

  lemma SentOne(before: seq<Pbuf>, slots: seq<Pbuf>, a: nat, b: nat, mid: seq<Pbuf>)
    requires Sent(before, slots, a, b, mid) && b < |slots|
    ensures Sent(before, slots, a, b + 1, mid + [slots[b]])
  {
  }

  /** Slots added at the end make no difference. */
  lemma SentAmongMore(before: seq<Pbuf>, slots: seq<Pbuf>, more: seq<Pbuf>, a: nat, c: nat, after: seq<Pbuf>)
    requires Sent(before, slots, a, c, after)
    ensures Sent(before, slots + more, a, c, after)
  {
  }

  /** The log after a frame has entered, while some were sent before and some after. */
  lemma LogPublished(accepted: seq<Frame>, live: seq<Frame>, freed: seq<Pbuf>, start: seq<Pbuf>, a: nat,
                     frame: Frame, b: nat, mid: seq<Pbuf>, c: nat, after: seq<Pbuf>)
    requires a <= |Slots(live)| && Log(accepted, live, freed, start, a)
    requires Sent(start, Slots(live), a, b, mid) && Sent(mid, Slots(live) + frame, b, c, after)
    ensures c <= |Slots(live + [frame])| && Log(accepted + [frame], live + [frame], freed, after, c)
  {
    hide Slots, Sent, Log;
    SentAmongMore(start, Slots(live), frame, a, b, mid);
    SentFurther(start, Slots(live) + frame, a, b, mid, c, after);
    LogEntered(accepted, live, freed, start, a, frame, c, after);
  }

  lemma PlaceOne(pbufs: seq<Option<Pbuf>>, head: nat, slots: seq<Pbuf>, q: Pbuf)
    requires Holds(pbufs, head, slots) && |slots| < NUM_TXBDS
    ensures Holds(pbufs[Pos(head, |slots|) := Some(q)], head, slots + [q])
  {
  }

  lemma PlaceUnseen(bd: seq<TxBd>, head: nat, slots: seq<Pbuf>, marks: seq<bool>, done: nat, q: nat, p: Pbuf)
    requires Flagged(bd, head, slots, marks, done, |slots|, |slots|) && |slots| + q < NUM_TXBDS
    ensures var i := Pos(head, |slots| + q);
            Flagged(bd[i := bd[i].(buf := Some(p))], head, slots, marks, done, |slots|, |slots|)
  {
  }

  lemma FlaggedBounds(bd: seq<TxBd>, head: nat, slots: seq<Pbuf>, marks: seq<bool>, done: nat, lo: nat, hi: nat)
    requires Flagged(bd, head, slots, marks, done, lo, hi)
    ensures done <= lo <= |slots| == |marks| <= NUM_TXBDS && head < NUM_TXBDS
  {
  }

  /** The transmit half of struct mcf5272if, the hardware that shares the ring, and what has
      happened so far. */
  class FecTx {
    const bd: array<TxBd>
    const pbufs: array<Option<Pbuf>>
    var txInsert: nat
    var txRemove: nat
    var txFree: nat
    /** The hardware's own place in the ring, and every buffer it has transmitted. */
    var hw: nat
    var sent: seq<Pbuf>
    /** Frames taken from callers; heads of chains given to pbuf_free. */
    ghost var accepted: seq<Frame>
    var freed: seq<Pbuf>
    /** The ring as a queue: where it starts, its frames, how many descriptors are done. */
    ghost var head: nat
    ghost var live: seq<Frame>
    ghost var done: nat

    ghost predicate Indexed()
      reads this
    {
      && bd.Length == pbufs.Length == NUM_TXBDS && head < NUM_TXBDS
      && |Slots(live)| + txFree == NUM_TXBDS && done <= |Slots(live)|
      && txInsert == Pos(head, |Slots(live)|) && hw == Pos(head, done)
      && NoEmptyFrame(live)
    }

    ghost predicate Logged()
      reads this
    {
      done <= |Slots(live)| && Log(accepted, live, freed, sent, done)
    }

    /** Between the protected sections; the clean-up task may be part way through the ring. */
    ghost predicate Steady()
      reads this, bd, pbufs
    {
      && Indexed() && Logged()
      && Holds(pbufs[..], head, Slots(live))
      && Flagged(bd[..], head, Slots(live), Marks(live), done, |Slots(live)|, |Slots(live)|)
    }

    ghost predicate Valid()
      reads this, bd, pbufs
    {
      Steady() && txRemove == head
    }

    /** The descriptor rings as enable_fec leaves them. */
    constructor ()
      ensures Valid() && fresh(bd) && fresh(pbufs) && accepted == live == [] && freed == sent == []
      ensures txFree == NUM_TXBDS && forall i :: 0 <= i < NUM_TXBDS ==> !bd[i].ready && pbufs[i] == None
    {
      bd := new TxBd[NUM_TXBDS](i => TxBd(false, false, i == NUM_TXBDS - 1, None));
      pbufs := new Option<Pbuf>[NUM_TXBDS](_ => None);
      txInsert, txRemove, txFree := 0, 0, NUM_TXBDS;
      hw, sent, accepted, freed := 0, [], [], [];
      head, live, done := 0, [], 0;
    }

    /** The hardware looks at its next descriptor, at any moment of any operation. If that is ready
        then so is every one after it up to the end of the frame: no frame is ever started
        before all of it has been handed over. */
    method Look(ghost slots: seq<Pbuf>, ghost marks: seq<bool>, ghost lo: nat, ghost hi: nat) returns (found: bool)
      requires bd.Length == NUM_TXBDS && Flagged(bd[..], head, slots, marks, done, lo, hi) && hw == Pos(head, done)
      requires (lo < hi || lo == |slots|) && WholeFrames(marks, lo) && |marks| == |slots|
      ensures found == bd[hw].ready && (found ==> done < |slots|)
      ensures found ==> forall k :: done <= k < |slots| && (forall j :: done <= j < k ==> !marks[j]) ==>
              bd[Pos(head, k)].ready
    {
      hide Flagged, WholeFrames;
      FlaggedBounds(bd[..], head, slots, marks, done, lo, hi);
      found := bd[hw].ready;
      if found {
        assert bd[..][hw].ready;
        TransmitOne(bd[..], head, slots, marks, done, lo, hi);
        forall k | done <= k < |slots| && (forall j :: done <= j < k ==> !marks[j]) ensures bd[Pos(head, k)].ready {
          FrameIsReady(bd[..], head, slots, marks, done, lo, hi, k);
          assert bd[..][Pos(head, k)].ready;
        }
      }
    }

    /** The hardware transmits as many descriptors as it likes and finds ready; while a frame is
        being entered, those from `lo` up to `hi` are not. */
    method Hardware(ghost slots: seq<Pbuf>, ghost marks: seq<bool>, ghost lo: nat, ghost hi: nat)
      requires bd.Length == NUM_TXBDS && Flagged(bd[..], head, slots, marks, done, lo, hi) && hw == Pos(head, done)
      requires lo < hi || lo == |slots|
      requires WholeFrames(marks, lo) && |marks| == |slots|
      modifies bd, this`hw, this`sent, this`done
      ensures old(done) <= done <= lo
      ensures Flagged(bd[..], head, slots, marks, done, lo, hi) && hw == Pos(head, done)
      ensures Sent(old(sent), slots, old(done), done, sent)
      ensures forall i :: 0 <= i < NUM_TXBDS ==> bd[i].buf == old(bd[i].buf)
    {
      hide Flagged, WholeFrames, Sent;
      FlaggedBounds(bd[..], head, slots, marks, done, lo, hi);
      SentNothing(sent, slots, done);
      var found := Look(slots, marks, lo, hi);
      var busy := *;
      while busy && found
        invariant old(done) <= done <= |slots| && done <= lo && head < NUM_TXBDS && |slots| <= NUM_TXBDS
        invariant Flagged(bd[..], head, slots, marks, done, lo, hi) && hw == Pos(head, done)
        invariant Sent(old(sent), slots, old(done), done, sent)
        invariant found ==> bd[hw].ready
        invariant forall i :: 0 <= i < NUM_TXBDS ==> bd[i].buf == old(bd[i].buf)
        decreases |slots| - done
      {
        TransmitOne(bd[..], head, slots, marks, done, lo, hi);
        ghost var before := bd[..];
        assert before[hw] == bd[hw];
        SentOne(old(sent), slots, old(done), done, sent);
        sent := sent + [bd[hw].buf.value];
        var wrap := bd[hw].wrap;
        bd[hw] := bd[hw].(ready := false);
        assert bd[..] == before[hw := before[hw].(ready := false)];
        hw := if wrap then 0 else hw + 1;
        done := done + 1;
        found := Look(slots, marks, lo, hi);
        busy := *;
      }
    }

    /** low_level_output. The buffers go in first, then the flags from the last descriptor back to
        the first; the hardware may run between any two of these writes. */
    method LowLevelOutput(frame: Frame) returns (err: Err)
      requires Steady() && frame != []
      modifies this`txFree, this`txInsert, this`hw, this`sent, this`accepted, this`live, this`done, bd, pbufs
      ensures Steady() && old(done) <= done && old(sent) <= sent
      ensures err == ErrMem <==> |frame| > old(txFree)
      ensures err == ErrMem ==> live == old(live) && accepted == old(accepted) && txFree == old(txFree)
      ensures err == ErrOk ==> live == old(live) + [frame] && accepted == old(accepted) + [frame]
    {
      hide Flagged, WholeFrames, Holds, Slots, Marks, Heads, Sent, Log, Placing;
      var numDesc := |frame|;
      if numDesc > txFree {
        return ErrMem;
      }
      WholeRing(live);
      PlacingBegins(Slots(live), Marks(live), frame);
      ghost var slots := Slots(live);
      var eof := PlaceBuffers(frame, slots, Marks(live));
      SentIsMore(old(sent), slots, old(done), done, sent);
      Publish(eof, frame, old(done), old(sent));
      return ErrOk;
    }

    /** Everything after the buffers are in: the flags, the insert index, and the frame is live. */
    method Publish(eof: nat, frame: Frame, ghost doneAtStart: nat, ghost sentAtStart: seq<Pbuf>)
      requires frame != [] && head < NUM_TXBDS && bd.Length == pbufs.Length == NUM_TXBDS
      requires |Slots(live)| + |frame| + txFree == NUM_TXBDS && NoEmptyFrame(live)
      requires doneAtStart <= done <= |Slots(live)| && hw == Pos(head, done) && txInsert == Pos(head, |Slots(live)|)
      requires eof == Pos(head, |Slots(live)| + |frame| - 1) && WholeFrames(Marks(live), |Slots(live)|)
      requires Sent(sentAtStart, Slots(live), doneAtStart, done, sent)
      requires Log(accepted, live, freed, sentAtStart, doneAtStart)
      requires Placing(Slots(live), Marks(live), frame, |frame|)
      modifies this`txInsert, this`hw, this`sent, this`accepted, this`live, this`done, bd
      ensures Steady() && old(done) <= done && old(sent) <= sent
      ensures live == old(live) + [frame] && accepted == old(accepted) + [frame]
    {
      hide Flagged, WholeFrames, Holds, Slots, Marks, Heads, Sent, Log, Placing;
      ghost var slots, marks := Slots(live), Marks(live);
      ghost var doneBefore, sentBefore := done, sent;
      PlacingEnds(slots, marks, frame);
      SetFlags(eof, frame, slots, marks);
      txInsert := Inc(eof);
      SlotsAppend(live, frame);
      LogPublished(accepted, live, freed, sentAtStart, doneAtStart, frame, doneBefore, sentBefore, done, sent);
      SentIsMore(sentBefore, slots + frame, doneBefore, done, sent);
      live, accepted := live + [frame], accepted + [frame];
    }

    /** The first loop: occupy the slots without telling the hardware. */
    method PlaceBuffers(frame: Frame, ghost slots: seq<Pbuf>, ghost marks: seq<bool>) returns (eof: nat)
      requires bd.Length == pbufs.Length == NUM_TXBDS && head < NUM_TXBDS && 0 < |frame| <= txFree
      requires |slots| + txFree == NUM_TXBDS && done <= |slots| && txInsert == Pos(head, |slots|)
      requires hw == Pos(head, done)
      requires Placing(slots, marks, frame, 0) && WholeFrames(marks, |slots|)
      modifies this`txFree, this`hw, this`sent, this`done, bd, pbufs
      ensures txFree == old(txFree) - |frame| && eof == Pos(head, |slots| + |frame| - 1)
      ensures old(done) <= done <= |slots| && hw == Pos(head, done) && Sent(old(sent), slots, old(done), done, sent)
      ensures Placing(slots, marks, frame, |frame|)
    {
      hide WholeFrames, Sent, Placing;
      SentNothing(sent, slots, done);
      eof := txInsert;
      var q := 0;
      while true
        invariant q < |frame| && eof == Pos(head, |slots| + q) && txFree == old(txFree) - q
        invariant old(done) <= done <= |slots| && hw == Pos(head, done) && Sent(old(sent), slots, old(done), done, sent)
        invariant Placing(slots, marks, frame, q)
        decreases |frame| - q
      {
        ghost var sentBefore, doneBefore := sent, done;
        PlaceBuffer(eof, frame, q, slots, marks);
        SentFurther(old(sent), slots, old(done), doneBefore, sentBefore, done, sent);
        q := q + 1;
        if q == |frame| {
          break;
        }
        eof := Inc(eof);
      }
    }

    /** `q` buffers of the frame are in their slots, behind the published ones. */
    ghost predicate Placing(slots: seq<Pbuf>, marks: seq<bool>, frame: Frame, q: nat)
      reads this`head, this`done, bd, pbufs
    {
      && bd.Length == pbufs.Length == NUM_TXBDS && head < NUM_TXBDS && q <= |frame| && |slots| + q <= NUM_TXBDS
      && Holds(pbufs[..], head, slots + frame[..q])
      && Flagged(bd[..], head, slots, marks, done, |slots|, |slots|)
      && (forall j :: 0 <= j < q ==> bd[Pos(head, |slots| + j)].buf == Some(frame[j]))
    }

    lemma PlacingBegins(slots: seq<Pbuf>, marks: seq<bool>, frame: Frame)
      requires bd.Length == pbufs.Length == NUM_TXBDS
      requires Holds(pbufs[..], head, slots) && Flagged(bd[..], head, slots, marks, done, |slots|, |slots|)
      ensures Placing(slots, marks, frame, 0)
    {
    }

    lemma PlacingEnds(slots: seq<Pbuf>, marks: seq<bool>, frame: Frame)
      requires Placing(slots, marks, frame, |frame|)
      ensures Holds(pbufs[..], head, slots + frame)
      ensures Flagged(bd[..], head, slots + frame, marks + FrameMarks(frame), done, |slots|, |slots| + |frame|)
    {
    }

    method PlaceBuffer(eof: nat, frame: Frame, q: nat, ghost slots: seq<Pbuf>, ghost marks: seq<bool>)
      requires Placing(slots, marks, frame, q) && q < |frame| && |slots| + q < NUM_TXBDS && WholeFrames(marks, |slots|)
      requires eof == Pos(head, |slots| + q) && txFree > 0 && done <= |slots| && hw == Pos(head, done)
      modifies this`txFree, this`hw, this`sent, this`done, bd, pbufs
      ensures Placing(slots, marks, frame, q + 1) && txFree == old(txFree) - 1
      ensures old(done) <= done <= |slots| && hw == Pos(head, done) && Sent(old(sent), slots, old(done), done, sent)
    {
      hide Flagged, WholeFrames, Holds, Sent;
      ghost var p, b := pbufs[..], bd[..];
      Occupy(eof, frame[q]);
      PlaceOne(p, head, slots + frame[..q], frame[q]);
      PlaceUnseen(b, head, slots, marks, done, q, frame[q]);
      FlaggedBounds(b, head, slots, marks, done, |slots|, |slots|);
      assert slots + frame[..q] + [frame[q]] == slots + frame[..q + 1];
      Hardware(slots, marks, |slots|, |slots|);
    }

    /** One buffer goes into a slot. */
    method Occupy(i: nat, p: Pbuf)
      requires i < bd.Length == pbufs.Length && txFree > 0
      modifies this`txFree, bd, pbufs
      ensures txFree == old(txFree) - 1 && pbufs[..] == old(pbufs[..])[i := Some(p)]
      ensures bd[..] == old(bd[..])[i := old(bd[i]).(buf := Some(p))]
    {
      txFree := txFree - 1;
      pbufs[i] := Some(p);
      bd[i] := bd[i].(buf := Some(p));
    }

    /** The second loop: from the last descriptor back to the first, so that the hardware comes
        upon a frame only when all of it is ready. */
    method SetFlags(eof: nat, frame: Frame, ghost slots: seq<Pbuf>, ghost marks: seq<bool>)
      requires bd.Length == NUM_TXBDS && head < NUM_TXBDS && frame != [] && |slots| == |marks|
      requires |slots| + |frame| <= NUM_TXBDS
      requires done <= |slots| && txInsert == Pos(head, |slots|) && eof == Pos(head, |slots| + |frame| - 1)
      requires hw == Pos(head, done)
      requires Flagged(bd[..], head, slots + frame, marks + FrameMarks(frame), done, |slots|, |slots| + |frame|)
      requires WholeFrames(marks, |slots|)
      modifies bd, this`hw, this`sent, this`done
      ensures old(done) <= done <= |slots| + |frame| && hw == Pos(head, done)
      ensures Flagged(bd[..], head, slots + frame, marks + FrameMarks(frame), done,
                      |slots| + |frame|, |slots| + |frame|)
      ensures Sent(old(sent), slots + frame, old(done), done, sent)
    {
      hide Flagged, Sent, WholeFrames;
      ghost var all, allMarks := slots + frame, marks + FrameMarks(frame);
      WholeBefore(marks, frame);
      FlaggedBounds(bd[..], head, all, allMarks, done, |slots|, |slots| + |frame|);
      SentNothing(sent, all, done);
      ghost var lo, hi := |slots|, |slots| + |frame|;
      var i := eof;
      while true
        invariant lo < hi <= |all| && i == Pos(head, hi - 1)
        invariant old(done) <= done <= lo && hw == Pos(head, done) && Sent(old(sent), all, old(done), done, sent)
        invariant Flagged(bd[..], head, all, allMarks, done, lo, hi)
        decreases hi
      {
        ghost var sentBefore, doneBefore := sent, done;
        SetFlag(i, i == eof, all, allMarks, lo, hi);
        hi := hi - 1;
        if i != txInsert {
          Hardware(all, allMarks, lo, hi);
          SentFurther(old(sent), all, old(done), doneBefore, sentBefore, done, sent);
          i := Dec(i);
        } else {
          break;
        }
      }
      Published(bd[..], head, all, allMarks, done, lo);
      WholeAtEnd(marks, frame);
      ghost var doneBefore, sentBefore := done, sent;
      Hardware(all, allMarks, |all|, |all|);
      SentFurther(old(sent), all, old(done), doneBefore, sentBefore, done, sent);
    }

    /** One descriptor is made ready, the last of its frame marked as such. */
    method SetFlag(i: nat, last: bool, ghost slots: seq<Pbuf>, ghost marks: seq<bool>, ghost lo: nat, ghost hi: nat)
      requires bd.Length == NUM_TXBDS && head < NUM_TXBDS && lo < hi <= |slots| == |marks| <= NUM_TXBDS
      requires i == Pos(head, hi - 1) && last == marks[hi - 1] && Flagged(bd[..], head, slots, marks, done, lo, hi)
      modifies bd
      ensures Flagged(bd[..], head, slots, marks, done, lo, hi - 1)
    {
      hide Flagged;
      ghost var b := bd[..];
      PublishOne(b, head, slots, marks, done, lo, hi);
      bd[i] := TxBd(true, last, bd[i].wrap, bd[i].buf);
      assert bd[..] == b[i := b[i].(ready := true, last := last)];
    }

    // ----- Cleaning up -----

    /** The hardware runs while nothing else does. */
    method HardwareAnytime()
      requires Steady()
      modifies bd, this`hw, this`sent, this`done
      ensures Steady() && old(done) <= done && old(sent) <= sent
    {
      hide Flagged, WholeFrames, Holds, Slots, Marks, Heads, Sent, Log;
      WholeRing(live);
      ghost var doneBefore, sentBefore := done, sent;
      Hardware(Slots(live), Marks(live), |Slots(live)|, |Slots(live)|);
      LogSent(accepted, live, freed, sentBefore, doneBefore, done, sent);
      SentIsMore(sentBefore, Slots(live), doneBefore, done, sent);
    }

    /** What other threads and the hardware may do while the clean-up task is unprotected: any
        number of the frames still to be offered are offered. */
    method Others(offers: seq<Frame>) returns (rest: seq<Frame>)
      requires Steady() && NoEmptyFrame(offers)
      modifies this`txFree, this`txInsert, this`hw, this`sent, this`accepted, this`live, this`done, bd, pbufs
      ensures Steady() && NoEmptyFrame(rest) && |rest| + |live| <= |offers| + old(|live|)
      ensures old(done) <= done && old(sent) <= sent && old(accepted) <= accepted
      ensures live == old(live) + accepted[|old(accepted)|..]
    {
      hide Flagged, WholeFrames, Holds, Slots, Marks, Heads, Sent, Log;
      rest := offers;
      var more := *;
      while more && rest != []
        invariant Steady() && NoEmptyFrame(rest) && |rest| + |live| <= |offers| + old(|live|)
        invariant old(done) <= done && old(sent) <= sent && old(accepted) <= accepted
        invariant live == old(live) + accepted[|old(accepted)|..]
        decreases |rest|
      {
        HardwareAnytime();
        NoEmptyTail(rest);
        var _ := LowLevelOutput(rest[0]);
        rest := rest[1..];
        more := *;
      }
      HardwareAnytime();
    }

    /** A completed frame leaves the ring, last descriptor first, and its head is freed. */
    method RemoveFrame(sof: nat, eof: nat)
      requires Steady() && live != [] && live[0] != [] && |live[0]| <= done && sof == head
      requires eof == Pos(head, |live[0]| - 1)
      modifies this`txFree, this`hw, this`sent, this`done, this`live, this`head, this`freed, bd, pbufs
      ensures Steady() && live == old(live)[1..] && head == Inc(eof) && old(sent) <= sent
      ensures freed == old(freed) + [old(live)[0][0]]
    {
      hide Flagged, WholeFrames, Holds, Slots, Marks, Heads, Sent, Log, Clearing;
      FirstFrame(live);
      ClearingBegins(pbufs[..], head, Slots(live), |live[0]|);
      var p := ClearFrame(sof, eof, |live[0]|);
      assert Slots(live)[..|live[0]|][0] == Slots(live)[0];
      ghost var before := freed;
      freed := freed + [p];
      assert freed[..|freed| - 1] == before;
      SentIsMore(old(sent), Slots(live), old(done), done, sent);
      Forget(old(done), old(sent));
    }

    method ClearFrame(sof: nat, eof: nat, ghost n: nat) returns (head0: Pbuf)
      requires Indexed() && 0 < n <= done && sof == head && eof == Pos(head, n - 1)
      requires Clearing(pbufs[..], head, Slots(live), n, n)
      requires Flagged(bd[..], head, Slots(live), Marks(live), done, |Slots(live)|, |Slots(live)|)
      modifies this`txFree, this`hw, this`sent, this`done, bd, pbufs
      ensures old(done) <= done <= |Slots(live)| && hw == Pos(head, done) && txFree == old(txFree) + n
      ensures Sent(old(sent), Slots(live), old(done), done, sent)
      ensures Clearing(pbufs[..], head, Slots(live), 0, n)
      ensures Flagged(bd[..], head, Slots(live), Marks(live), done, |Slots(live)|, |Slots(live)|)
      ensures head0 == Slots(live)[0]
    {
      hide Flagged, WholeFrames, Slots, Marks, Sent, Clearing;
      ghost var slots, marks := Slots(live), Marks(live);
      WholeRing(live);
      SentNothing(sent, slots, done);
      var i := eof;
      ghost var m: nat := n;
      while true
        invariant 0 < m <= n && i == Pos(head, m - 1) && txFree == old(txFree) + (n - m)
        invariant old(done) <= done <= |slots| && hw == Pos(head, done) && Sent(old(sent), slots, old(done), done, sent)
        invariant Clearing(pbufs[..], head, slots, m, n)
        invariant Flagged(bd[..], head, slots, marks, done, |slots|, |slots|)
        decreases m
      {
        ghost var b, doneBefore, sentBefore := bd[..], done, sent;
        var p := ClearOne(i, slots, m, n);
        ClearUnseen(b, head, slots, marks, done, m - 1);
        assert bd[..] == b[i := b[i].(buf := None)];
        txFree := txFree + 1;
        m := m - 1;
        Hardware(slots, marks, |slots|, |slots|);
        SentFurther(old(sent), slots, old(done), doneBefore, sentBefore, done, sent);
        if i != sof {
          i := Dec(i);
        } else {
          head0 := p.value;
          break;
        }
      }
    }

    /** mcf5272fec_tx_cleanup: no frame that the hardware is through with stays in the ring, and every
        frame that leaves it is freed by its head. `offers` are the frames that other threads will still
        hand to the driver while it runs, `gone` those that leave, in order, out of the ring and of what
        is accepted meanwhile. */
    method TxCleanup(offers: seq<Frame>) returns (ghost gone: seq<Frame>)
      requires Valid() && NoEmptyFrame(offers)
      modifies this, bd, pbufs
      ensures Valid() && (live != [] ==> done < |live[0]|)
      ensures old(accepted) <= accepted && old(live) + accepted[|old(accepted)|..] == gone + live
      ensures freed == old(freed) + Heads(gone) && old(sent) <= sent
    {
      hide Flagged, WholeFrames, Holds, Slots, Marks, Heads, Sent, Log;
      var sof, eof, rest := txRemove, txRemove, offers;
      ghost var e: nat := 0;
      gone := [];
      MovedNowhere(accepted, live, freed);
      while !bd[eof].ready && pbufs[eof] != None
        invariant Steady() && NoEmptyFrame(rest)
        invariant sof == head && e < NUM_TXBDS && eof == Pos(head, e)
        invariant Scanned(e)
        invariant Moved(old(accepted), old(live), old(freed), gone, accepted, live, freed) && old(sent) <= sent
        decreases |rest| + |live|, NUM_TXBDS - e
      {
        var flags := bd[eof];
        FoundDone(e);
        HardwareAnytime();
        if flags.last {
          MovedOut(old(accepted), old(live), old(freed), gone, accepted, live, freed);
          gone := gone + [live[0]];
          RemoveFrame(sof, eof);
          ghost var acceptedBefore, liveBefore := accepted, live;
          rest := Others(rest);
          MovedIn(old(accepted), old(live), old(freed), gone, acceptedBefore, liveBefore, freed,
                  accepted[|acceptedBefore|..]);
          eof := Inc(eof);
          sof := eof;
          e := 0;
        } else {
          eof := Inc(eof);
          e := e + 1;
        }
      }
      txRemove := sof;
      ScanStopped(e);
    }

    /** Where the scan stops the first frame has not been sent to its end, or there is none. */
    lemma ScanStopped(e: nat)
      requires Steady() && Scanned(e) && e < NUM_TXBDS
      requires bd[Pos(head, e)].ready || pbufs[Pos(head, e)] == None
      ensures live != [] ==> done < |live[0]|
    {
      hide Slots, Marks, Log;
      assert pbufs[..][Pos(head, e)] == pbufs[Pos(head, e)] && bd[..][Pos(head, e)] == bd[Pos(head, e)];
      if live != [] {
        FirstFrame(live);
      }
    }

    /** The clean-up task has passed `e` descriptors of the first frame. */
    ghost predicate Scanned(e: nat)
      reads this`live
    {
      e == 0 || (live != [] && e < |live[0]|)
    }

    /** A descriptor that is not ready and has a buffer has been transmitted, and its last bit
        tells whether the first frame ends there. */
    lemma FoundDone(e: nat)
      requires Steady() && Scanned(e) && e < NUM_TXBDS
      requires !bd[Pos(head, e)].ready && pbufs[Pos(head, e)] != None
      ensures live != [] && live[0] != [] && e < done && |live[0]| <= NUM_TXBDS
      ensures bd[Pos(head, e)].last <==> e == |live[0]| - 1
    {
      hide Slots, Marks, Log;
      assert pbufs[..][Pos(head, e)] != None && bd[..][Pos(head, e)] == bd[Pos(head, e)];
      assert e < |Slots(live)|;
      if live != [] {
        FirstFrame(live);
      } else {
        NoSlots();
      }
    }

    /** Any run of the driver: frames are offered, the ring is cleaned, the hardware works. `gone` are the
        frames that leave the ring. */
    method Serve(offers: seq<seq<Frame>>) returns (ghost gone: seq<Frame>)
      requires Valid() && forall o :: o in offers ==> NoEmptyFrame(o)
      modifies this, bd, pbufs
      ensures Valid()
      ensures freed <= Heads(accepted) && sent <= Slots(accepted)
      ensures |Slots(live)| + txFree == NUM_TXBDS && Holds(pbufs[..], txRemove, Slots(live))
      ensures old(accepted) <= accepted && old(live) + accepted[|old(accepted)|..] == gone + live
      ensures freed == old(freed) + Heads(gone) && old(sent) <= sent
    {
      hide Flagged, WholeFrames, Holds, Slots, Marks, Heads, Sent, Log;
      var k := 0;
      gone := [];
      MovedNowhere(accepted, live, freed);
      while k < |offers|
        invariant k <= |offers| && Valid()
        invariant Moved(old(accepted), old(live), old(freed), gone, accepted, live, freed) && old(sent) <= sent
      {
        ghost var accepted1, live1, freed1 := accepted, live, freed;
        ghost var more := [];
        var cleaning := *;
        if cleaning {
          more := TxCleanup(offers[k]);
        } else {
          MovedNowhere(accepted, live, freed);
          var rest := Others(offers[k]);
          MovedIn(accepted1, live1, freed1, [], accepted1, live1, freed1, accepted[|accepted1|..]);
        }
        MovedFurther(old(accepted), old(live), old(freed), gone, accepted1, live1, freed1, more, accepted, live, freed);
        gone := gone + more;
        k := k + 1;
      }
      LogMeans(accepted, live, freed, sent, done);
    }

    /** Take one buffer out of its slot. */
    method ClearOne(i: nat, ghost slots: seq<Pbuf>, ghost m: nat, ghost n: nat) returns (p: Option<Pbuf>)
      requires bd.Length == pbufs.Length == NUM_TXBDS && head < NUM_TXBDS && 0 < m <= n <= |slots| <= NUM_TXBDS
      requires i == Pos(head, m - 1) && Clearing(pbufs[..], head, slots, m, n)
      modifies bd, pbufs
      ensures p == Some(slots[m - 1]) && Clearing(pbufs[..], head, slots, m - 1, n)
      ensures bd[..] == old(bd[..])[i := old(bd[i]).(buf := None)]
    {
      p := pbufs[i];
      pbufs[i] := None;
      bd[i] := bd[i].(buf := None);
    }

    /** The ring is counted from the next frame on. */
    ghost method Forget(doneAtStart: nat, sentAtStart: seq<Pbuf>)
      requires bd.Length == pbufs.Length == NUM_TXBDS && head < NUM_TXBDS && NoEmptyFrame(live) && live != []
      requires |live[0]| <= doneAtStart <= done <= |Slots(live)| <= NUM_TXBDS && hw == Pos(head, done)
      requires |Slots(live)| - |live[0]| + txFree == NUM_TXBDS && txInsert == Pos(head, |Slots(live)|)
      requires Clearing(pbufs[..], head, Slots(live), 0, |live[0]|)
      requires Flagged(bd[..], head, Slots(live), Marks(live), done, |Slots(live)|, |Slots(live)|)
      requires Sent(sentAtStart, Slots(live), doneAtStart, done, sent)
      requires |freed| > 0 && live[0] != [] && freed[|freed| - 1] == live[0][0]
      requires Log(accepted, live, freed[..|freed| - 1], sentAtStart, doneAtStart)
      modifies this`head, this`live, this`done
      ensures Steady() && live == old(live)[1..] && head == Pos(old(head), |old(live)[0]|)
    {
      hide Flagged, WholeFrames, Holds, Slots, Marks, Heads, Sent, Log, Clearing;
      var n := |live[0]|;
      FirstFrame(live);
      LogSent(accepted, live, freed[..|freed| - 1], sentAtStart, doneAtStart, done, sent);
      LogFreed(accepted, live, freed[..|freed| - 1], sent, done);
      assert freed[..|freed| - 1] + [live[0][0]] == freed;
      RemovedFlags(bd[..], head, Slots(live), Marks(live), done, n);
      ClearingEnds(pbufs[..], head, Slots(live), n);
      head, live, done := Pos(head, n), live[1..], done - n;
    }
  }
}

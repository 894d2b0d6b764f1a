/** The part of lwIP's TCP interface the applications write to: an append-only output whose
    window, queue and verdicts are up to the environment. Every value a caller could see is
    possible at every call, so what is proved against this class holds for all of them. */
module Tcp {

  const U16_MAX := 0xFFFF

  datatype Err = ErrOk | ErrMem | ErrOther

  class Pcb {
    var written: string
    // how often there has been no room, or a write has been refused
    var refusals: nat

    constructor ()
      ensures written == ""
    {
      written, refusals := "", 0;
    }

    /** tcp_sndbuf: how many bytes fit now. */
    method SndBuf() returns (space: nat)
      modifies this`refusals
      ensures space <= U16_MAX && refusals == old(refusals) + if space == 0 then 1 else 0
    {
      space :| space <= U16_MAX;
      refusals := refusals + if space == 0 then 1 else 0;
    }

    /** tcp_mss. */
    method Mss() returns (mss: nat)
      ensures 0 < mss <= U16_MAX
    {
      mss :| 0 < mss <= U16_MAX;
    }

    /** tcp_sndqueuelen(pcb) >= TCP_SND_QUEUELEN. */
    method QueueFull() returns (full: bool)
    {
      full := *;
    }

    /** tcp_write takes all of `data` or nothing. */
    method Write(data: string) returns (err: Err)
      modifies this
      ensures written == old(written) + (if err == ErrOk then data else "")
      ensures refusals == old(refusals) + if err == ErrOk then 0 else 1
    {
      err := *;
      if err == ErrOk {
        written := written + data;
      } else {
        refusals := refusals + 1;
      }
    }

    /** tcp_close; the output stays as it is. */
    method Close() returns (err: Err)
    {
      err := *;
    }
  }
}

/** The SNTP client's timers: one request, retry or update is always pending and never two, and
    the delay between retries backs off by doubling. */
module Sntp {
  import opened Chains
  import opened Common

  const U32 := 0x1_0000_0000
  const SNTP_MSG_LEN := 48
  const SNTP_RECV_TIMEOUT := 3000
  const SNTP_UPDATE_DELAY := 3600000
  const DIFF_SEC_1900_1970 := 2208988800
  const SNTP_MODE_SERVER: Byte := 4
  const SNTP_MODE_BROADCAST: Byte := 5
  const SNTP_STRATUM_KOD: Byte := 0

  // ----- The delay between retries -----

  /** The base times two to the power `k`. */
  function Doubled(base: nat, k: nat): nat {
    if k == 0 then base else 2 * Doubled(base, k - 1)
  }

  /** The delay after `n` retries in a row. */
  function Delay(base: nat, max: nat, n: nat): nat {
    if n == 0 then base
    else
      var before := Delay(base, max, n - 1);
      if 2 * before <= max then 2 * before else before
  }

  /** It is the base times a power of two; it doubles at every retry until the next doubling would
      pass the maximum, and then it stays; it is above the maximum only if the base is. */
  lemma {:induction false} DelayDoubles(base: nat, max: nat, n: nat) returns (k: nat)
    requires base > 0
    ensures k <= n && Delay(base, max, n) == Doubled(base, k)
    ensures k < n ==> 2 * Delay(base, max, n) > max
    ensures base <= Delay(base, max, n) && (base <= max ==> Delay(base, max, n) <= max)
  {
    k := 0;
    if n > 0 {
      k := DelayDoubles(base, max, n - 1);
      var before := Delay(base, max, n - 1);
      if 2 * before <= max {
        k := k + 1;
      }
    }
  }

  // ----- Whose turn it is -----

  /** The server after `switches` changes, out of `n`. */
  function Turn(n: nat, switches: nat): nat {
    if switches == 0 then 0
    else
      var next := Turn(n, switches - 1) + 1;
      if next >= n then 0 else next
  }

  lemma {:induction false} TurnOn(n: nat, switches: nat, k: nat)
    requires k < n
    ensures Turn(n, switches) < n
    ensures var t := Turn(n, switches) + k; Turn(n, switches + k) == if t < n then t else t - n
    decreases switches + k, k
  {
    if k > 0 {
      TurnOn(n, switches, k - 1);
    } else if switches > 0 {
      TurnOn(n, switches - 1, 0);
    }
  }

  /** Within `n` changes of server every server has its turn. */
  lemma EveryServerHasItsTurn(n: nat, switches: nat, server: nat) returns (k: nat)
    requires server < n
    ensures k < n && Turn(n, switches + k) == server
  {
    TurnOn(n, switches, 0);
    var now := Turn(n, switches);
    k := if now <= server then server - now else server + n - now;
    TurnOn(n, switches, k);
  }

  // ----- Requests and replies -----

  datatype Reply = Answer(seconds: nat) | KissOfDeath | Invalid

  /** A server's or a broadcast packet of the right length is an answer unless its stratum is the
      kiss of death. */
  function Classify(packet: seq<Byte>): Reply {
    if |packet| != SNTP_MSG_LEN then Invalid
    else if packet[0] % 8 != SNTP_MODE_SERVER && packet[0] % 8 != SNTP_MODE_BROADCAST then Invalid
    else if packet[1] == SNTP_STRATUM_KOD then KissOfDeath
    else Answer(BigEndian(packet[32..36]))
  }

  function BigEndian(bytes: seq<Byte>): nat {
    if bytes == [] then 0 else 256 * BigEndian(bytes[..|bytes| - 1]) + (bytes[|bytes| - 1] as nat)
  }

  /** Four bytes, the most significant first. */
  function FourBytes(n: nat): (bytes: seq<Byte>)
    requires n < U32
    ensures |bytes| == 4
  {
    [(n / 0x100_0000) as Byte, (n / 0x1_0000 % 256) as Byte, (n / 256 % 256) as Byte, (n % 256) as Byte]
  }

  lemma BigEndianNext(bytes: seq<Byte>, b: Byte)
    ensures BigEndian(bytes + [b]) == 256 * BigEndian(bytes) + b as nat
  {
    var more := bytes + [b];
    assert more[..|more| - 1] == bytes;
  }

  lemma BigEndianIs(a: Byte, b: Byte, c: Byte, d: Byte)
    ensures BigEndian([a, b, c, d]) == 256 * (256 * (256 * (a as nat) + b as nat) + c as nat) + d as nat
  {
    hide BigEndian;
    BigEndianNext([], a);
    BigEndianNext([a], b);
    BigEndianNext([a, b], c);
    BigEndianNext([a, b, c], d);
    assert [] + [a] == [a] && [a] + [b] == [a, b] && [a, b] + [c] == [a, b, c] && [a, b, c] + [d] == [a, b, c, d];
    assert BigEndian([]) == 0 by { BigEndianNone(); }
  }

  lemma BigEndianNone()
    ensures BigEndian([]) == 0
  {
  }

  lemma FourParts(n: nat)
    requires n < U32
    ensures n / 0x100_0000 < 256
    ensures 256 * (256 * (256 * (n / 0x100_0000) + n / 0x1_0000 % 256) + n / 256 % 256) + n % 256 == n
  {
    var x, y := n / 256, n / 0x1_0000;
    assert x / 256 == y && y / 256 == n / 0x100_0000;
  }

  lemma BigEndianOfFour(n: nat)
    requires n < U32
    ensures BigEndian(FourBytes(n)) == n
  {
    hide BigEndian;
    FourParts(n);
    BigEndianIs((n / 0x100_0000) as Byte, (n / 0x1_0000 % 256) as Byte, (n / 256 % 256) as Byte, (n % 256) as Byte);
  }

  /** What becomes of a packet laid out as section 4 of RFC 4330 says: leap indicator, version and mode in
      the first byte, the stratum in the second, the seconds of the receive timestamp from the 32nd on. */
  lemma PacketIsUnderstood(leap: nat, version: nat, mode: nat, stratum: Byte, middle: seq<Byte>, seconds: nat,
                           rest: seq<Byte>)
    requires leap < 4 && version < 8 && mode < 8 && |middle| == 30 && seconds < U32 && |rest| == 12
    ensures Classify([(64 * leap + 8 * version + mode) as Byte, stratum] + middle + FourBytes(seconds) + rest) ==
            if mode != 4 && mode != 5 then Invalid else if stratum == 0 then KissOfDeath else Answer(seconds)
  {
    hide BigEndian, FourBytes;
    var packet := [(64 * leap + 8 * version + mode) as Byte, stratum] + middle + FourBytes(seconds) + rest;
    BigEndianOfFour(seconds);
    assert packet[32..36] == FourBytes(seconds);
  }

  datatype Handler = Request | TryNextServer

  datatype Timer = Timer(delay: nat, handler: Handler)

  type Address = nat

  datatype Event = Expires(memory: bool) | Packet(bytes: seq<Byte>, memory: bool)

  lemma DelayPositive(base: nat, max: nat, n: nat)
    requires base > 0
    ensures Delay(base, max, n) > 0
  {
  }

  class Client {
    // the configured servers; `None` is an address that cannot be parsed
    const servers: seq<Option<Address>>
    const base: nat
    const max: nat
    var retryTimeout: nat
    var currentServer: nat
    var pending: seq<Timer>
    var sent: seq<Address>
    var time: Option<int>
    // retries in a row, and changes of server, so far
    ghost var retries: nat
    ghost var switches: nat

    ghost predicate Valid()
      reads this
    {
      && 1 <= |servers| < 256 && 0 < base < U32 && max < U32
      && retryTimeout == Delay(base, max, retries) < U32
      && currentServer == Turn(|servers|, switches) < |servers|
    }

    /** Between callbacks: one timer, which is one of those the client ever sets. */
    ghost predicate Idle()
      reads this
    {
      Valid() && |pending| == 1 && Expected(pending[0])
    }

    ghost predicate Expected(timer: Timer)
      reads this
    {
      match timer.handler
      case Request => timer.delay == SNTP_UPDATE_DELAY || timer.delay == base
                      || (retries > 0 && timer.delay == Delay(base, max, retries - 1))
      case TryNextServer => timer.delay == SNTP_RECV_TIMEOUT || timer.delay == base
    }

    /** The current server has been asked and has its time to answer; without memory the request is tried
        again, and a bad address is passed over. */
    ghost predicate Asked(memory: bool, before: seq<Address>)
      reads this
    {
      Valid() &&
      match servers[currentServer]
      case None => pending == [Timer(base, Handler.TryNextServer)] && sent == before
      case Some(address) =>
        if memory then pending == [Timer(SNTP_RECV_TIMEOUT, Handler.TryNextServer)] && sent == before + [address]
        else pending == [Timer(base, Handler.Request)] && sent == before
    }

    /** The next request comes after the delay so far. */
    ghost predicate RetriesAfter(delay: nat, before: seq<Address>)
      reads this
    {
      pending == [Timer(delay, Handler.Request)] && sent == before
    }

    /** sntp_init, the first request included. */
    constructor (servers: seq<Option<Address>>, base: nat, max: nat, memory: bool)
      requires 1 <= |servers| < 256 && 0 < base < U32 && max < U32
      ensures Idle() && Asked(memory, []) && retries == switches == 0 && time == None
      ensures this.servers == servers && this.base == base && this.max == max
    {
      this.servers, this.base, this.max := servers, base, max;
      retryTimeout, currentServer, pending, sent, time := base, 0, [], [], None;
      retries, switches := 0, 0;
      new;
      Request(memory);
    }

    method SysTimeout(delay: nat, handler: Handler)
      modifies this`pending
      ensures pending == old(pending) + [Timer(delay, handler)]
    {
      pending := pending + [Timer(delay, handler)];
    }

    /** sys_untimeout: the first pending call of `handler` is taken off. */
    method SysUntimeout(handler: Handler)
      requires |pending| <= 1
      modifies this`pending
      ensures pending == if old(pending) != [] && old(pending)[0].handler == handler then [] else old(pending)
    {
      if pending != [] && pending[0].handler == handler {
        pending := pending[1..];
      }
    }

    /** sntp_request and sntp_send_request: the current server is asked, if its address is good and
        there is memory. */
    method Request(memory: bool)
      requires Valid() && pending == []
      modifies this`pending, this`sent
      ensures Idle() && Asked(memory, old(sent))
    {
      var server := servers[currentServer];
      if server != None {
        if memory {
          sent := sent + [server.value];
          SysTimeout(SNTP_RECV_TIMEOUT, Handler.TryNextServer);
        } else {
          SysTimeout(base, Handler.Request);
        }
      } else {
        SysTimeout(base, Handler.TryNextServer);
      }
    }

    /** sntp_retry: the shift is 32 bits wide. */
    method Retry()
      requires Valid() && pending == []
      modifies this`pending, this`retryTimeout, this`retries
      ensures Idle() && RetriesAfter(old(retryTimeout), sent) && retries == old(retries) + 1
    {
      SysTimeout(retryTimeout, Handler.Request);
      var newRetryTimeout := retryTimeout * 2 % U32;
      DelayPositive(base, max, retries);
      if newRetryTimeout <= max && newRetryTimeout > retryTimeout {
        retryTimeout := newRetryTimeout;
      }
      retries := retries + 1;
    }

    /** sntp_try_next_server. */
    method TryNextServer(memory: bool)
      requires Valid() && pending == []
      modifies this`pending, this`retryTimeout, this`retries, this`currentServer, this`switches, this`sent
      ensures Idle()
      ensures |servers| == 1 ==>
                RetriesAfter(old(retryTimeout), old(sent)) && retries == old(retries) + 1 && switches == old(switches)
      ensures |servers| > 1 ==> Asked(memory, old(sent)) && retries == 0 && switches == old(switches) + 1
    {
      if |servers| > 1 {
        retryTimeout, retries := base, 0;
        currentServer := currentServer + 1;
        if currentServer >= |servers| {
          currentServer := 0;
        }
        switches := switches + 1;
        Request(memory);
      } else {
        Retry();
      }
    }

    /** sntp_recv. */
    method Recv(packet: seq<Byte>, memory: bool)
      requires Idle()
      modifies this
      ensures Idle()
      ensures Classify(packet).Answer? ==>
                && pending == [Timer(SNTP_UPDATE_DELAY, Handler.Request)] && retries == 0
                   && switches == old(switches) && sent == old(sent)
                && time == Some(Classify(packet).seconds - DIFF_SEC_1900_1970)
      ensures !Classify(packet).Answer? ==> time == old(time)
      ensures Classify(packet).Invalid? || (Classify(packet).KissOfDeath? && |servers| == 1) ==>
                RetriesAfter(old(retryTimeout), old(sent)) && retries == old(retries) + 1 && switches == old(switches)
      ensures Classify(packet).KissOfDeath? && |servers| > 1 ==>
                Asked(memory, old(sent)) && retries == 0 && switches == old(switches) + 1
    {
      SysUntimeout(Handler.TryNextServer);
      SysUntimeout(Handler.Request);
      var reply := Invalid;
      if |packet| == SNTP_MSG_LEN {
        var mode := packet[0] % 8;
        if mode == SNTP_MODE_SERVER || mode == SNTP_MODE_BROADCAST {
          var stratum := packet[1];
          if stratum == SNTP_STRATUM_KOD {
            reply := KissOfDeath;
          } else {
            reply := Answer(BigEndian(packet[32..36]));
          }
        }
      }
      match reply
      case Answer(seconds) =>
        retryTimeout, retries := base, 0;
        time := Some(seconds - DIFF_SEC_1900_1970);
        SysTimeout(SNTP_UPDATE_DELAY, Handler.Request);
      case KissOfDeath =>
        TryNextServer(memory);
      case Invalid =>
        Retry();
    }

    /** The pending timer runs out. */
    method Expire(memory: bool)
      requires Idle()
      modifies this`pending, this`retryTimeout, this`retries, this`currentServer, this`switches, this`sent
      ensures Idle()
      ensures old(pending)[0].handler == Handler.Request ==>
                Asked(memory, old(sent)) && retries == old(retries) && switches == old(switches)
      ensures old(pending)[0].handler == Handler.TryNextServer && |servers| == 1 ==>
                RetriesAfter(old(retryTimeout), old(sent)) && retries == old(retries) + 1 && switches == old(switches)
      ensures old(pending)[0].handler == Handler.TryNextServer && |servers| > 1 ==>
                Asked(memory, old(sent)) && retries == 0 && switches == old(switches) + 1
    {
      var handler := pending[0].handler;
      pending := pending[1..];
      match handler
      case Request => Request(memory);
      case TryNextServer => TryNextServer(memory);
    }

    /** Any packets, expiries and shortages of memory in any order: one timer is pending, the delay
        is a power of two times the base, and the servers take turns. */
    method Run(events: seq<Event>)
      requires Idle()
      modifies this
      ensures Idle() && |pending| == 1 && currentServer == Turn(|servers|, switches) && old(sent) <= sent
      ensures exists k: nat :: retryTimeout == Doubled(base, k) && (base <= max ==> Doubled(base, k) <= max)
    {
      var i := 0;
      while i < |events|
        invariant Idle() && old(sent) <= sent
      {
        match events[i] {
          case Expires(memory) => Expire(memory);
          case Packet(bytes, memory) => Recv(bytes, memory);
        }
        i := i + 1;
      }
      ghost var k := DelayDoubles(base, max, retries);
    }
  }
}

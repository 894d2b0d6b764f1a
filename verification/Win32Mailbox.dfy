/** The mailbox of the win32 port: a ring under a critical section whose fill level is kept by a
    counting semaphore that fetchers take before they enter. Every statement on shared data and
    every kernel call is one step of one thread. */
module Win32Mailbox {
  import opened Common

  const MAX_QUEUE_ENTRIES := 100

  type Msg = nat
  type Tid = nat

  /** How a fetch waits: without limit, with one, or not at all (sys_arch_mbox_tryfetch). */
  datatype Wait = Forever | Limited | Poll

  datatype Pc =
    | Idle
    // sys_mbox_trypost
    | PostEnter(msg: Msg) | PostTest(msg: Msg) | PostFull | PostStore(msg: Msg, newHead: nat)
    | PostHead(msg: Msg, newHead: nat) | PostRelease | PostLeave
    // sys_arch_mbox_fetch and sys_arch_mbox_tryfetch
    | FetchWait(wait: Wait) | FetchEnter | FetchLoad | FetchTail(msg: Msg) | FetchLeave
  {
    predicate Posts() {
      PostEnter? || PostTest? || PostFull? || PostStore? || PostHead? || PostRelease? || PostLeave?
    }

    predicate Holds() {
      !(Idle? || PostEnter? || FetchWait? || FetchEnter?)
    }

    /** Has taken the semaphore but not its message. */
    predicate Claims() {
      FetchEnter? || FetchLoad? || FetchTail?
    }
  }

  datatype Choice = CallTryPost(msg: Msg) | CallFetch(wait: Wait) | Go | TimeOut

  datatype State = State(
    head: nat, tail: nat, qMem: seq<Msg>, sem: nat, threads: map<Tid, Pc>,
    owner: Option<Tid>, posted: seq<Msg>, fetched: seq<Msg>)  // who is in the critical section, and the histories
  {
    function At(t: Tid, pc: Pc): State {
      this.(threads := threads[t := pc])
    }
  }

  function Up(index: nat): nat {
    if index + 1 >= MAX_QUEUE_ENTRIES then 0 else index + 1
  }

  function Entered(s: State, t: Tid, pc: Pc): Option<State> {
    if s.owner == None then Some(s.(owner := Some(t)).At(t, pc)) else None
  }

  function Left(s: State, t: Tid): Option<State> {
    Some(s.(owner := None).At(t, Idle))
  }

  ghost predicate Sized(s: State) {
    |s.qMem| == MAX_QUEUE_ENTRIES && s.head < MAX_QUEUE_ENTRIES && s.tail < MAX_QUEUE_ENTRIES
  }

  function Next(s: State, t: Tid, c: Choice): Option<State>
    requires t in s.threads && Sized(s)
  {
    match s.threads[t]
    case Idle =>
      (match c
       case CallTryPost(m) => Some(s.At(t, PostEnter(m)))
       case CallFetch(wait) => Some(s.At(t, FetchWait(wait)))
       case _ => None)
    case PostEnter(m) => Entered(s, t, PostTest(m))
    case PostTest(m) => Some(s.At(t, if Up(s.head) == s.tail then PostFull else PostStore(m, Up(s.head))))
    case PostFull => Left(s, t)
    case PostStore(m, newHead) => Some(s.(qMem := s.qMem[s.head := m]).At(t, PostHead(m, newHead)))
    case PostHead(m, newHead) => Some(s.(head := newHead, posted := s.posted + [m]).At(t, PostRelease))
    case PostRelease => if s.sem < MAX_QUEUE_ENTRIES then Some(s.(sem := s.sem + 1).At(t, PostLeave)) else None
    case PostLeave => Left(s, t)
    case FetchWait(wait) =>
      if c.TimeOut? then
        if wait.Limited? || (wait.Poll? && s.sem == 0) then Some(s.At(t, Idle)) else None
      else if s.sem > 0 then Some(s.(sem := s.sem - 1).At(t, FetchEnter)) else None
    case FetchEnter => Entered(s, t, FetchLoad)
    case FetchLoad => Some(s.At(t, FetchTail(s.qMem[s.tail])))
    case FetchTail(m) => Some(s.(tail := Up(s.tail), fetched := s.fetched + [m]).At(t, FetchLeave))
    case FetchLeave => Left(s, t)
  }

  ghost predicate Initial(s: State) {
    && s.head == 0 && s.tail == 0 && |s.qMem| == MAX_QUEUE_ENTRIES && s.sem == 0
    && (forall t :: t in s.threads ==> s.threads[t] == Idle)
    && s.owner == None && s.posted == [] && s.fetched == []
  }

  datatype Event = Event(thread: Tid, choice: Choice)

  ghost function Run(s: State, events: seq<Event>): Option<State>
    decreases |events|
  {
    if events == [] then Some(s)
    else if events[0].thread !in s.threads || !Sized(s) then None
    else
      var next := Next(s, events[0].thread, events[0].choice);
      if next.None? then None else Run(next.value, events[1..])
  }

  // ----- One thread in the critical section -----

  ghost predicate OneOwner(s: State) {
    && (forall t :: t in s.threads && s.threads[t].Holds() ==> s.owner == Some(t))
    && (s.owner.Some? ==> s.owner.value in s.threads && s.threads[s.owner.value].Holds())
  }

  ghost predicate Shape(s: State, t: Tid, s': State)
    requires t in s.threads
  {
    && t in s'.threads && s'.threads == s.threads[t := s'.threads[t]]
    && (s.threads[t].Holds() ==> s'.owner == if s'.threads[t].Holds() then s.owner else None)
    && (!s.threads[t].Holds() && s'.threads[t].Holds() ==> s.owner == None && s'.owner == Some(t))
    && (!s.threads[t].Holds() && !s'.threads[t].Holds() ==> s'.owner == s.owner)
  }

  lemma StepShape(s: State, t: Tid, c: Choice)
    requires t in s.threads && Sized(s) && Next(s, t, c).Some?
    ensures Shape(s, t, Next(s, t, c).value)
  {
  }

  lemma OneOwnerNext(s: State, t: Tid, c: Choice)
    requires OneOwner(s) && t in s.threads && Sized(s) && Next(s, t, c).Some?
    ensures OneOwner(Next(s, t, c).value)
  {
    StepShape(s, t, c);
    hide Next;
  }

  // ----- The ring -----

  ghost predicate Ring(s: State) {
    && Sized(s)
    && |s.fetched| <= |s.posted| < |s.fetched| + MAX_QUEUE_ENTRIES
    && s.head == |s.posted| % MAX_QUEUE_ENTRIES && s.tail == |s.fetched| % MAX_QUEUE_ENTRIES
    && s.fetched <= s.posted
    && (forall i {:trigger s.posted[i]} :: |s.fetched| <= i < |s.posted| ==>
       s.qMem[i % MAX_QUEUE_ENTRIES] == s.posted[i])
  }

  /** What the thread in the critical section may rely on. */
  ghost predicate Knows(s: State, pc: Pc)
    requires Sized(s)
  {
    match pc
    case PostStore(_, newHead) => newHead == Up(s.head) && newHead != s.tail
    case PostHead(m, newHead) => newHead == Up(s.head) && newHead != s.tail && s.qMem[s.head] == m
    case PostRelease => s.head != s.tail
    case FetchTail(m) => m == s.qMem[s.tail]
    case _ => true
  }

  lemma UpIsNext(n: nat)
    ensures Up(n % MAX_QUEUE_ENTRIES) == (n + 1) % MAX_QUEUE_ENTRIES
  {
    var q, r := n / MAX_QUEUE_ENTRIES, n % MAX_QUEUE_ENTRIES;
    if r + 1 < MAX_QUEUE_ENTRIES {
      RemainderIs(n + 1, q, r + 1);
    } else {
      RemainderIs(n + 1, q + 1, 0);
    }
  }

  lemma RemainderIs(n: nat, q: nat, r: nat)
    requires n == q * MAX_QUEUE_ENTRIES + r && r < MAX_QUEUE_ENTRIES
    ensures n % MAX_QUEUE_ENTRIES == r
  {
  }

  lemma SameSlot(i: nat, j: nat)
    requires i <= j <= i + MAX_QUEUE_ENTRIES
    ensures i % MAX_QUEUE_ENTRIES == j % MAX_QUEUE_ENTRIES <==> i == j || j == i + MAX_QUEUE_ENTRIES
  {
  }

  // ----- Semaphore, claims and occupancy -----

  ghost function Claimants(threads: map<Tid, Pc>): set<Tid> {
    set t | t in threads && threads[t].Claims()
  }

  /** A poster that has advanced the head but not yet released the semaphore. */
  ghost function Unreleased(s: State): nat {
    if s.owner.Some? && s.owner.value in s.threads && s.threads[s.owner.value].PostRelease? then 1 else 0
  }

  ghost predicate Accounted(s: State) {
    s.sem + |Claimants(s.threads)| + Unreleased(s) == |s.posted| - |s.fetched|
  }

  ghost predicate Inv(s: State) {
    && OneOwner(s) && Ring(s) && Accounted(s)
    && (s.owner.Some? && s.owner.value in s.threads ==> Knows(s, s.threads[s.owner.value]))
  }

  lemma InvNext(s: State, t: Tid, c: Choice)
    requires Inv(s) && t in s.threads && Next(s, t, c).Some?
    ensures Inv(Next(s, t, c).value)
  {
    assert Sized(s);
    hide Next, OneOwner, Ring, Accounted, Knows;
    OneOwnerNext(s, t, c);
    RingNext(s, t, c);
    AccountedNext(s, t, c);
  }

  /** A claim is backed by a message. */
  lemma ClaimMeansMessage(s: State, t: Tid)
    requires Inv(s) && t in s.threads && s.threads[t].Claims()
    ensures |s.fetched| < |s.posted|
  {
    assert t in Claimants(s.threads);
  }

  lemma RingNext(s: State, t: Tid, c: Choice)
    requires Inv(s) && t in s.threads && Next(s, t, c).Some?
    ensures var s' := Next(s, t, c).value;
            Ring(s') && (s'.owner.Some? && s'.owner.value in s'.threads ==> Knows(s', s'.threads[s'.owner.value]))
  {
    StepShape(s, t, c);
    var s' := Next(s, t, c).value;
    match s.threads[t]
    case PostStore(m, newHead) => StoreKeepsRing(s, t, m, newHead);
    case PostHead(m, newHead) => HeadKeepsRing(s, t, m, newHead);
    case FetchTail(m) =>
      ClaimMeansMessage(s, t);
      TailKeepsRing(s, t, m);
    case _ => QuietStep(s, t, c);
  }

  lemma StoreKeepsRing(s: State, t: Tid, m: Msg, newHead: nat)
    requires Inv(s) && t in s.threads && s.threads[t] == PostStore(m, newHead)
    ensures var s' := Next(s, t, Go).value; Ring(s') && s'.owner == Some(t) && Knows(s', s'.threads[t])
  {
    hide Ring, Accounted;
    assert Sized(s) by { RingIsSized(s); }
    StoredBeside(s, m);
    var s' := Next(s, t, Go).value;
    SameRing(s.(qMem := s.qMem[s.head := m]), s');
  }

  lemma RingIsSized(s: State)
    requires Ring(s)
    ensures Sized(s)
  {
  }

  lemma SameRing(s: State, s': State)
    requires Ring(s) && s'.head == s.head && s'.tail == s.tail && s'.qMem == s.qMem
    requires s'.posted == s.posted && s'.fetched == s.fetched
    ensures Ring(s')
  {
  }

  /** The slot at the head holds no waiting message. */
  lemma StoredBeside(s: State, m: Msg)
    requires Ring(s)
    ensures Sized(s) && Ring(s.(qMem := s.qMem[s.head := m]))
  {
    forall i {:trigger s.posted[i]} | |s.fetched| <= i < |s.posted|
      ensures s.qMem[s.head := m][i % MAX_QUEUE_ENTRIES] == s.posted[i]
    {
      SameSlot(i, |s.posted|);
    }
  }

  lemma HeadKeepsRing(s: State, t: Tid, m: Msg, newHead: nat)
    requires Inv(s) && t in s.threads && s.threads[t] == PostHead(m, newHead)
    ensures var s' := Next(s, t, Go).value; Ring(s') && s'.owner == Some(t) && Knows(s', s'.threads[t])
  {
    UpIsNext(|s.posted|);
    SameSlot(|s.fetched|, |s.posted| + 1);
  }

  lemma TailKeepsRing(s: State, t: Tid, m: Msg)
    requires Inv(s) && t in s.threads && s.threads[t] == FetchTail(m) && |s.fetched| < |s.posted|
    ensures var s' := Next(s, t, Go).value; Ring(s') && s'.owner == Some(t) && Knows(s', s'.threads[t])
  {
    UpIsNext(|s.fetched|);
    assert s.posted[|s.fetched|] == m;
  }

  /** Every other step leaves the ring alone. */
  lemma QuietStep(s: State, t: Tid, c: Choice)
    requires Inv(s) && t in s.threads && Next(s, t, c).Some?
    requires !(s.threads[t].PostStore? || s.threads[t].PostHead? || s.threads[t].FetchTail?)
    ensures var s' := Next(s, t, c).value;
            Ring(s') && (s'.owner.Some? && s'.owner.value in s'.threads ==> Knows(s', s'.threads[s'.owner.value]))
  {
  }

  lemma AccountedNext(s: State, t: Tid, c: Choice)
    requires Inv(s) && t in s.threads && Next(s, t, c).Some?
    ensures Accounted(Next(s, t, c).value)
  {
    StepShape(s, t, c);
    var s' := Next(s, t, c).value;
    var before, after := Claimants(s.threads), Claimants(s'.threads);
    assert after == if s'.threads[t].Claims() then before + {t} else before - {t};
    AccountStep(s, t, c);
    hide Next;
    assert s.threads[t].Claims() ==> before + {t} == before;
    assert !s.threads[t].Claims() ==> before - {t} == before;
    assert |after| - |before| == Bit(s'.threads[t].Claims()) - Bit(s.threads[t].Claims());
  }

  function Bit(b: bool): nat {
    if b then 1 else 0
  }

  lemma AccountStep(s: State, t: Tid, c: Choice)
    requires Inv(s) && t in s.threads && Next(s, t, c).Some?
    ensures var s' := Next(s, t, c).value;
            && t in s'.threads
            && s'.sem + Bit(s'.threads[t].Claims()) - Bit(s.threads[t].Claims())
               + Unreleased(s') - Unreleased(s) - s.sem
               == (|s'.posted| - |s'.fetched|) - (|s.posted| - |s.fetched|)
  {
  }

  // ----- Every reachable state -----

  lemma InitialInv(s: State)
    requires Initial(s)
    ensures Inv(s)
  {
  }

  lemma {:induction false} RunKeepsInv(s: State, events: seq<Event>)
    requires Inv(s) && Run(s, events).Some?
    ensures Inv(Run(s, events).value)
    decreases |events|
  {
    hide Inv, Next;
    if events != [] {
      InvNext(s, events[0].thread, events[0].choice);
      RunKeepsInv(Next(s, events[0].thread, events[0].choice).value, events[1..]);
    }
  }

  /** For any number of trypost and fetch threads and any schedule. */
  lemma EveryRun(s0: State, events: seq<Event>)
    requires Initial(s0) && Run(s0, events).Some?
    ensures var s := Run(s0, events).value;
            // in order, each once, none overwritten
            && s.fetched <= s.posted && |s.posted| - |s.fetched| <= MAX_QUEUE_ENTRIES - 1 && Sized(s)
            && (forall i {:trigger s.posted[i]} :: |s.fetched| <= i < |s.posted| ==>
               s.qMem[i % MAX_QUEUE_ENTRIES] == s.posted[i])
            // the semaphore is short of the ring by exactly the claims and the release under way
            && s.sem + |Claimants(s.threads)| + Unreleased(s) == |s.posted| - |s.fetched|
            // a fetch reads a slot that was written, and ReleaseSemaphore does not fail
            && (forall t :: t in s.threads && s.threads[t].FetchLoad? ==>
                  |s.fetched| < |s.posted| && s.qMem[s.tail] == s.posted[|s.fetched|])
            && (forall t :: t in s.threads && s.threads[t].PostRelease? ==>
               s.sem + 1 < MAX_QUEUE_ENTRIES && s.head != s.tail)
  {
    hide Run;
    InitialInv(s0);
    RunKeepsInv(s0, events);
    var s := Run(s0, events).value;
    forall t | t in s.threads && s.threads[t].FetchLoad?
      ensures |s.fetched| < |s.posted| && s.qMem[s.tail] == s.posted[|s.fetched|]
    {
      ClaimMeansMessage(s, t);
    }
  }

  predicate Blocked(s: State, t: Tid)
    requires Sized(s) && t in s.threads
  {
    s.threads[t].Idle? || (Next(s, t, Go).None? && Next(s, t, TimeOut).None?)
  }

  /** With any number of fetchers, nothing can move only when every call under way is an
      unlimited fetch and there is no message left that is not on its way to a fetcher. */
  lemma NoDeadlock(s0: State, events: seq<Event>)
    requires Initial(s0) && Run(s0, events).Some?
    ensures var s := Run(s0, events).value;
            && Sized(s)
            && ((forall t :: t in s.threads ==> Blocked(s, t)) ==>
                  && (forall t :: t in s.threads ==> s.threads[t].Idle? || s.threads[t] == FetchWait(Forever))
                  && ((exists t :: t in s.threads && s.threads[t].FetchWait?) ==> s.fetched == s.posted))
  {
    hide Run;
    InitialInv(s0);
    RunKeepsInv(s0, events);
    var s := Run(s0, events).value;
    if forall t :: t in s.threads ==> Blocked(s, t) {
      StuckMeansEmpty(s);
    }
  }

  lemma StuckMeansEmpty(s: State)
    requires Inv(s) && forall t :: t in s.threads ==> Blocked(s, t)
    ensures forall t :: t in s.threads ==> s.threads[t].Idle? || s.threads[t] == FetchWait(Forever)
    ensures (exists t :: t in s.threads && s.threads[t].FetchWait?) ==> s.fetched == s.posted
  {
  }

  // ----- One call by itself -----

  /** A thread's call and `n` more steps of its own. */
  function Alone(t: Tid, c: Choice, n: nat): seq<Event> {
    [Event(t, c)] + seq(n, _ => Event(t, Go))
  }

  lemma AloneStep(s: State, t: Tid, c: Choice, next: State, n: nat, e: State)
    requires t in s.threads && Sized(s) && Next(s, t, c) == Some(next)
    requires if n == 0 then next == e else Run(next, Alone(t, Go, n - 1)) == Some(e)
    ensures Run(s, Alone(t, c, n)) == Some(e)
  {
    hide Next;
    assert Run(e, []) == Some(e);
    assert Alone(t, c, n)[1..] == if n == 0 then [] else Alone(t, Go, n - 1);
  }

  predicate Open(s: State, t: Tid) {
    && |s.qMem| == MAX_QUEUE_ENTRIES && s.head < MAX_QUEUE_ENTRIES && s.tail < MAX_QUEUE_ENTRIES
    && t in s.threads && s.owner == None
  }

  /** Thread `t` alone has gone in. */
  function Inside(s: State, t: Tid, pc: Pc): State {
    s.(owner := Some(t)).At(t, pc)
  }

  lemma InsideNext(s: State, t: Tid, pc: Pc, s': State, pc': Pc)
    requires Open(s, t) && s'.threads == s.threads
    ensures t in Inside(s, t, pc).threads && Sized(Inside(s, t, pc)) && Inside(s, t, pc).threads[t] == pc
    ensures Inside(s', t, pc') == s'.(threads := Inside(s, t, pc).threads, owner := Some(t)).At(t, pc')
    ensures s.At(t, pc') == s.(threads := Inside(s, t, pc).threads).At(t, pc')
  {
    assert s.threads[t := pc][t := pc'] == s.threads[t := pc'];
  }

  function Posted(s: State, m: Msg): State
    requires |s.qMem| == MAX_QUEUE_ENTRIES && s.head < MAX_QUEUE_ENTRIES
  {
    s.(qMem := s.qMem[s.head := m], head := Up(s.head), posted := s.posted + [m])
  }

  /** A trypost behind its test. */
  lemma Posts(s: State, t: Tid, m: Msg)
    requires Open(s, t) && s.sem < MAX_QUEUE_ENTRIES
    ensures Run(Inside(s, t, PostStore(m, Up(s.head))), Alone(t, Go, 3)) ==
            Some(Posted(s, m).(sem := s.sem + 1).At(t, Idle))
  {
    hide Run;
    var newHead, p := Up(s.head), Posted(s, m);
    var stored, done := s.(qMem := p.qMem), p.(sem := s.sem + 1);
    InsideNext(s, t, PostStore(m, newHead), stored, PostHead(m, newHead));
    InsideNext(stored, t, PostHead(m, newHead), p, PostRelease);
    InsideNext(p, t, PostRelease, done, PostLeave);
    InsideNext(done, t, PostLeave, done, Idle);
    AloneStep(Inside(done, t, PostLeave), t, Go, done.At(t, Idle), 0, done.At(t, Idle));
    AloneStep(Inside(p, t, PostRelease), t, Go, Inside(done, t, PostLeave), 1, done.At(t, Idle));
    AloneStep(Inside(stored, t, PostHead(m, newHead)), t, Go, Inside(p, t, PostRelease), 2, done.At(t, Idle));
    AloneStep(Inside(s, t, PostStore(m, newHead)), t, Go, Inside(stored, t, PostHead(m, newHead)), 3, done.At(t, Idle));
  }

  lemma PostGoesIn(s: State, t: Tid, m: Msg, pc: Pc, n: nat, e: State)
    requires Open(s, t) && s.threads[t].Idle?
    requires pc == if Up(s.head) == s.tail then PostFull else PostStore(m, Up(s.head))
    requires Run(Inside(s, t, pc), Alone(t, Go, n)) == Some(e)
    ensures Run(s, Alone(t, CallTryPost(m), n + 3)) == Some(e)
  {
    hide Run;
    InsideNext(s, t, PostTest(m), s, pc);
    InsideNext(s, t, PostEnter(m), s, PostTest(m));
    AloneStep(Inside(s, t, PostTest(m)), t, Go, Inside(s, t, pc), n + 1, e);
    AloneStep(s.At(t, PostEnter(m)), t, Go, Inside(s, t, PostTest(m)), n + 2, e);
    AloneStep(s, t, CallTryPost(m), s.At(t, PostEnter(m)), n + 3, e);
  }

  lemma Refused(s: State, t: Tid)
    requires Open(s, t)
    ensures Run(Inside(s, t, PostFull), Alone(t, Go, 0)) == Some(s.At(t, Idle))
  {
    InsideNext(s, t, PostFull, s, Idle);
    AloneStep(Inside(s, t, PostFull), t, Go, s.At(t, Idle), 0, s.At(t, Idle));
  }

  /** In every reachable state in which nobody is in the critical section a trypost delivers its message if
      fewer than 99 are waiting, and changes nothing if there are 99. */
  lemma TryPostAnswers(s0: State, events: seq<Event>, t: Tid, m: Msg) returns (n: nat)
    requires Initial(s0) && Run(s0, events).Some? && Run(s0, events).value.owner == None
    requires t in Run(s0, events).value.threads && Run(s0, events).value.threads[t].Idle?
    ensures var s := Run(s0, events).value;
            && Run(s, Alone(t, CallTryPost(m), n)).Some?
            && var p := Run(s, Alone(t, CallTryPost(m), n)).value;
            if |s.posted| - |s.fetched| < MAX_QUEUE_ENTRIES - 1 then
              && p.threads == s.threads && p.owner == None && p.sem == s.sem + 1
              && p.posted == s.posted + [m] && p.fetched == s.fetched
            else p == s
  {
    hide Run, Posted;
    InitialInv(s0);
    RunKeepsInv(s0, events);
    var s := Run(s0, events).value;
    FullIs(s);
    assert s.threads[t := Idle] == s.threads;
    if Up(s.head) == s.tail {
      Refused(s, t);
      PostGoesIn(s, t, m, PostFull, 0, s.At(t, Idle));
      n := 3;
    } else {
      Posts(s, t, m);
      PostGoesIn(s, t, m, PostStore(m, Up(s.head)), 3, Posted(s, m).(sem := s.sem + 1).At(t, Idle));
      n := 6;
      PostedHas(s, m);
    }
  }

  lemma PostedHas(s: State, m: Msg)
    requires |s.qMem| == MAX_QUEUE_ENTRIES && s.head < MAX_QUEUE_ENTRIES
    ensures var p := Posted(s, m);
            p.posted == s.posted + [m] && p.fetched == s.fetched && p.threads == s.threads && p.owner == s.owner
  {
  }

  /** The test of a trypost finds the ring full at 99 messages. */
  lemma FullIs(s: State)
    requires Inv(s)
    ensures Up(s.head) == s.tail <==> |s.posted| - |s.fetched| == MAX_QUEUE_ENTRIES - 1
    ensures s.sem < MAX_QUEUE_ENTRIES
  {
    UpIsNext(|s.posted|);
    SameSlot(|s.fetched|, |s.posted| + 1);
  }

  /** The first message taken. */
  function Fetched(s: State): State
    requires |s.qMem| == MAX_QUEUE_ENTRIES && s.tail < MAX_QUEUE_ENTRIES
  {
    s.(tail := Up(s.tail), fetched := s.fetched + [s.qMem[s.tail]])
  }

  /** A fetch that has taken the semaphore. */
  lemma Fetches(s: State, t: Tid)
    requires Open(s, t)
    ensures Run(s.At(t, FetchEnter), Alone(t, Go, 3)) == Some(Fetched(s).At(t, Idle))
  {
    hide Run;
    var f, m := Fetched(s), s.qMem[s.tail];
    InsideNext(s, t, FetchEnter, s, FetchLoad);
    InsideNext(s, t, FetchLoad, s, FetchTail(m));
    InsideNext(s, t, FetchTail(m), f, FetchLeave);
    InsideNext(f, t, FetchLeave, f, Idle);
    AloneStep(Inside(f, t, FetchLeave), t, Go, f.At(t, Idle), 0, f.At(t, Idle));
    AloneStep(Inside(s, t, FetchTail(m)), t, Go, Inside(f, t, FetchLeave), 1, f.At(t, Idle));
    AloneStep(Inside(s, t, FetchLoad), t, Go, Inside(s, t, FetchTail(m)), 2, f.At(t, Idle));
    AloneStep(s.At(t, FetchEnter), t, Go, Inside(s, t, FetchLoad), 3, f.At(t, Idle));
  }

  /** Likewise every fetch takes the first message if there is one that no other fetch has claimed. If
      there is none, a tryfetch gives up, one with a limit does when its time is up, and one without waits. */
  lemma FetchAnswers(s0: State, events: seq<Event>, t: Tid, wait: Wait)
    requires Initial(s0) && Run(s0, events).Some? && Run(s0, events).value.owner == None
    requires t in Run(s0, events).value.threads && Run(s0, events).value.threads[t].Idle?
    ensures var s := Run(s0, events).value;
            if |s.posted| - |s.fetched| > |Claimants(s.threads)| then
              && Run(s, Alone(t, CallFetch(wait), 5)).Some?
              && var p := Run(s, Alone(t, CallFetch(wait), 5)).value;
              && p.threads == s.threads && p.owner == None && p.sem == s.sem - 1
              && p.fetched == s.fetched + [s.posted[|s.fetched|]] && p.posted == s.posted
            else
              && Run(s, Alone(t, CallFetch(wait), 1)) == None
              && Run(s, [Event(t, CallFetch(wait)), Event(t, TimeOut)]) == if wait.Forever? then None else Some(s)
  {
    hide Run;
    InitialInv(s0);
    RunKeepsInv(s0, events);
    var s := Run(s0, events).value;
    assert s.threads[t := Idle] == s.threads;
    assert s.sem + |Claimants(s.threads)| == |s.posted| - |s.fetched|;
    if s.sem > 0 {
      assert s.qMem[s.tail] == s.posted[|s.fetched|];
      FetchTakes(s, t, wait);
    } else {
      FetchFails(s, t, wait);
    }
  }

  lemma FetchTakes(s: State, t: Tid, wait: Wait)
    requires Open(s, t) && s.threads[t].Idle? && s.sem > 0
    ensures Run(s, Alone(t, CallFetch(wait), 5)) == Some(Fetched(s.(sem := s.sem - 1)).At(t, Idle))
  {
    hide Run, Next, Alone, Fetched;
    var woken := s.(sem := s.sem - 1);
    var e := Fetched(woken).At(t, Idle);
    FetchCalled(s, t, wait);
    Fetches(woken, t);
    AloneStep(s.At(t, FetchWait(wait)), t, Go, woken.At(t, FetchEnter), 4, e);
    AloneStep(s, t, CallFetch(wait), s.At(t, FetchWait(wait)), 5, e);
  }

  lemma FetchCalled(s: State, t: Tid, wait: Wait)
    requires Open(s, t) && s.threads[t].Idle? && s.sem > 0
    ensures Next(s, t, CallFetch(wait)) == Some(s.At(t, FetchWait(wait)))
    ensures t in s.At(t, FetchWait(wait)).threads && Sized(s.At(t, FetchWait(wait)))
    ensures Next(s.At(t, FetchWait(wait)), t, Go) == Some(s.(sem := s.sem - 1).At(t, FetchEnter))
  {
    assert s.threads[t := FetchWait(wait)][t := FetchEnter] == s.threads[t := FetchEnter];
  }

  lemma FetchFails(s: State, t: Tid, wait: Wait)
    requires Open(s, t) && s.threads[t].Idle? && s.sem == 0
    ensures Run(s, Alone(t, CallFetch(wait), 1)) == None
    ensures Run(s, [Event(t, CallFetch(wait)), Event(t, TimeOut)]) == if wait.Forever? then None else Some(s)
  {
    var waiting := s.At(t, FetchWait(wait));
    assert waiting.At(t, Idle) == s by { assert waiting.threads[t := Idle] == s.threads; }
    assert Alone(t, CallFetch(wait), 1) == [Event(t, CallFetch(wait)), Event(t, Go)];
    assert [Event(t, CallFetch(wait)), Event(t, Go)][1..] == [Event(t, Go)];
    assert [Event(t, CallFetch(wait)), Event(t, TimeOut)][1..] == [Event(t, TimeOut)];
    assert Run(s, []) == Some(s);
    assert [Event(t, TimeOut)][1..] == [];
  }

  // ----- The shared data itself -----

  /** struct lwip_mbox with its threads; each step changes the fields as the C statement or
      kernel call it stands for does. */
  class Mbox {
    var head: nat
    var tail: nat
    const qMem: array<Msg>
    var sem: nat
    var threads: map<Tid, Pc>
    ghost var owner: Option<Tid>
    var inside: bool
    ghost var posted: seq<Msg>
    ghost var fetched: seq<Msg>

    ghost function Abs(): State
      reads this, qMem
    {
      State(head, tail, qMem[..], sem, threads, owner, posted, fetched)
    }

    ghost predicate Valid()
      reads this, qMem
    {
      Sized(Abs()) && (inside <==> owner.Some?)
    }

    /** sys_mbox_new, for a set of threads that will use the mailbox. */
    constructor (users: set<Tid>)
      ensures Valid() && Initial(Abs()) && threads.Keys == users && fresh(qMem)
    {
      head, tail, sem, inside := 0, 0, 0, false;
      qMem := new Msg[MAX_QUEUE_ENTRIES](_ => 0);
      threads := map t | t in users :: Idle;
      owner, posted, fetched := None, [], [];
    }

    /** SYS_ARCH_PROTECT. */
    method Enter(t: Tid, pc: Pc) returns (moved: bool)
      requires Valid() && t in threads
      modifies this
      ensures Valid() && moved == Entered(old(Abs()), t, pc).Some?
      ensures Abs() == if moved then Entered(old(Abs()), t, pc).value else old(Abs())
    {
      moved := !inside;
      if moved {
        inside, owner := true, Some(t);
        threads := threads[t := pc];
      }
    }

    /** SYS_ARCH_UNPROTECT and return. */
    method Leave(t: Tid)
      requires Valid() && t in threads
      modifies this
      ensures Valid() && Some(Abs()) == Left(old(Abs()), t)
    {
      inside, owner := false, None;
      threads := threads[t := Idle];
    }

    /** Whatever is scheduled next. */
    method Step(t: Tid, c: Choice) returns (moved: bool)
      requires Valid() && t in threads && Inv(Abs())
      modifies this, qMem
      ensures moved == Next(old(Abs()), t, c).Some?
      ensures Abs() == if moved then Next(old(Abs()), t, c).value else old(Abs())
      ensures Valid() && Inv(Abs())
    {
      ghost var before := Abs();
      moved := Execute(t, c);
      if moved {
        InvNext(before, t, c);
      }
    }

    method Execute(t: Tid, c: Choice) returns (moved: bool)
      requires Valid() && t in threads
      modifies this, qMem
      ensures moved == Next(old(Abs()), t, c).Some?
      ensures Abs() == if moved then Next(old(Abs()), t, c).value else old(Abs())
      ensures inside <==> owner.Some?
    {
      var pc := threads[t];
      if pc.Idle? {
        moved := true;
        match c
        case CallTryPost(m) => threads := threads[t := PostEnter(m)];
        case CallFetch(wait) => threads := threads[t := FetchWait(wait)];
        case _ => moved := false;
      } else if pc.Posts() {
        moved := TryPost(t, c);
      } else {
        moved := Fetch(t, c);
      }
    }

    method TryPost(t: Tid, c: Choice) returns (moved: bool)
      requires Valid() && t in threads
      requires threads[t].Posts()
      modifies this, qMem
      ensures moved == Next(old(Abs()), t, c).Some?
      ensures Abs() == if moved then Next(old(Abs()), t, c).value else old(Abs())
      ensures inside <==> owner.Some?
    {
      moved := true;
      match threads[t]
      case PostEnter(m) => moved := Enter(t, PostTest(m));
      case PostTest(m) =>
        var newHead := head + 1;
        if newHead >= MAX_QUEUE_ENTRIES {
          newHead := 0;
        }
        threads := threads[t := if newHead == tail then PostFull else PostStore(m, newHead)];
      case PostFull => Leave(t);
      case PostStore(m, newHead) =>
        qMem[head] := m;
        threads := threads[t := PostHead(m, newHead)];
      case PostHead(m, newHead) =>
        head := newHead;
        posted := posted + [m];
        threads := threads[t := PostRelease];
      case PostRelease =>
        moved := sem < MAX_QUEUE_ENTRIES;
        if moved {
          sem := sem + 1;
          threads := threads[t := PostLeave];
        }
      case PostLeave => Leave(t);
    }

    method Fetch(t: Tid, c: Choice) returns (moved: bool)
      requires Valid() && t in threads
      requires !threads[t].Posts() && !threads[t].Idle?
      modifies this
      ensures moved == Next(old(Abs()), t, c).Some?
      ensures Abs() == if moved then Next(old(Abs()), t, c).value else old(Abs())
      ensures inside <==> owner.Some?
    {
      moved := true;
      match threads[t]
      case FetchWait(wait) =>
        if c.TimeOut? {
          moved := wait.Limited? || (wait.Poll? && sem == 0);
          if moved {
            threads := threads[t := Idle];
          }
        } else {
          moved := sem > 0;
          if moved {
            sem := sem - 1;
            threads := threads[t := FetchEnter];
          }
        }
      case FetchEnter => moved := Enter(t, FetchLoad);
      case FetchLoad => threads := threads[t := FetchTail(qMem[tail])];
      case FetchTail(m) =>
        tail := tail + 1;
        if tail >= MAX_QUEUE_ENTRIES {
          tail := 0;
        }
        fetched := fetched + [m];
        threads := threads[t := FetchLeave];
      case FetchLeave => Leave(t);
    }
  }
}

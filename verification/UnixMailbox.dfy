/** The mailbox of the unix port as a machine of threads. Every semaphore operation and every
    statement on shared data is one step, and any thread that can step may step next. */
module UnixMailbox {
  import opened Common

  const SYS_MBOX_SIZE := 128

  type Msg = nat
  type Tid = nat

  /** Where a thread is inside a mailbox call. */
  datatype Pc =
    | Idle
    // sys_mbox_post: lock, test, and while the ring is full count itself, unlock, wait, relock
    | PostLock(msg: Msg) | PostTest(msg: Msg) | PostCount(msg: Msg) | PostUnlock(msg: Msg)
    | PostWait(msg: Msg) | PostRelock(msg: Msg) | PostUncount(msg: Msg)
    // sys_mbox_trypost
    | TryPostLock(msg: Msg) | TryPostTest(msg: Msg) | TryPostFull
    // the end of both: store, advance `last`, signal if the ring was empty, unlock
    | Store(msg: Msg) | Advance(msg: Msg) | SignalNotEmpty | PostRelease
    // sys_arch_mbox_fetch
    | FetchLock(timed: bool) | FetchTest(timed: bool) | FetchUnlock(timed: bool)
    | FetchWait(timed: bool) | FetchRelock(timed: bool)
    // sys_arch_mbox_tryfetch
    | TryFetchLock | TryFetchTest | TryFetchEmpty
    // the end of both: load, advance `first`, signal if a poster waits, unlock
    | Load | Take(msg: Msg) | SignalNotFull | FetchRelease
  {
    /** Inside the critical section. */
    predicate Holds() {
      !(Idle? || PostLock? || PostWait? || PostRelock? || TryPostLock? ||
        FetchLock? || FetchWait? || FetchRelock? || TryFetchLock?)
    }

    /** Waiting for the mailbox mutex. */
    predicate Locks() {
      PostLock? || PostRelock? || TryPostLock? || FetchLock? || FetchRelock? || TryFetchLock?
    }

    /** Between `wait_send++` and `wait_send--`. */
    predicate Counted() {
      PostUnlock? || PostWait? || PostRelock? || PostUncount?
    }

    predicate Fetches() {
      FetchLock? || FetchTest? || FetchUnlock? || FetchWait? || FetchRelock? ||
      TryFetchLock? || TryFetchTest? || TryFetchEmpty? || Load? || Take? || SignalNotFull? || FetchRelease?
    }

    /** A poster that will look at the ring again, or is about to fill a slot. */
    predicate Posting() {
      PostRelock? || PostUncount? || PostTest? || Store? || Advance?
    }
  }

  /** What the scheduler decides: which call an idle thread makes, and whether a timed wait ends. */
  datatype Choice = CallPost(msg: Msg) | CallTryPost(msg: Msg) | CallFetch(timed: bool) | CallTryFetch | Go | TimeOut

  datatype State = State(
    first: nat, last: nat, msgs: seq<Msg>,
    notEmpty: nat, notFull: nat, mutex: nat, waitSend: int,
    threads: map<Tid, Pc>,
    owner: Option<Tid>, posted: seq<Msg>, fetched: seq<Msg>)  // who holds the mutex, and the histories
  {
    function At(t: Tid, pc: Pc): State {
      this.(threads := threads[t := pc])
    }

    predicate Full() {
      last + 1 >= first + SYS_MBOX_SIZE
    }
  }

  /** sys_sem_signal: a semaphore never counts beyond one. */
  function Signalled(c: nat): (r: nat)
    ensures r == 1
  {
    var up := c + 1;
    if up > 1 then 1 else up
  }

  function Locked(s: State, t: Tid, pc: Pc): Option<State> {
    if s.mutex > 0 then Some(s.(mutex := s.mutex - 1, owner := Some(t)).At(t, pc)) else None
  }

  function Unlocked(s: State, t: Tid, pc: Pc): Option<State> {
    Some(s.(mutex := Signalled(s.mutex), owner := None).At(t, pc))
  }

  /** One step of thread `t`; `None` when it cannot move. */
  function Next(s: State, t: Tid, c: Choice): Option<State>
    requires t in s.threads && |s.msgs| == SYS_MBOX_SIZE
  {
    var pc := s.threads[t];
    if pc.Idle? then Called(s, t, c) else if pc.Fetches() then FetchStep(s, t, pc, c) else PostStep(s, t, pc)
  }

  function Called(s: State, t: Tid, c: Choice): Option<State> {
    match c
    case CallPost(m) => Some(s.At(t, PostLock(m)))
    case CallTryPost(m) => Some(s.At(t, TryPostLock(m)))
    case CallFetch(timed) => Some(s.At(t, FetchLock(timed)))
    case CallTryFetch => Some(s.At(t, TryFetchLock))
    case _ => None
  }

  function PostStep(s: State, t: Tid, pc: Pc): Option<State>
    requires !pc.Idle? && !pc.Fetches() && |s.msgs| == SYS_MBOX_SIZE
  {
    match pc
    case PostLock(m) => Locked(s, t, PostTest(m))
    case PostTest(m) => Some(s.At(t, if s.Full() then PostCount(m) else Store(m)))
    case PostCount(m) => Some(s.(waitSend := s.waitSend + 1).At(t, PostUnlock(m)))
    case PostUnlock(m) => Unlocked(s, t, PostWait(m))
    case PostWait(m) => if s.notFull > 0 then Some(s.(notFull := s.notFull - 1).At(t, PostRelock(m))) else None
    case PostRelock(m) => Locked(s, t, PostUncount(m))
    case PostUncount(m) => Some(s.(waitSend := s.waitSend - 1).At(t, PostTest(m)))
    case TryPostLock(m) => Locked(s, t, TryPostTest(m))
    case TryPostTest(m) => Some(s.At(t, if s.Full() then TryPostFull else Store(m)))
    case TryPostFull => Unlocked(s, t, Idle)
    case Store(m) => Some(s.(msgs := s.msgs[s.last % SYS_MBOX_SIZE := m]).At(t, Advance(m)))
    case Advance(m) =>
      var wasEmpty := s.last == s.first;
      Some(s.(last := s.last + 1, posted := s.posted + [m]).At(t, if wasEmpty then SignalNotEmpty else PostRelease))
    case SignalNotEmpty => Some(s.(notEmpty := Signalled(s.notEmpty)).At(t, PostRelease))
    case PostRelease => Unlocked(s, t, Idle)
  }

  function FetchStep(s: State, t: Tid, pc: Pc, c: Choice): Option<State>
    requires pc.Fetches() && |s.msgs| == SYS_MBOX_SIZE
  {
    match pc
    case FetchLock(timed) => Locked(s, t, FetchTest(timed))
    case FetchTest(timed) => Some(s.At(t, if s.first == s.last then FetchUnlock(timed) else Load))
    case FetchUnlock(timed) => Unlocked(s, t, FetchWait(timed))
    case FetchWait(timed) =>
      if c.TimeOut? then (if timed then Some(s.At(t, Idle)) else None)
      else if s.notEmpty > 0 then Some(s.(notEmpty := s.notEmpty - 1).At(t, FetchRelock(timed)))
      else None
    case FetchRelock(timed) => Locked(s, t, FetchTest(timed))
    case TryFetchLock => Locked(s, t, TryFetchTest)
    case TryFetchTest => Some(s.At(t, if s.first == s.last then TryFetchEmpty else Load))
    case TryFetchEmpty => Unlocked(s, t, Idle)
    case Load => Some(s.At(t, Take(s.msgs[s.first % SYS_MBOX_SIZE])))
    case Take(m) =>
      Some(s.(first := s.first + 1, fetched := s.fetched + [m])
            .At(t, if s.waitSend != 0 then SignalNotFull else FetchRelease))
    case SignalNotFull => Some(s.(notFull := Signalled(s.notFull)).At(t, FetchRelease))
    case FetchRelease => Unlocked(s, t, Idle)
  }

  // ----- Runs -----

  ghost predicate Initial(s: State) {
    && s.first == 0 && s.last == 0 && |s.msgs| == SYS_MBOX_SIZE
    && s.notEmpty == 0 && s.notFull == 0 && s.mutex == 1 && s.waitSend == 0
    && (forall t :: t in s.threads ==> s.threads[t] == Idle)
    && s.owner == None && s.posted == [] && s.fetched == []
  }

  datatype Event = Event(thread: Tid, choice: Choice)

  /** The state after the events; `None` when one of them was not possible. */
  function Run(s: State, events: seq<Event>): Option<State>
    decreases |events|
  {
    if events == [] then Some(s)
    else if events[0].thread !in s.threads || |s.msgs| != SYS_MBOX_SIZE then None
    else
      var next := Next(s, events[0].thread, events[0].choice);
      if next.None? then None else Run(next.value, events[1..])
  }

  // ----- Mutual exclusion -----

  ghost predicate OneOwner(s: State) {
    && s.mutex <= 1 && (s.mutex == 1 <==> s.owner == None)
    && (forall t :: t in s.threads && s.threads[t].Holds() ==> s.owner == Some(t))
    && (s.owner.Some? ==> s.owner.value in s.threads && s.threads[s.owner.value].Holds())
  }

  /** Every step moves one thread, and takes, keeps or gives back the mutex. */
  ghost predicate Shape(s: State, t: Tid, s': State)
    requires t in s.threads
  {
    && t in s'.threads && s'.threads == s.threads[t := s'.threads[t]]
    && if s.threads[t].Holds()
       then if s'.threads[t].Holds() then s'.mutex == s.mutex && s'.owner == s.owner
            else s'.mutex == 1 && s'.owner == None
       else if s'.threads[t].Holds()
            then s.threads[t].Locks() && s.mutex > 0 && s'.mutex == s.mutex - 1 && s'.owner == Some(t)
            else s'.mutex == s.mutex && s'.owner == s.owner
  }

  lemma StepShape(s: State, t: Tid, c: Choice)
    requires t in s.threads && |s.msgs| == SYS_MBOX_SIZE && Next(s, t, c).Some?
    ensures Shape(s, t, Next(s, t, c).value)
  {
    if s.threads[t].Holds() {
      StepShapeInside(s, t, c);
    } else {
      StepShapeOutside(s, t, c);
    }
  }

  lemma StepShapeInside(s: State, t: Tid, c: Choice)
    requires t in s.threads && |s.msgs| == SYS_MBOX_SIZE && Next(s, t, c).Some? && s.threads[t].Holds()
    ensures Shape(s, t, Next(s, t, c).value)
  {
    if s.threads[t].Fetches() {
    } else {
      PostShapeInside(s, t, c);
    }
  }

  lemma PostShapeInside(s: State, t: Tid, c: Choice)
    requires t in s.threads && |s.msgs| == SYS_MBOX_SIZE && Next(s, t, c).Some?
    requires s.threads[t].Holds() && !s.threads[t].Fetches()
    ensures Shape(s, t, Next(s, t, c).value)
  {
  }

  lemma StepShapeOutside(s: State, t: Tid, c: Choice)
    requires t in s.threads && |s.msgs| == SYS_MBOX_SIZE && Next(s, t, c).Some? && !s.threads[t].Holds()
    ensures Shape(s, t, Next(s, t, c).value)
  {
  }

  lemma OneOwnerNext(s: State, t: Tid, c: Choice)
    requires OneOwner(s) && t in s.threads && |s.msgs| == SYS_MBOX_SIZE && Next(s, t, c).Some?
    ensures OneOwner(Next(s, t, c).value)
  {
    StepShape(s, t, c);
    hide Next;
  }

  // ----- First in, first out -----

  /** What a thread in the critical section may rely on. */
  ghost predicate Knows(s: State, pc: Pc)
    requires |s.msgs| == SYS_MBOX_SIZE && |s.posted| == s.last
  {
    match pc
    case PostCount(_) => s.Full()
    case PostUnlock(_) => s.Full()
    case Store(_) => !s.Full()
    case Advance(m) => !s.Full() && s.msgs[s.last % SYS_MBOX_SIZE] == m
    case FetchUnlock(_) => s.first == s.last
    case Load => s.first < s.last
    case Take(m) => s.first < s.last && m == s.posted[s.first]
    case SignalNotEmpty => s.first < s.last
    case _ => true
  }

  /** The ring holds exactly what was posted and not yet fetched. */
  ghost predicate Ring(s: State) {
    && |s.msgs| == SYS_MBOX_SIZE
    && |s.posted| == s.last && s.first <= s.last && s.last - s.first < SYS_MBOX_SIZE
    && s.fetched == s.posted[..s.first]
    && (forall i {:trigger s.posted[i]} :: s.first <= i < s.last ==> s.msgs[i % SYS_MBOX_SIZE] == s.posted[i])
  }

  ghost predicate Fifo(s: State) {
    && Ring(s)
    && (s.owner.Some? && s.owner.value in s.threads ==> Knows(s, s.threads[s.owner.value]))
  }

  lemma FifoNext(s: State, t: Tid, c: Choice)
    requires OneOwner(s) && Fifo(s) && t in s.threads && Next(s, t, c).Some?
    ensures Fifo(Next(s, t, c).value)
  {
    StepShape(s, t, c);
    hide Next;
    if s.threads[t].Holds() {
      InsideStep(s, t, c);
    } else {
      OutsideStep(s, t, c);
    }
  }

  /** Outside the critical section the ring is not touched. */
  lemma OutsideStep(s: State, t: Tid, c: Choice)
    requires t in s.threads && |s.msgs| == SYS_MBOX_SIZE && Next(s, t, c).Some?
    requires !s.threads[t].Holds() && |s.posted| == s.last
    ensures var s' := Next(s, t, c).value;
            && s'.first == s.first && s'.last == s.last && s'.msgs == s.msgs
            && s'.posted == s.posted && s'.fetched == s.fetched
            && (s'.owner == Some(t) ==> s.threads[t].Locks() ==> Knows(s', s'.threads[t]))
  {
  }

  lemma InsideStep(s: State, t: Tid, c: Choice)
    requires Ring(s) && t in s.threads && Knows(s, s.threads[t]) && Next(s, t, c).Some?
    requires s.threads[t].Holds()
    ensures var s' := Next(s, t, c).value; Ring(s') && Knows(s', s'.threads[t])
  {
    match s.threads[t]
    case Store(m) => StoreKeepsRing(s, t, m);
    case Advance(m) => AdvanceKeepsRing(s, t, m);
    case Take(m) => TakeKeepsRing(s, t, m);
    case _ => QuietStep(s, t, c);
  }

  lemma StoreKeepsRing(s: State, t: Tid, m: Msg)
    requires Ring(s) && !s.Full()
    ensures var s' := PostStep(s, t, Store(m)).value; Ring(s') && Knows(s', s'.threads[t])
  {
  }

  lemma AdvanceKeepsRing(s: State, t: Tid, m: Msg)
    requires Ring(s) && Knows(s, Advance(m))
    ensures var s' := PostStep(s, t, Advance(m)).value; Ring(s') && Knows(s', s'.threads[t])
  {
  }

  lemma TakeKeepsRing(s: State, t: Tid, m: Msg)
    requires Ring(s) && Knows(s, Take(m))
    ensures var s' := FetchStep(s, t, Take(m), Go).value; Ring(s') && Knows(s', s'.threads[t])
  {
  }

  lemma QuietStep(s: State, t: Tid, c: Choice)
    requires Ring(s) && t in s.threads && Knows(s, s.threads[t]) && Next(s, t, c).Some?
    requires s.threads[t].Holds() && !(s.threads[t].Store? || s.threads[t].Advance? || s.threads[t].Take?)
    ensures var s' := Next(s, t, c).value;
            && s'.first == s.first && s'.last == s.last && s'.msgs == s.msgs
            && s'.posted == s.posted && s'.fetched == s.fetched && Ring(s') && Knows(s', s'.threads[t])
  {
    hide PostStep, FetchStep;
    var pc := s.threads[t];
    if pc.Fetches() {
      QuietFetch(s, t, pc, c);
    } else {
      QuietPost(s, t, pc);
    }
  }

  lemma QuietFetch(s: State, t: Tid, pc: Pc, c: Choice)
    requires Ring(s) && t in s.threads && pc == s.threads[t] && Knows(s, pc)
    requires pc.Holds() && pc.Fetches() && !pc.Take? && FetchStep(s, t, pc, c).Some?
    ensures var s' := FetchStep(s, t, pc, c).value;
            && t in s'.threads && s'.first == s.first && s'.last == s.last && s'.msgs == s.msgs
            && s'.posted == s.posted && s'.fetched == s.fetched && Ring(s') && Knows(s', s'.threads[t])
  {
  }

  lemma QuietPost(s: State, t: Tid, pc: Pc)
    requires Ring(s) && t in s.threads && pc == s.threads[t] && Knows(s, pc)
    requires pc.Holds() && !pc.Fetches() && !(pc.Store? || pc.Advance?) && PostStep(s, t, pc).Some?
    ensures var s' := PostStep(s, t, pc).value;
            && t in s'.threads && s'.first == s.first && s'.last == s.last && s'.msgs == s.msgs
            && s'.posted == s.posted && s'.fetched == s.fetched && Ring(s') && Knows(s', s'.threads[t])
  {
  }

  // ----- The count of waiting posters -----

  ghost function Waiters(threads: map<Tid, Pc>): set<Tid> {
    set t | t in threads && threads[t].Counted()
  }

  ghost predicate Counts(s: State) {
    s.waitSend == |Waiters(s.threads)|
  }

  lemma CountsNext(s: State, t: Tid, c: Choice)
    requires Counts(s) && t in s.threads && |s.msgs| == SYS_MBOX_SIZE && Next(s, t, c).Some?
    ensures Counts(Next(s, t, c).value)
  {
    hide Next;
    var s' := Next(s, t, c).value;
    StepShape(s, t, c);
    CountStep(s, t, c);
    var before, after := Waiters(s.threads), Waiters(s'.threads);
    if s'.threads[t].Counted() {
      assert after == before + {t};
    } else {
      assert after == before - {t};
    }
  }

  lemma CountStep(s: State, t: Tid, c: Choice)
    requires t in s.threads && |s.msgs| == SYS_MBOX_SIZE && Next(s, t, c).Some?
    ensures var s' := Next(s, t, c).value;
            t in s'.threads &&
            s'.waitSend - s.waitSend ==
              (if s'.threads[t].Counted() then 1 else 0) - (if s.threads[t].Counted() then 1 else 0)
  {
    hide PostStep, FetchStep;
    var pc := s.threads[t];
    if pc.Fetches() {
      FetchCountStep(s, t, pc, c);
    } else if !pc.Idle? {
      PostCountStep(s, t, pc);
    }
  }

  lemma FetchCountStep(s: State, t: Tid, pc: Pc, c: Choice)
    requires pc.Fetches() && |s.msgs| == SYS_MBOX_SIZE && FetchStep(s, t, pc, c).Some?
    ensures var s' := FetchStep(s, t, pc, c).value;
            t in s'.threads && s'.waitSend == s.waitSend && !pc.Counted() && !s'.threads[t].Counted()
  {
  }

  lemma PostCountStep(s: State, t: Tid, pc: Pc)
    requires !pc.Idle? && !pc.Fetches() && |s.msgs| == SYS_MBOX_SIZE && PostStep(s, t, pc).Some?
    ensures var s' := PostStep(s, t, pc).value;
            t in s'.threads &&
            s'.waitSend - s.waitSend == (if s'.threads[t].Counted() then 1 else 0) - (if pc.Counted() then 1 else 0)
  {
  }

  // ----- Wake-ups -----

  /** A parked poster can wait for a fetcher to be called, or will be woken, or one before it has been. */
  ghost predicate PosterWoken(s: State) {
    (exists t :: t in s.threads && s.threads[t].PostWait?) ==>
      || s.first < s.last || s.notFull > 0
      || (exists t :: t in s.threads && s.threads[t].SignalNotFull?)
      || (exists t :: t in s.threads && s.threads[t].Posting())
  }

  /** Somebody has been told that there are messages, or is about to be. */
  ghost predicate SignalComes(s: State) {
    s.notEmpty > 0 || exists t :: t in s.threads && s.threads[t].SignalNotEmpty?
  }

  /** Parked fetchers have nothing to fetch, or one of them will be woken. */
  ghost predicate FetcherWoken(s: State) {
    (exists t :: t in s.threads && s.threads[t].FetchWait?) ==> s.first == s.last || SignalComes(s)
  }

  predicate Parked(pc: Pc) {
    pc.FetchUnlock? || pc.FetchWait?
  }

  ghost predicate Inv(s: State) {
    OneOwner(s) && Fifo(s) && Counts(s)
  }

  lemma InvNext(s: State, t: Tid, c: Choice)
    requires Inv(s) && t in s.threads && Next(s, t, c).Some?
    ensures Inv(Next(s, t, c).value)
  {
    hide Next;
    OneOwnerNext(s, t, c);
    FifoNext(s, t, c);
    CountsNext(s, t, c);
  }

  /** How a step outside the fetch calls bears on waking. */
  ghost predicate PostWakes(s: State, pc: Pc, s': State, pc': Pc) {
    && s'.first == s.first && !Parked(pc') && !pc'.SignalNotFull?
    && s'.last == (if pc.Advance? then s.last + 1 else s.last)
    && (pc.Advance? && s.first == s.last ==> pc'.SignalNotEmpty?)
    && s'.notEmpty == (if pc.SignalNotEmpty? then 1 else s.notEmpty)
    && (s'.notFull != s.notFull ==> pc.PostWait? && pc'.PostRelock?)
    && (pc'.PostWait? ==> pc.PostUnlock?)
    && (pc.Posting() ==> pc'.Posting() || pc.Advance? || (pc.PostTest? && s.Full()))
  }

  lemma PostStepWakes(s: State, t: Tid, pc: Pc)
    requires !pc.Idle? && !pc.Fetches() && |s.msgs| == SYS_MBOX_SIZE && PostStep(s, t, pc).Some?
    ensures var s' := PostStep(s, t, pc).value; t in s'.threads && PostWakes(s, pc, s', s'.threads[t])
  {
  }

  /** How a step inside the fetch calls bears on waking. */
  ghost predicate FetchWakes(s: State, pc: Pc, s': State, pc': Pc) {
    && s'.last == s.last && !pc'.Posting() && !pc'.PostWait? && !pc'.SignalNotEmpty?
    && s'.first == (if pc.Take? then s.first + 1 else s.first)
    && (pc.Take? && s.waitSend != 0 ==> pc'.SignalNotFull?)
    && s'.notFull == (if pc.SignalNotFull? then 1 else s.notFull)
    && (s'.notEmpty != s.notEmpty ==> pc.FetchWait?)
    && (pc'.FetchWait? ==> pc.FetchUnlock?)
    && (pc'.FetchUnlock? ==> s.first == s.last)
  }

  lemma FetchStepWakes(s: State, t: Tid, pc: Pc, c: Choice)
    requires pc.Fetches() && |s.msgs| == SYS_MBOX_SIZE && FetchStep(s, t, pc, c).Some?
    ensures var s' := FetchStep(s, t, pc, c).value; t in s'.threads && FetchWakes(s, pc, s', s'.threads[t])
  {
  }

  lemma KeepsPc(s: State, t: Tid, s': State)
    requires t in s.threads && Shape(s, t, s')
    ensures forall u :: u in s.threads && u != t ==> u in s'.threads && s'.threads[u] == s.threads[u]
    ensures s'.threads.Keys == s.threads.Keys
  {
  }

  /** Every step of every thread keeps a parked poster's reason to be woken. */
  lemma PosterWokenNext(s: State, t: Tid, c: Choice)
    requires Inv(s) && PosterWoken(s) && t in s.threads && Next(s, t, c).Some?
    ensures PosterWoken(Next(s, t, c).value)
  {
    hide PostStep, FetchStep;
    var s' := Next(s, t, c).value;
    var pc := s.threads[t];
    StepShape(s, t, c);
    KeepsPc(s, t, s');
    if pc.Fetches() {
      FetchStepWakes(s, t, pc, c);
      hide Next;
      PosterWokenFetch(s, t, s');
    } else if !pc.Idle? {
      PostStepWakes(s, t, pc);
      hide Next;
      PosterStepsOn(s, t, s');
    }
  }

  lemma PosterWokenFetch(s: State, t: Tid, s': State)
    requires Inv(s) && PosterWoken(s) && t in s.threads && Shape(s, t, s')
    requires s.threads[t].Fetches() && FetchWakes(s, s.threads[t], s', s'.threads[t])
    ensures PosterWoken(s')
  {
    hide OneOwner, Fifo;
    KeepsPc(s, t, s');
    var pc := s.threads[t];
    if exists u :: u in s'.threads && s'.threads[u].PostWait? {
      var u :| u in s'.threads && s'.threads[u].PostWait?;
      assert u != t && s.threads[u].PostWait?;
      if pc.Take? {
        assert u in Waiters(s.threads);
      }
    }
  }

  lemma PosterStepsOn(s: State, t: Tid, s': State)
    requires Inv(s) && PosterWoken(s) && t in s.threads && Shape(s, t, s')
    requires !s.threads[t].Fetches() && PostWakes(s, s.threads[t], s', s'.threads[t])
    ensures PosterWoken(s')
  {
    KeepsPc(s, t, s');
    var pc := s.threads[t];
    if exists u :: u in s'.threads && s'.threads[u].PostWait? {
      var u :| u in s'.threads && s'.threads[u].PostWait?;
      if pc.PostUnlock? {
        assert s.Full();
      } else {
        assert u in s.threads && s.threads[u].PostWait?;
        if pc.PostWait? && s'.threads[t].PostRelock? {
          assert s'.threads[t].Posting();
        } else if pc.Posting() && !s'.threads[t].Posting() {
          assert pc.PostTest? ==> s.Full();
        } else if exists v :: v in s.threads && s.threads[v].Posting() {
          var v :| v in s.threads && s.threads[v].Posting();
          assert s'.threads[v].Posting();
        } else if exists v :: v in s.threads && s.threads[v].SignalNotFull? {
          var v :| v in s.threads && s.threads[v].SignalNotFull?;
          assert s'.threads[v].SignalNotFull?;
        }
      }
    }
  }

  /** A fetcher that takes the signal takes it from nobody who has something to fetch. */
  ghost predicate RobsNobody(s: State, t: Tid)
    requires t in s.threads
  {
    s.threads[t].FetchWait? ==>
      s.first == s.last || forall u :: u in s.threads && u != t ==> !s.threads[u].FetchWait?
  }

  /** Every step keeps a parked fetcher's reason to be woken, unless it takes it for itself. */
  lemma FetcherWokenNext(s: State, t: Tid, c: Choice)
    requires Inv(s) && FetcherWoken(s) && t in s.threads && Next(s, t, c).Some? && RobsNobody(s, t)
    ensures FetcherWoken(Next(s, t, c).value)
  {
    hide PostStep, FetchStep;
    var s' := Next(s, t, c).value;
    var pc := s.threads[t];
    StepShape(s, t, c);
    KeepsPc(s, t, s');
    if pc.Fetches() {
      FetchStepWakes(s, t, pc, c);
      hide Next;
      KnowsInside(s, t);
      FetcherWokenFetch(s, t, s');
    } else if !pc.Idle? {
      PostStepWakes(s, t, pc);
      hide Next;
      FetcherWokenPost(s, t, s');
    }
  }

  /** Whoever is inside the critical section knows what it relies on. */
  lemma KnowsInside(s: State, t: Tid)
    requires Inv(s) && t in s.threads
    ensures s.threads[t].FetchUnlock? ==> s.first == s.last
    ensures s.threads[t].Take? ==> s.first < s.last
  {
    hide Counts, Ring;
  }

  lemma FetcherWokenFetch(s: State, t: Tid, s': State)
    requires FetcherWoken(s) && t in s.threads && Shape(s, t, s') && RobsNobody(s, t)
    requires s.threads[t].Fetches() && FetchWakes(s, s.threads[t], s', s'.threads[t])
    requires s.threads[t].FetchUnlock? ==> s.first == s.last
    requires s.threads[t].Take? ==> s.first < s.last
    ensures FetcherWoken(s')
  {
    hide RobsNobody, Shape, SignalComes;
    RobsOnlyWhenParked(s, t);
    KeepsPc(s, t, s');
    if exists u :: u in s'.threads && s'.threads[u].FetchWait? {
      var u :| u in s'.threads && s'.threads[u].FetchWait?;
      if u != t && s.first != s.last {
        assert s.threads[u].FetchWait?;
        SignalStays(s, t, s');
      }
    }
  }

  lemma RobsOnlyWhenParked(s: State, t: Tid)
    requires t in s.threads && RobsNobody(s, t)
    ensures s.threads[t].FetchWait? && s.first != s.last ==>
              forall u :: u in s.threads && u != t ==> !s.threads[u].FetchWait?
  {
  }

  lemma SignalStays(s: State, t: Tid, s': State)
    requires SignalComes(s) && t in s.threads && Shape(s, t, s')
    requires !s.threads[t].SignalNotEmpty? && s'.notEmpty == s.notEmpty
    ensures SignalComes(s')
  {
    KeepsPc(s, t, s');
    if s.notEmpty == 0 {
      var v :| v in s.threads && s.threads[v].SignalNotEmpty?;
      assert s'.threads[v].SignalNotEmpty?;
    }
  }

  lemma FetcherWokenPost(s: State, t: Tid, s': State)
    requires Inv(s) && FetcherWoken(s) && t in s.threads && Shape(s, t, s')
    requires !s.threads[t].Fetches() && PostWakes(s, s.threads[t], s', s'.threads[t])
    ensures FetcherWoken(s')
  {
    KeepsPc(s, t, s');
    if exists u :: u in s'.threads && s'.threads[u].FetchWait? {
      var u :| u in s'.threads && s'.threads[u].FetchWait?;
      assert u != t && s.threads[u].FetchWait?;
      if s.threads[t].Advance? && s.first == s.last {
        assert s'.threads[t].SignalNotEmpty?;
      } else if exists v :: v in s.threads && s.threads[v].SignalNotEmpty? {
        var v :| v in s.threads && s.threads[v].SignalNotEmpty?;
        assert v != t ==> s'.threads[v].SignalNotEmpty?;
      }
    }
  }

  // ----- A single fetching thread -----

  ghost predicate OnlyFetcher(s: State, f: Tid) {
    f in s.threads && forall t :: t in s.threads && t != f ==> !s.threads[t].Fetches()
  }

  predicate FetchCall(c: Choice) {
    c.CallFetch? || c.CallTryFetch?
  }

  ghost predicate Awake(s: State, f: Tid) {
    OnlyFetcher(s, f) && FetcherWoken(s)
  }

  lemma OnlyFetcherNext(s: State, t: Tid, c: Choice, f: Tid)
    requires OnlyFetcher(s, f) && t in s.threads && |s.msgs| == SYS_MBOX_SIZE && Next(s, t, c).Some?
    requires FetchCall(c) ==> t == f
    ensures OnlyFetcher(Next(s, t, c).value, f)
  {
    var s' := Next(s, t, c).value;
    StepShape(s, t, c);
    assert t != f ==> !s'.threads[t].Fetches();
    hide Next;
  }

  lemma AwakeNext(s: State, t: Tid, c: Choice, f: Tid)
    requires Inv(s) && Awake(s, f) && t in s.threads && Next(s, t, c).Some?
    requires FetchCall(c) ==> t == f
    ensures Awake(Next(s, t, c).value, f)
  {
    hide Next;
    OnlyFetcherNext(s, t, c, f);
    FetcherWokenNext(s, t, c);
  }

  // ----- At most two users -----

  /** When all have come for a message and found none, there is none. */
  ghost predicate AllParkedOnEmpty(s: State) {
    (forall t :: t in s.threads ==> Parked(s.threads[t])) ==> s.first == s.last
  }

  ghost predicate PairAwake(s: State) {
    |s.threads.Keys| <= 2 && AllParkedOnEmpty(s) && FetcherWoken(s)
  }

  lemma TwoKeys(keys: set<Tid>, t: Tid, u: Tid)
    requires |keys| <= 2 && t in keys && u in keys && t != u
    ensures keys == {t, u}
  {
    assert |keys - {t, u}| == |keys| - 2;
  }

  lemma PairRobsNobody(s: State, t: Tid)
    requires PairAwake(s) && t in s.threads
    ensures RobsNobody(s, t)
  {
    if s.threads[t].FetchWait? {
      forall u | u in s.threads && u != t && s.threads[u].FetchWait? ensures s.first == s.last {
        TwoKeys(s.threads.Keys, t, u);
      }
    }
  }

  /** Who parks has seen an empty ring, and who changes the ring is not parked. */
  lemma ParksOnEmpty(s: State, t: Tid, c: Choice)
    requires Inv(s) && t in s.threads && Next(s, t, c).Some?
    ensures var s' := Next(s, t, c).value;
            t in s'.threads && (Parked(s'.threads[t]) ==> s'.first == s'.last)
  {
    hide PostStep, FetchStep;
    var pc := s.threads[t];
    if pc.Fetches() {
      FetchStepWakes(s, t, pc, c);
    } else if !pc.Idle? {
      PostStepWakes(s, t, pc);
    }
  }

  lemma PairAwakeNext(s: State, t: Tid, c: Choice)
    requires Inv(s) && PairAwake(s) && t in s.threads && Next(s, t, c).Some?
    ensures PairAwake(Next(s, t, c).value)
  {
    hide Next, FetcherWoken;
    StepShape(s, t, c);
    KeepsPc(s, t, Next(s, t, c).value);
    ParksOnEmpty(s, t, c);
    PairRobsNobody(s, t);
    FetcherWokenNext(s, t, c);
  }

  // ----- Every reachable state -----

  lemma {:induction false} RunKeepsInv(s: State, events: seq<Event>)
    requires Inv(s) && Run(s, events).Some?
    ensures Inv(Run(s, events).value)
    decreases |events|
  {
    hide Inv, Next;
    if events != [] {
      InvNext(s, events[0].thread, events[0].choice);
      RunKeepsInv(Next(s, events[0].thread, events[0].choice).value, events[1..]);
    }
  }

  lemma InitialInv(s: State)
    requires Initial(s)
    ensures Inv(s)
  {
  }

  /** For any number of posting and fetching threads and any schedule: what was fetched is what
      was posted, in order, as far as it has been fetched; the ring holds the rest and never
      more than 127 of it; at most one thread is in the critical section. */
  lemma FirstInFirstOut(s0: State, events: seq<Event>)
    requires Initial(s0) && Run(s0, events).Some?
    ensures var s := Run(s0, events).value;
            && s.fetched <= s.posted && |s.posted| - |s.fetched| <= SYS_MBOX_SIZE - 1
            && |s.msgs| == SYS_MBOX_SIZE && |s.fetched| == s.first && |s.posted| == s.last
            && (forall i {:trigger s.posted[i]} :: |s.fetched| <= i < |s.posted| ==>
               s.msgs[i % SYS_MBOX_SIZE] == s.posted[i])
            && (forall t, u :: t in s.threads && u in s.threads && s.threads[t].Holds() && s.threads[u].Holds() ==>
               t == u)
  {
    hide Run;
    InitialInv(s0);
    RunKeepsInv(s0, events);
  }

  lemma {:induction false} RunKeepsPosters(s: State, events: seq<Event>)
    requires Inv(s) && PosterWoken(s) && Run(s, events).Some?
    ensures PosterWoken(Run(s, events).value)
    decreases |events|
  {
    hide Inv, PosterWoken, Next;
    if events != [] {
      var e := events[0];
      InvNext(s, e.thread, e.choice);
      PosterWokenNext(s, e.thread, e.choice);
      RunKeepsPosters(Next(s, e.thread, e.choice).value, events[1..]);
    }
  }

  ghost predicate SingleFetcher(events: seq<Event>, f: Tid) {
    forall e :: e in events && FetchCall(e.choice) ==> e.thread == f
  }

  lemma {:induction false} RunKeepsAwake(s: State, events: seq<Event>, f: Tid)
    requires Inv(s) && Awake(s, f) && SingleFetcher(events, f) && Run(s, events).Some?
    ensures Awake(Run(s, events).value, f)
    decreases |events|
  {
    hide Inv, Awake, Next;
    if events != [] {
      var e := events[0];
      InvNext(s, e.thread, e.choice);
      AwakeNext(s, e.thread, e.choice, f);
      RunKeepsAwake(Next(s, e.thread, e.choice).value, events[1..], f);
    }
  }

  lemma {:induction false} RunKeepsPairAwake(s: State, events: seq<Event>)
    requires Inv(s) && PairAwake(s) && Run(s, events).Some?
    ensures PairAwake(Run(s, events).value)
    decreases |events|
  {
    hide Inv, PairAwake, Next;
    if events != [] {
      var e := events[0];
      InvNext(s, e.thread, e.choice);
      PairAwakeNext(s, e.thread, e.choice);
      RunKeepsPairAwake(Next(s, e.thread, e.choice).value, events[1..]);
    }
  }

  /** In every run, whoever posts and fetches, no poster's wake-up is lost; and no fetcher's is with a
      single fetching thread. */
  lemma NoLostWakeUp(s0: State, events: seq<Event>)
    requires Initial(s0) && Run(s0, events).Some?
    ensures var s := Run(s0, events).value;
            && PosterWoken(s)
            && ((exists f :: f in s0.threads && SingleFetcher(events, f)) ==> FetcherWoken(s))
  {
    hide Run;
    InitialInv(s0);
    RunKeepsPosters(s0, events);
    if exists f :: f in s0.threads && SingleFetcher(events, f) {
      var f :| f in s0.threads && SingleFetcher(events, f);
      RunKeepsAwake(s0, events, f);
    }
  }

  /** In a call and able to go on without a time-out. */
  predicate Runnable(s: State, t: Tid)
    requires |s.msgs| == SYS_MBOX_SIZE
  {
    t in s.threads && !s.threads[t].Idle? && Next(s, t, Go).Some?
  }

  /** With one fetching thread, a state in which no call can go on is one where nothing is left
      to do: no other thread is inside a call and the fetcher waits on an empty ring or is not
      called; or the ring has a message and it is the fetching thread that does not fetch it,
      being outside the mailbox or itself posting into the full ring. */
  lemma NoDeadlock(s0: State, events: seq<Event>, f: Tid)
    requires Initial(s0) && f in s0.threads && SingleFetcher(events, f) && Run(s0, events).Some?
    ensures var s := Run(s0, events).value;
            && |s.msgs| == SYS_MBOX_SIZE && f in s.threads
            && ((forall t :: !Runnable(s, t)) ==>
                  || ((forall t :: t in s.threads && t != f ==> s.threads[t].Idle?) &&
                      (s.threads[f].Idle? || (s.threads[f].FetchWait? && s.first == s.last)))
                  || (s.first < s.last && (s.threads[f].Idle? || s.threads[f].PostWait?)))
  {
    hide Run;
    InitialInv(s0);
    RunKeepsInv(s0, events);
    RunKeepsPosters(s0, events);
    RunKeepsAwake(s0, events, f);
    var s := Run(s0, events).value;
    if forall t :: !Runnable(s, t) {
      StuckMeansDone(s, f);
    }
  }

  /** What a thread that cannot go on is waiting for. */
  lemma WhyBlocked(s: State, t: Tid)
    requires OneOwner(s) && t in s.threads && |s.msgs| == SYS_MBOX_SIZE && !Runnable(s, t)
    ensures !s.threads[t].Holds() && (s.threads[t].Locks() ==> s.mutex == 0)
    ensures s.threads[t].PostWait? ==> s.notFull == 0
    ensures s.threads[t].FetchWait? ==> s.notEmpty == 0
  {
  }

  lemma StuckMeansDone(s: State, f: Tid)
    requires Inv(s) && PosterWoken(s) && Awake(s, f) && forall t :: !Runnable(s, t)
    ensures || ((forall t :: t in s.threads && t != f ==> s.threads[t].Idle?) &&
                (s.threads[f].Idle? || (s.threads[f].FetchWait? && s.first == s.last)))
            || (s.first < s.last && (s.threads[f].Idle? || s.threads[f].PostWait?))
  {
    forall t | t in s.threads
      ensures !s.threads[t].Holds() && (s.threads[t].Locks() ==> s.mutex == 0)
      ensures s.threads[t].PostWait? ==> s.notFull == 0
      ensures s.threads[t].FetchWait? ==> s.notEmpty == 0
    {
      WhyBlocked(s, t);
    }
    hide Next;
    assert s.owner == None;
    forall t | t in s.threads ensures s.threads[t].Idle? || s.threads[t].PostWait? || s.threads[t].FetchWait? {
    }
  }

  // ----- One call by itself -----

  /** A thread's call, or its next step, and `n` more steps of its own. */
  function Alone(t: Tid, c: Choice, n: nat): seq<Event> {
    [Event(t, c)] + seq(n, _ => Event(t, Go))
  }

  lemma AloneLast(s: State, t: Tid, c: Choice, e: State)
    requires t in s.threads && |s.msgs| == SYS_MBOX_SIZE && Next(s, t, c) == Some(e)
    ensures Run(s, Alone(t, c, 0)) == Some(e)
  {
    hide Next;
    assert Run(e, []) == Some(e);
    assert Alone(t, c, 0)[1..] == [];
  }

  lemma AloneStep(s: State, t: Tid, c: Choice, next: State, n: nat, e: State)
    requires t in s.threads && |s.msgs| == SYS_MBOX_SIZE && Next(s, t, c) == Some(next)
    requires Run(next, Alone(t, Go, n)) == Some(e)
    ensures Run(s, Alone(t, c, n + 1)) == Some(e)
  {
    hide Next;
    assert Alone(t, c, n + 1)[1..] == Alone(t, Go, n);
  }

  /** No thread is in the critical section. */
  predicate Open(s: State, t: Tid) {
    |s.msgs| == SYS_MBOX_SIZE && t in s.threads && s.mutex == 1 && s.owner == None
  }

  /** Thread `t` alone has gone in. */
  function Inside(s: State, t: Tid, pc: Pc): State {
    s.(mutex := 0, owner := Some(t)).At(t, pc)
  }

  lemma Over(s: State, t: Tid, x: Pc, y: Pc)
    ensures s.At(t, x).At(t, y) == s.At(t, y)
  {
  }

  /** A message more in the ring. */
  function Posted(s: State, m: Msg): State
    requires |s.msgs| == SYS_MBOX_SIZE
  {
    s.(msgs := s.msgs[s.last % SYS_MBOX_SIZE := m], last := s.last + 1, posted := s.posted + [m],
       notEmpty := if s.first == s.last then 1 else s.notEmpty)
  }

  /** The first message taken. */
  function Fetched(s: State): State
    requires |s.msgs| == SYS_MBOX_SIZE
  {
    s.(first := s.first + 1, fetched := s.fetched + [s.msgs[s.first % SYS_MBOX_SIZE]],
       notFull := if s.waitSend != 0 then 1 else s.notFull)
  }

  /** Leaving the critical section, whatever the call was. */
  lemma Leaves(s: State, t: Tid, pc: Pc)
    requires Open(s, t) && (pc.PostRelease? || pc.TryPostFull? || pc.FetchRelease? || pc.TryFetchEmpty?)
    ensures Run(Inside(s, t, pc), Alone(t, Go, 0)) == Some(s.At(t, Idle))
  {
    hide Run;
    Over(s, t, pc, Idle);
    AloneLast(Inside(s, t, pc), t, Go, s.At(t, Idle));
  }

  lemma Advances(s: State, t: Tid, m: Msg) returns (n: nat)
    requires Open(s, t)
    ensures Run(Inside(s, t, Store(m)), Alone(t, Go, n)) == Some(Posted(s, m).At(t, Idle))
  {
    hide Run, Next, Inside, Alone;
    var p := Posted(s, m);
    var stored, advanced := s.(msgs := p.msgs), p.(notEmpty := s.notEmpty);
    var pc := if s.first == s.last then SignalNotEmpty else PostRelease;
    Leaves(p, t, PostRelease);
    n := 0;
    if s.first == s.last {
      SignalIs(advanced, t);
      AloneStep(Inside(advanced, t, SignalNotEmpty), t, Go, Inside(p, t, PostRelease), n, p.At(t, Idle));
      n := 1;
    }
    AdvanceIs(s, t, m);
    StoreIs(s, t, m);
    AloneStep(Inside(stored, t, Advance(m)), t, Go, Inside(advanced, t, pc), n, p.At(t, Idle));
    AloneStep(Inside(s, t, Store(m)), t, Go, Inside(stored, t, Advance(m)), n + 1, p.At(t, Idle));
    n := n + 2;
  }

  lemma StoreIs(s: State, t: Tid, m: Msg)
    requires Open(s, t)
    ensures t in Inside(s, t, Store(m)).threads && |Inside(s, t, Store(m)).msgs| == SYS_MBOX_SIZE
    ensures Next(Inside(s, t, Store(m)), t, Go) == Some(Inside(s.(msgs := Posted(s, m).msgs), t, Advance(m)))
  {
    Over(s.(mutex := 0, owner := Some(t), msgs := Posted(s, m).msgs), t, Store(m), Advance(m));
  }

  lemma AdvanceIs(s: State, t: Tid, m: Msg)
    requires Open(s, t)
    ensures var stored, advanced := s.(msgs := Posted(s, m).msgs), Posted(s, m).(notEmpty := s.notEmpty);
            var pc := if s.first == s.last then SignalNotEmpty else PostRelease;
            && t in Inside(stored, t, Advance(m)).threads && |Inside(stored, t, Advance(m)).msgs| == SYS_MBOX_SIZE
            && Next(Inside(stored, t, Advance(m)), t, Go) == Some(Inside(advanced, t, pc))
  {
    var pc := if s.first == s.last then SignalNotEmpty else PostRelease;
    Over(Posted(s, m).(notEmpty := s.notEmpty, mutex := 0, owner := Some(t)), t, Advance(m), pc);
  }

  lemma SignalIs(s: State, t: Tid)
    requires Open(s, t)
    ensures t in Inside(s, t, SignalNotEmpty).threads && |Inside(s, t, SignalNotEmpty).msgs| == SYS_MBOX_SIZE
    ensures Next(Inside(s, t, SignalNotEmpty), t, Go) == Some(Inside(s.(notEmpty := 1), t, PostRelease))
  {
    Over(s.(notEmpty := 1, mutex := 0, owner := Some(t)), t, SignalNotEmpty, PostRelease);
  }

  /** On a full ring a post counts itself and parks. */
  lemma PostParks(s: State, t: Tid, m: Msg)
    requires Open(s, t)
    ensures Run(Inside(s, t, PostCount(m)), Alone(t, Go, 1)) ==
            Some(s.(waitSend := s.waitSend + 1).At(t, PostWait(m)))
  {
    hide Run;
    var counted := s.(waitSend := s.waitSend + 1);
    Over(counted.(mutex := 0, owner := Some(t)), t, PostCount(m), PostUnlock(m));
    Over(counted, t, PostUnlock(m), PostWait(m));
    AloneLast(Inside(counted, t, PostUnlock(m)), t, Go, counted.At(t, PostWait(m)));
    AloneStep(Inside(s, t, PostCount(m)), t, Go, Inside(counted, t, PostUnlock(m)), 0, counted.At(t, PostWait(m)));
  }

  lemma PostTestIs(s: State, t: Tid, m: Msg)
    requires Open(s, t)
    ensures t in Inside(s, t, PostTest(m)).threads && |Inside(s, t, PostTest(m)).msgs| == SYS_MBOX_SIZE
    ensures Next(Inside(s, t, PostTest(m)), t, Go) == Some(Inside(s, t, if s.Full() then PostCount(m) else Store(m)))
  {
    Over(s.(mutex := 0, owner := Some(t)), t, PostTest(m), if s.Full() then PostCount(m) else Store(m));
  }

  /** Behind its test a post goes through or parks. */
  lemma PostTests(s: State, t: Tid, m: Msg) returns (n: nat)
    requires Open(s, t)
    ensures Run(Inside(s, t, PostTest(m)), Alone(t, Go, n)) ==
            Some(if s.Full() then s.(waitSend := s.waitSend + 1).At(t, PostWait(m)) else Posted(s, m).At(t, Idle))
  {
    hide Run, Next, Posted, Inside, Alone;
    PostTestIs(s, t, m);
    if s.Full() {
      PostParks(s, t, m);
      AloneStep(Inside(s, t, PostTest(m)), t, Go, Inside(s, t, PostCount(m)), 1,
                s.(waitSend := s.waitSend + 1).At(t, PostWait(m)));
      n := 2;
    } else {
      n := Advances(s, t, m);
      AloneStep(Inside(s, t, PostTest(m)), t, Go, Inside(s, t, Store(m)), n, Posted(s, m).At(t, Idle));
      n := n + 1;
    }
  }

  lemma TryPostTests(s: State, t: Tid, m: Msg) returns (n: nat)
    requires Open(s, t)
    ensures Run(Inside(s, t, TryPostTest(m)), Alone(t, Go, n)) ==
            Some((if s.Full() then s else Posted(s, m)).At(t, Idle))
  {
    hide Run, Posted;
    var inside := s.(mutex := 0, owner := Some(t));
    if s.Full() {
      n := 0;
      Leaves(s, t, TryPostFull);
      Over(inside, t, TryPostTest(m), TryPostFull);
      AloneStep(Inside(s, t, TryPostTest(m)), t, Go, Inside(s, t, TryPostFull), n, s.At(t, Idle));
    } else {
      n := Advances(s, t, m);
      Over(inside, t, TryPostTest(m), Store(m));
      AloneStep(Inside(s, t, TryPostTest(m)), t, Go, Inside(s, t, Store(m)), n, Posted(s, m).At(t, Idle));
    }
    n := n + 1;
  }

  lemma Takes(s: State, t: Tid) returns (n: nat)
    requires Open(s, t)
    ensures Run(Inside(s, t, Load), Alone(t, Go, n)) == Some(Fetched(s).At(t, Idle))
  {
    hide Run;
    var m := s.msgs[s.first % SYS_MBOX_SIZE];
    var f := Fetched(s);
    var taken := f.(notFull := s.notFull);
    Leaves(f, t, FetchRelease);
    n := 0;
    if s.waitSend != 0 {
      Over(f.(mutex := 0, owner := Some(t)), t, SignalNotFull, FetchRelease);
      AloneStep(Inside(taken, t, SignalNotFull), t, Go, Inside(f, t, FetchRelease), n, f.At(t, Idle));
      n := 1;
    }
    var pc := if s.waitSend != 0 then SignalNotFull else FetchRelease;
    Over(s.(mutex := 0, owner := Some(t)), t, Load, Take(m));
    Over(taken.(mutex := 0, owner := Some(t)), t, Take(m), pc);
    AloneStep(Inside(s, t, Take(m)), t, Go, Inside(taken, t, pc), n, f.At(t, Idle));
    AloneStep(Inside(s, t, Load), t, Go, Inside(s, t, Take(m)), n + 1, f.At(t, Idle));
    n := n + 2;
  }

  /** Behind its test a fetch goes through or parks. */
  lemma FetchTests(s: State, t: Tid, timed: bool) returns (n: nat)
    requires Open(s, t)
    ensures Run(Inside(s, t, FetchTest(timed)), Alone(t, Go, n)) ==
            Some(if s.first == s.last then s.At(t, FetchWait(timed)) else Fetched(s).At(t, Idle))
  {
    hide Run, Fetched;
    var inside := s.(mutex := 0, owner := Some(t));
    if s.first == s.last {
      n := 0;
      Over(inside, t, FetchTest(timed), FetchUnlock(timed));
      Over(s, t, FetchUnlock(timed), FetchWait(timed));
      AloneLast(Inside(s, t, FetchUnlock(timed)), t, Go, s.At(t, FetchWait(timed)));
      AloneStep(Inside(s, t, FetchTest(timed)), t, Go, Inside(s, t, FetchUnlock(timed)), n, s.At(t, FetchWait(timed)));
    } else {
      n := Takes(s, t);
      Over(inside, t, FetchTest(timed), Load);
      AloneStep(Inside(s, t, FetchTest(timed)), t, Go, Inside(s, t, Load), n, Fetched(s).At(t, Idle));
    }
    n := n + 1;
  }

  lemma TryFetchTests(s: State, t: Tid) returns (n: nat)
    requires Open(s, t)
    ensures Run(Inside(s, t, TryFetchTest), Alone(t, Go, n)) ==
            Some((if s.first == s.last then s else Fetched(s)).At(t, Idle))
  {
    hide Run, Fetched;
    var inside := s.(mutex := 0, owner := Some(t));
    if s.first == s.last {
      n := 0;
      Leaves(s, t, TryFetchEmpty);
      Over(inside, t, TryFetchTest, TryFetchEmpty);
      AloneStep(Inside(s, t, TryFetchTest), t, Go, Inside(s, t, TryFetchEmpty), n, s.At(t, Idle));
    } else {
      n := Takes(s, t);
      Over(inside, t, TryFetchTest, Load);
      AloneStep(Inside(s, t, TryFetchTest), t, Go, Inside(s, t, Load), n, Fetched(s).At(t, Idle));
    }
    n := n + 1;
  }

  /** Where a call goes in, and what comes of it when nothing comes between. */
  lemma CallGoesIn(s: State, t: Tid, c: Choice, lock: Pc, test: Pc, n: nat, e: State)
    requires Open(s, t) && s.threads[t].Idle? && Next(s, t, c) == Some(s.At(t, lock))
    requires Next(s.At(t, lock), t, Go) == Some(Inside(s, t, test))
    requires Run(Inside(s, t, test), Alone(t, Go, n)) == Some(e)
    ensures Run(s, Alone(t, c, n + 2)) == Some(e)
  {
    hide Run, Next;
    AloneStep(s.At(t, lock), t, Go, Inside(s, t, test), n, e);
    AloneStep(s, t, c, s.At(t, lock), n + 1, e);
  }

  lemma PostCalled(s: State, t: Tid, m: Msg) returns (n: nat)
    requires Open(s, t) && s.threads[t].Idle?
    ensures Run(s, Alone(t, CallPost(m), n)) ==
            Some(if s.Full() then s.(waitSend := s.waitSend + 1).At(t, PostWait(m)) else Posted(s, m).At(t, Idle))
  {
    hide Run, Posted;
    n := PostTests(s, t, m);
    Over(s.(mutex := 0, owner := Some(t)), t, PostLock(m), PostTest(m));
    CallGoesIn(s, t, CallPost(m), PostLock(m), PostTest(m), n,
               if s.Full() then s.(waitSend := s.waitSend + 1).At(t, PostWait(m)) else Posted(s, m).At(t, Idle));
    n := n + 2;
  }

  lemma TryPostCalled(s: State, t: Tid, m: Msg) returns (n: nat)
    requires Open(s, t) && s.threads[t].Idle?
    ensures Run(s, Alone(t, CallTryPost(m), n)) == Some((if s.Full() then s else Posted(s, m)).At(t, Idle))
  {
    hide Run, Posted;
    n := TryPostTests(s, t, m);
    Over(s.(mutex := 0, owner := Some(t)), t, TryPostLock(m), TryPostTest(m));
    CallGoesIn(s, t, CallTryPost(m), TryPostLock(m), TryPostTest(m), n,
               (if s.Full() then s else Posted(s, m)).At(t, Idle));
    n := n + 2;
  }

  lemma FetchCalled(s: State, t: Tid, timed: bool) returns (n: nat)
    requires Open(s, t) && s.threads[t].Idle?
    ensures Run(s, Alone(t, CallFetch(timed), n)) ==
            Some(if s.first == s.last then s.At(t, FetchWait(timed)) else Fetched(s).At(t, Idle))
  {
    hide Run, Fetched;
    n := FetchTests(s, t, timed);
    Over(s.(mutex := 0, owner := Some(t)), t, FetchLock(timed), FetchTest(timed));
    CallGoesIn(s, t, CallFetch(timed), FetchLock(timed), FetchTest(timed), n,
               if s.first == s.last then s.At(t, FetchWait(timed)) else Fetched(s).At(t, Idle));
    n := n + 2;
  }

  lemma TryFetchCalled(s: State, t: Tid) returns (n: nat)
    requires Open(s, t) && s.threads[t].Idle?
    ensures Run(s, Alone(t, CallTryFetch, n)) == Some((if s.first == s.last then s else Fetched(s)).At(t, Idle))
  {
    hide Run, Fetched;
    n := TryFetchTests(s, t);
    Over(s.(mutex := 0, owner := Some(t)), t, TryFetchLock, TryFetchTest);
    CallGoesIn(s, t, CallTryFetch, TryFetchLock, TryFetchTest, n,
               (if s.first == s.last then s else Fetched(s)).At(t, Idle));
    n := n + 2;
  }

  /** What was posted is in the ring, and the ring is full at 127 messages. */
  lemma ReachableIsOpen(s0: State, events: seq<Event>, t: Tid)
    requires Initial(s0) && Run(s0, events).Some? && Run(s0, events).value.owner == None
    requires t in Run(s0, events).value.threads
    ensures var s := Run(s0, events).value;
            && Open(s, t) && |s.posted| == s.last && |s.fetched| == s.first && |s.fetched| <= |s.posted|
            && (s.first < s.last ==> s.msgs[s.first % SYS_MBOX_SIZE] == s.posted[|s.fetched|])
  {
    hide Run;
    InitialInv(s0);
    RunKeepsInv(s0, events);
  }

  /** In every reachable state in which nobody is in the critical section: a post and a trypost deliver
      the message if fewer than 127 are waiting. If there are 127, the post counts itself and parks, and
      the trypost changes nothing. */
  lemma PostAnswers(s0: State, events: seq<Event>, t: Tid, m: Msg) returns (post: nat, tryPost: nat)
    requires Initial(s0) && Run(s0, events).Some? && Run(s0, events).value.owner == None
    requires t in Run(s0, events).value.threads && Run(s0, events).value.threads[t].Idle?
    ensures var s := Run(s0, events).value;
            && Run(s, Alone(t, CallPost(m), post)).Some? && Run(s, Alone(t, CallTryPost(m), tryPost)).Some?
            && var p := Run(s, Alone(t, CallPost(m), post)).value;
            var q := Run(s, Alone(t, CallTryPost(m), tryPost)).value;
            if |s.posted| - |s.fetched| < SYS_MBOX_SIZE - 1 then
              && p == q && p.threads == s.threads && p.owner == None
              && p.posted == s.posted + [m] && p.fetched == s.fetched && p.waitSend == s.waitSend
            else
              && p == s.(waitSend := s.waitSend + 1, threads := s.threads[t := PostWait(m)])
              && q == s
  {
    hide Run;
    ReachableIsOpen(s0, events, t);
    var s := Run(s0, events).value;
    post := PostCalled(s, t, m);
    tryPost := TryPostCalled(s, t, m);
    assert s.threads[t := Idle] == s.threads;
  }

  /** Likewise a fetch and a tryfetch take the first waiting message if there is one. If there is none
      the fetch parks, a timed one until its time is up, and the tryfetch changes nothing. */
  lemma FetchAnswers(s0: State, events: seq<Event>, t: Tid, timed: bool) returns (fetch: nat, tryFetch: nat)
    requires Initial(s0) && Run(s0, events).Some? && Run(s0, events).value.owner == None
    requires t in Run(s0, events).value.threads && Run(s0, events).value.threads[t].Idle?
    ensures var s := Run(s0, events).value;
            && Run(s, Alone(t, CallFetch(timed), fetch)).Some? && Run(s, Alone(t, CallTryFetch, tryFetch)).Some?
            && var p := Run(s, Alone(t, CallFetch(timed), fetch)).value;
            var q := Run(s, Alone(t, CallTryFetch, tryFetch)).value;
            if |s.fetched| < |s.posted| then
              && p == q && p.threads == s.threads && p.owner == None
              && p.fetched == s.fetched + [s.posted[|s.fetched|]] && p.posted == s.posted
              && (s.waitSend != 0 ==> p.notFull == 1)
            else
              && p == s.(threads := s.threads[t := FetchWait(timed)]) && q == s
              && t in p.threads && |p.msgs| == SYS_MBOX_SIZE && Next(p, t, TimeOut) == if timed then Some(s) else None
  {
    hide Run;
    ReachableIsOpen(s0, events, t);
    var s := Run(s0, events).value;
    fetch := FetchCalled(s, t, timed);
    tryFetch := TryFetchCalled(s, t);
    assert s.threads[t := Idle] == s.threads;
    Over(s, t, FetchWait(timed), Idle);
  }

  /** A parked poster that is woken uncounts itself, looks again, and delivers its message or parks
      again. */
  lemma WokenPosterAnswers(s0: State, events: seq<Event>, t: Tid) returns (n: nat)
    requires Initial(s0) && Run(s0, events).Some? && Run(s0, events).value.owner == None
    requires t in Run(s0, events).value.threads && Run(s0, events).value.threads[t].PostWait?
    requires Run(s0, events).value.notFull > 0
    ensures var s := Run(s0, events).value;
            && Run(s, Alone(t, Go, n)).Some?
            && var p := Run(s, Alone(t, Go, n)).value;
            if |s.posted| - |s.fetched| < SYS_MBOX_SIZE - 1 then
              && p.threads == s.threads[t := Idle] && p.owner == None
              && p.posted == s.posted + [s.threads[t].msg] && p.fetched == s.fetched && p.waitSend == s.waitSend - 1
            else p == s.(notFull := s.notFull - 1)
  {
    hide Run, Inv;
    ReachableIsOpen(s0, events, t);
    n := PosterWakes(Run(s0, events).value, t);
  }

  lemma PosterWakes(s: State, t: Tid) returns (n: nat)
    requires Open(s, t) && s.threads[t].PostWait? && s.notFull > 0
    ensures var woken := s.(notFull := s.notFull - 1, waitSend := s.waitSend - 1);
            Run(s, Alone(t, Go, n)) ==
            Some(if s.Full() then s.(notFull := s.notFull - 1) else Posted(woken, s.threads[t].msg).At(t, Idle))
  {
    hide Run, Posted;
    var m := s.threads[t].msg;
    var up := s.(notFull := s.notFull - 1);
    var woken := up.(waitSend := s.waitSend - 1);
    n := PostTests(woken, t, m);
    var e := Run(Inside(woken, t, PostTest(m)), Alone(t, Go, n)).value;
    Over(woken.(mutex := 0, owner := Some(t)), t, PostUncount(m), PostTest(m));
    Over(up.(mutex := 0, owner := Some(t)), t, PostRelock(m), PostUncount(m));
    AloneStep(Inside(up, t, PostUncount(m)), t, Go, Inside(woken, t, PostTest(m)), n, e);
    AloneStep(up.At(t, PostRelock(m)), t, Go, Inside(up, t, PostUncount(m)), n + 1, e);
    AloneStep(s, t, Go, up.At(t, PostRelock(m)), n + 2, e);
    n := n + 3;
    assert s.Full() ==> up.threads[t := PostWait(m)] == up.threads;
  }

  /** A parked fetcher that is woken takes the first message, or parks again if another has. */
  lemma WokenFetcherAnswers(s0: State, events: seq<Event>, t: Tid) returns (n: nat)
    requires Initial(s0) && Run(s0, events).Some? && Run(s0, events).value.owner == None
    requires t in Run(s0, events).value.threads && Run(s0, events).value.threads[t].FetchWait?
    requires Run(s0, events).value.notEmpty > 0
    ensures var s := Run(s0, events).value;
            && Run(s, Alone(t, Go, n)).Some?
            && var p := Run(s, Alone(t, Go, n)).value;
            if |s.fetched| < |s.posted| then
              && p.threads == s.threads[t := Idle] && p.owner == None
              && p.fetched == s.fetched + [s.posted[|s.fetched|]] && p.posted == s.posted
              && (s.waitSend != 0 ==> p.notFull == 1)
            else p == s.(notEmpty := s.notEmpty - 1)
  {
    hide Run, Inv;
    ReachableIsOpen(s0, events, t);
    n := FetcherWakes(Run(s0, events).value, t);
  }

  lemma FetcherWakes(s: State, t: Tid) returns (n: nat)
    requires Open(s, t) && s.threads[t].FetchWait? && s.notEmpty > 0
    ensures var woken := s.(notEmpty := s.notEmpty - 1);
            Run(s, Alone(t, Go, n)) == Some(if s.first == s.last then woken else Fetched(woken).At(t, Idle))
  {
    hide Run, Fetched;
    var timed := s.threads[t].timed;
    var woken := s.(notEmpty := s.notEmpty - 1);
    n := FetchTests(woken, t, timed);
    var e := Run(Inside(woken, t, FetchTest(timed)), Alone(t, Go, n)).value;
    Over(woken.(mutex := 0, owner := Some(t)), t, FetchRelock(timed), FetchTest(timed));
    AloneStep(woken.At(t, FetchRelock(timed)), t, Go, Inside(woken, t, FetchTest(timed)), n, e);
    AloneStep(s, t, Go, woken.At(t, FetchRelock(timed)), n + 1, e);
    n := n + 2;
    assert s.first == s.last ==> woken.threads[t := FetchWait(timed)] == woken.threads;
  }

  // ----- Two fetching threads -----

  lemma {:induction false} RunAppend(s: State, a: seq<Event>, b: seq<Event>)
    requires Run(s, a).Some?
    ensures Run(s, a + b) == Run(Run(s, a).value, b)
    decreases |a|
  {
    hide Next;
    if a == [] {
      assert a + b == b;
    } else {
      assert (a + b)[1..] == a[1..] + b;
      RunAppend(Next(s, a[0].thread, a[0].choice).value, a[1..], b);
    }
  }

  /** Why fetchers are safe only alone or among two users: of two parked fetchers only one
      learns of two posts, and then a fetcher is parked beside a message with no signal, no
      thread inside the mailbox and nothing able to move. */
  lemma TwoFetchersCanLoseAWakeUp(s0: State, a: Tid, b: Tid, p: Tid, m: Msg, n: Msg)
    requires Initial(s0) && {a, b, p} <= s0.threads.Keys && a != b && p != a && p != b
    ensures exists events, s :: Run(s0, events) == Some(s) && |s.msgs| == SYS_MBOX_SIZE &&
              b in s.threads && s.threads[b] == FetchWait(false) && s.first < s.last && forall t :: !Runnable(s, t)
  {
    hide Run, Next, Posted;
    var s4 := AfterTwoPosts(s0, a, b, m, n);
    var events := TwoParkTwoPosts(s0, a, b, p, m, n);
    TwoPostsWakeOne(s0, a, b, m, n);
    var k := FetcherWakes(s4, a);
    var takes := Alone(a, Go, k);
    var s5 := Fetched(s4.(notEmpty := 0)).At(a, Idle);
    RunAppend(s0, events, takes);
    assert Run(s0, events + takes) == Some(s5);
    NobodyRuns(s5, b);
  }

  /** A mailbox can lose a fetcher's wake-up if and only if it has three users or more. */
  lemma WakeUpLostOnlyAmongThree(s0: State)
    requires Initial(s0)
    ensures (exists events :: Run(s0, events).Some? && !FetcherWoken(Run(s0, events).value))
            <==> |s0.threads.Keys| >= 3
  {
    hide Run, FetcherWoken, Initial;
    if |s0.threads.Keys| >= 3 {
      var events := Stranding(s0);
      assert Run(s0, events).Some? && !FetcherWoken(Run(s0, events).value);
    } else {
      forall events | Run(s0, events).Some? ensures FetcherWoken(Run(s0, events).value) {
        PairLosesNone(s0, events);
      }
    }
  }

  lemma Stranding(s0: State) returns (events: seq<Event>)
    requires Initial(s0) && |s0.threads.Keys| >= 3
    ensures Run(s0, events).Some? && !FetcherWoken(Run(s0, events).value)
  {
    hide Run, FetcherWoken;
    var a, b, p := ThreeOf(s0.threads.Keys);
    TwoFetchersCanLoseAWakeUp(s0, a, b, p, 0, 0);
    var s;
    events, s :| Run(s0, events) == Some(s) && |s.msgs| == SYS_MBOX_SIZE &&
      b in s.threads && s.threads[b] == FetchWait(false) && s.first < s.last && forall t :: !Runnable(s, t);
    StrandedIsLost(s, b);
  }

  lemma PairLosesNone(s0: State, events: seq<Event>)
    requires Initial(s0) && |s0.threads.Keys| <= 2 && Run(s0, events).Some?
    ensures FetcherWoken(Run(s0, events).value)
  {
    hide Run, FetcherWoken;
    InitialInv(s0);
    InitialPairAwake(s0);
    RunKeepsPairAwake(s0, events);
  }

  lemma InitialPairAwake(s: State)
    requires Initial(s) && |s.threads.Keys| <= 2
    ensures PairAwake(s)
  {
  }

  lemma StrandedIsLost(s: State, b: Tid)
    requires |s.msgs| == SYS_MBOX_SIZE && b in s.threads && s.threads[b].FetchWait? && s.first < s.last
    requires forall t :: !Runnable(s, t)
    ensures !FetcherWoken(s)
  {
    assert !Runnable(s, b);
    forall t | t in s.threads ensures !s.threads[t].SignalNotEmpty? {
      assert !Runnable(s, t);
    }
  }

  lemma ThreeOf(keys: set<Tid>) returns (a: Tid, b: Tid, p: Tid)
    requires |keys| >= 3
    ensures {a, b, p} <= keys && a != b && p != a && p != b
  {
    a :| a in keys;
    var others := keys - {a};
    assert |others| == |keys| - 1;
    b :| b in others;
    assert |others - {b}| == |others| - 1;
    p :| p in others - {b};
  }

  /** Both fetchers are parked and two messages have been posted. */
  function AfterTwoPosts(s0: State, a: Tid, b: Tid, m: Msg, n: Msg): State
    requires |s0.msgs| == SYS_MBOX_SIZE
  {
    Posted(Posted(s0.At(a, FetchWait(false)).At(b, FetchWait(false)), m), n)
  }

  /** One of them has been signalled. */
  lemma TwoPostsWakeOne(s0: State, a: Tid, b: Tid, m: Msg, n: Msg)
    requires Initial(s0) && {a, b} <= s0.threads.Keys && a != b
    ensures var s := AfterTwoPosts(s0, a, b, m, n);
            && |s.msgs| == SYS_MBOX_SIZE && s.mutex == 1 && s.owner == None && s.waitSend == 0
            && s.notEmpty == 1 && s.first == 0 && s.last == 2
            && s.threads == s0.threads[a := FetchWait(false)][b := FetchWait(false)]
            && forall t :: t in s.threads && t != a && t != b ==> s.threads[t].Idle?
  {
  }

  lemma NobodyRuns(s: State, b: Tid)
    requires |s.msgs| == SYS_MBOX_SIZE && b in s.threads && s.threads[b] == FetchWait(false) && s.notEmpty == 0
    requires forall t :: t in s.threads && t != b ==> s.threads[t].Idle?
    ensures forall t :: !Runnable(s, t)
  {
  }

  lemma TwoParkTwoPosts(s0: State, a: Tid, b: Tid, p: Tid, m: Msg, n: Msg) returns (events: seq<Event>)
    requires Initial(s0) && {a, b, p} <= s0.threads.Keys && a != b && p != a && p != b
    ensures Run(s0, events) == Some(AfterTwoPosts(s0, a, b, m, n))
  {
    var s1 := s0.At(a, FetchWait(false));
    var s2 := s1.At(b, FetchWait(false));
    var s3 := Posted(s2, m);
    var parkA := FetchCalled(s0, a, false);
    var parkB := FetchCalled(s1, b, false);
    var postM := PostCalled(s2, p, m);
    assert s3.At(p, Idle) == s3;
    var postN := PostCalled(s3, p, n);
    var s4 := Posted(s3, n);
    assert s4.At(p, Idle) == s4;
    hide Run, Alone, Posted;
    events := Alone(a, CallFetch(false), parkA);
    RunAppend(s0, events, Alone(b, CallFetch(false), parkB));
    events := events + Alone(b, CallFetch(false), parkB);
    RunAppend(s0, events, Alone(p, CallPost(m), postM));
    events := events + Alone(p, CallPost(m), postM);
    RunAppend(s0, events, Alone(p, CallPost(n), postN));
    events := events + Alone(p, CallPost(n), postN);
  }

  // ----- The shared data itself -----

  /** struct sys_mbox with its threads. Each step changes the fields as the C statement or the
      semaphore operation it stands for does. */
  class SysMbox {
    var first: nat
    var last: nat
    const msgs: array<Msg>
    var notEmpty: nat
    var notFull: nat
    var mutex: nat
    var waitSend: int
    var threads: map<Tid, Pc>
    ghost var owner: Option<Tid>
    ghost var posted: seq<Msg>
    ghost var fetched: seq<Msg>

    ghost function Abs(): State
      reads this, msgs
    {
      State(first, last, msgs[..], notEmpty, notFull, mutex, waitSend, threads, owner, posted, fetched)
    }

    /** sys_mbox_new, for a set of threads that will use the mailbox. */
    constructor (users: set<Tid>)
      ensures Initial(Abs()) && threads.Keys == users && fresh(msgs)
    {
      first, last := 0, 0;
      msgs := new Msg[SYS_MBOX_SIZE];
      notEmpty, notFull, mutex := 0, 0, 1;
      waitSend := 0;
      threads := map t | t in users :: Idle;
      owner, posted, fetched := None, [], [];
    }

    /** The part of sys_arch_sem_wait that takes a free mutex. */
    method Lock(t: Tid, pc: Pc) returns (moved: bool)
      requires t in threads
      modifies this
      ensures moved == Locked(old(Abs()), t, pc).Some?
      ensures Abs() == if moved then Locked(old(Abs()), t, pc).value else old(Abs())
    {
      moved := mutex > 0;
      if moved {
        mutex := mutex - 1;
        owner := Some(t);
        threads := threads[t := pc];
      }
    }

    /** sys_sem_signal on the mutex. */
    method Unlock(t: Tid, pc: Pc)
      requires t in threads
      modifies this
      ensures Some(Abs()) == Unlocked(old(Abs()), t, pc)
    {
      mutex := mutex + 1;
      if mutex > 1 {
        mutex := 1;
      }
      owner := None;
      threads := threads[t := pc];
    }

    /** sys_mbox_post and sys_mbox_trypost. */
    method Post(t: Tid) returns (moved: bool)
      requires t in threads && !threads[t].Idle? && !threads[t].Fetches() && msgs.Length == SYS_MBOX_SIZE
      modifies this, msgs
      ensures moved == PostStep(old(Abs()), t, old(threads[t])).Some?
      ensures Abs() == if moved then PostStep(old(Abs()), t, old(threads[t])).value else old(Abs())
    {
      hide PostStep;
      var pc := threads[t];
      if pc.Store? || pc.Advance? || pc.SignalNotEmpty? || pc.PostRelease? {
        PostMessage(t);
        moved := true;
      } else {
        moved := AwaitRoom(t);
      }
    }

    /** Up to the point where there is room, or none for a trypost. */
    method AwaitRoom(t: Tid) returns (moved: bool)
      requires t in threads && !threads[t].Idle? && !threads[t].Fetches() && msgs.Length == SYS_MBOX_SIZE
      requires !(threads[t].Store? || threads[t].Advance? || threads[t].SignalNotEmpty? || threads[t].PostRelease?)
      modifies this
      ensures moved == PostStep(old(Abs()), t, old(threads[t])).Some?
      ensures Abs() == if moved then PostStep(old(Abs()), t, old(threads[t])).value else old(Abs())
    {
      moved := true;
      match threads[t]
      case PostLock(m) => moved := Lock(t, PostTest(m));
      case PostTest(m) =>
        threads := threads[t := if last + 1 >= first + SYS_MBOX_SIZE then PostCount(m) else Store(m)];
      case PostCount(m) =>
        waitSend := waitSend + 1;
        threads := threads[t := PostUnlock(m)];
      case PostUnlock(m) => Unlock(t, PostWait(m));
      case PostWait(m) =>
        moved := notFull > 0;
        if moved {
          notFull := notFull - 1;
          threads := threads[t := PostRelock(m)];
        }
      case PostRelock(m) => moved := Lock(t, PostUncount(m));
      case PostUncount(m) =>
        waitSend := waitSend - 1;
        threads := threads[t := PostTest(m)];
      case TryPostLock(m) => moved := Lock(t, TryPostTest(m));
      case TryPostTest(m) =>
        threads := threads[t := if last + 1 >= first + SYS_MBOX_SIZE then TryPostFull else Store(m)];
      case TryPostFull => Unlock(t, Idle);
    }

    /** The end of both: the message is stored, and a fetcher signalled if the ring was empty. */
    method PostMessage(t: Tid)
      requires t in threads && msgs.Length == SYS_MBOX_SIZE
      requires threads[t].Store? || threads[t].Advance? || threads[t].SignalNotEmpty? || threads[t].PostRelease?
      modifies this, msgs
      ensures Some(Abs()) == PostStep(old(Abs()), t, old(threads[t]))
    {
      match threads[t]
      case Store(m) =>
        msgs[last % SYS_MBOX_SIZE] := m;
        threads := threads[t := Advance(m)];
      case Advance(m) =>
        var wasEmpty := last == first;
        last := last + 1;
        posted := posted + [m];
        threads := threads[t := if wasEmpty then SignalNotEmpty else PostRelease];
      case SignalNotEmpty =>
        notEmpty := notEmpty + 1;
        if notEmpty > 1 {
          notEmpty := 1;
        }
        threads := threads[t := PostRelease];
      case PostRelease => Unlock(t, Idle);
    }

    method Fetch(t: Tid, timeOut: bool) returns (moved: bool)
      requires t in threads && threads[t].Fetches() && msgs.Length == SYS_MBOX_SIZE
      modifies this
      ensures var c := if timeOut then TimeOut else Go;
              && moved == FetchStep(old(Abs()), t, old(threads[t]), c).Some?
              && Abs() == if moved then FetchStep(old(Abs()), t, old(threads[t]), c).value else old(Abs())
    {
      moved := true;
      match threads[t]
      case FetchLock(timed) => moved := Lock(t, FetchTest(timed));
      case FetchTest(timed) => threads := threads[t := if first == last then FetchUnlock(timed) else Load];
      case FetchUnlock(timed) => Unlock(t, FetchWait(timed));
      case FetchWait(timed) =>
        if timeOut {
          moved := timed;
          if timed {
            threads := threads[t := Idle];
          }
        } else {
          moved := notEmpty > 0;
          if moved {
            notEmpty := notEmpty - 1;
            threads := threads[t := FetchRelock(timed)];
          }
        }
      case FetchRelock(timed) => moved := Lock(t, FetchTest(timed));
      case TryFetchLock => moved := Lock(t, TryFetchTest);
      case TryFetchTest => threads := threads[t := if first == last then TryFetchEmpty else Load];
      case TryFetchEmpty => Unlock(t, Idle);
      case Load => threads := threads[t := Take(msgs[first % SYS_MBOX_SIZE])];
      case Take(m) =>
        first := first + 1;
        fetched := fetched + [m];
        threads := threads[t := if waitSend != 0 then SignalNotFull else FetchRelease];
      case SignalNotFull =>
        notFull := notFull + 1;
        if notFull > 1 {
          notFull := 1;
        }
        threads := threads[t := FetchRelease];
      case FetchRelease => Unlock(t, Idle);
    }

    /** Whatever is scheduled next. */
    method Step(t: Tid, c: Choice) returns (moved: bool)
      requires t in threads && msgs.Length == SYS_MBOX_SIZE
      modifies this, msgs
      ensures moved == Next(old(Abs()), t, c).Some?
      ensures Abs() == if moved then Next(old(Abs()), t, c).value else old(Abs())
    {
      hide PostStep, FetchStep;
      var pc := threads[t];
      if pc.Idle? {
        moved := true;
        match c
        case CallPost(m) => threads := threads[t := PostLock(m)];
        case CallTryPost(m) => threads := threads[t := TryPostLock(m)];
        case CallFetch(timed) => threads := threads[t := FetchLock(timed)];
        case CallTryFetch => threads := threads[t := TryFetchLock];
        case _ => moved := false;
      } else if pc.Fetches() {
        moved := Fetch(t, c.TimeOut?);
        FetchChoice(old(Abs()), t, pc, c);
      } else {
        moved := Post(t);
      }
    }
  }

  /** A step of a fetch looks at the choice only to see whether the time is up. */
  lemma FetchChoice(s: State, t: Tid, pc: Pc, c: Choice)
    requires pc.Fetches() && |s.msgs| == SYS_MBOX_SIZE
    ensures FetchStep(s, t, pc, c) == FetchStep(s, t, pc, if c.TimeOut? then TimeOut else Go)
  {
  }
}

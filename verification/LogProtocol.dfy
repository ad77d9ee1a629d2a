/**
 Producers and consumers of the log buffer, under every interleaving.

 Each call is a thread that waits for the event flag (for the waiting get), takes
 the mutex, moves one byte per step, updates the event flag, releases the mutex
 and returns. The waiting happens outside the mutex. The buffer is the bounded
 queue that the ring implements; it also remembers every byte put into it and
 what became of it.
 */
module LogProtocol {
  import opened Machine
  import opened RingBuffer

  // ----- the buffer and its history

  datatype Fate = Delivered | Dropped

  /** `written` are all bytes put so far; the oldest of them have left the queue, with the given fates. */
  datatype Store = Store(capacity: nat, queue: seq<char>, written: seq<char>, fates: seq<Fate>)

  predicate StoreValid(st: Store) {
    && st.capacity >= 1 && |st.queue| <= st.capacity
    && |st.written| == |st.fates| + |st.queue|
    && st.queue == st.written[|st.fates|..]
  }

  function Append(st: Store, c: char): Store {
    st.(queue := st.queue + [c], written := st.written + [c])
  }

  function Leave(st: Store, fate: Fate): Store
    requires st.queue != []
  {
    st.(queue := st.queue[1..], fates := st.fates + [fate])
  }

  function AppendClobber(st: Store, c: char): Store {
    Append(if |st.queue| >= st.capacity && st.queue != [] then Leave(st, Dropped) else st, c)
  }

  /** The bytes with fate `f`, in the order they were put. */
  function WithFate(written: seq<char>, fates: seq<Fate>, f: Fate): seq<char>
    requires |fates| <= |written|
    decreases |fates|
  {
    if fates == [] then []
    else
      var n := |fates| - 1;
      WithFate(written, fates[..n], f) + if fates[n] == f then [written[n]] else []
  }

  lemma {:induction false} FateExtends(written: seq<char>, more: seq<char>, fates: seq<Fate>, f: Fate)
    requires |fates| <= |written|
    ensures WithFate(written + more, fates, f) == WithFate(written, fates, f)
    decreases |fates|
  {
    if fates != [] {
      FateExtends(written, more, fates[..|fates| - 1], f);
    }
  }

  /** Nothing is lost unaccounted: every byte put was delivered, was dropped, or is queued. */
  lemma {:induction false} FatesCount(written: seq<char>, fates: seq<Fate>)
    requires |fates| <= |written|
    ensures |WithFate(written, fates, Delivered)| + |WithFate(written, fates, Dropped)| == |fates|
    decreases |fates|
  {
    if fates != [] {
      FatesCount(written, fates[..|fates| - 1]);
    }
  }

  function DeliveredBytes(st: Store): seq<char>
    requires StoreValid(st)
  {
    WithFate(st.written, st.fates, Delivered)
  }

  lemma AppendValid(st: Store, c: char)
    requires StoreValid(st) && |st.queue| < st.capacity
    ensures StoreValid(Append(st, c)) && DeliveredBytes(Append(st, c)) == DeliveredBytes(st)
  {
    FateExtends(st.written, [c], st.fates, Delivered);
  }

  lemma LeaveValid(st: Store, fate: Fate)
    requires StoreValid(st) && st.queue != []
    ensures StoreValid(Leave(st, fate))
    ensures DeliveredBytes(Leave(st, fate)) == DeliveredBytes(st) + if fate == Delivered then [st.queue[0]] else []
  {
    var fates := Leave(st, fate).fates;
    assert fates[..|fates| - 1] == st.fates;
  }

  lemma AppendClobberValid(st: Store, c: char)
    requires StoreValid(st)
    ensures StoreValid(AppendClobber(st, c)) && DeliveredBytes(AppendClobber(st, c)) == DeliveredBytes(st)
    ensures AppendClobber(st, c).queue == Clobber(st.queue, st.capacity, c)
  {
    if |st.queue| >= st.capacity {
      LeaveValid(st, Dropped);
      AppendValid(Leave(st, Dropped), c);
    } else {
      AppendValid(st, c);
    }
  }

  // ----- threads

  datatype Call =
    | Put(data: seq<char>)
    | PutClobber(data: seq<char>)
    | Get(size: int)
    | GetWait(size: int, timed: bool)

  predicate IsGet(call: Call) {
    call.Get? || call.GetWait?
  }

  datatype Point = Wait | Lock | Loop | Notify | Unlock | Return

  /** `done` are the bytes put or got so far. */
  datatype Thread = Idle | Busy(call: Call, at: Point, done: seq<char>)

  /** `returned` are the bytes that finished gets have handed to their callers. */
  datatype System = System(store: Store, flag: bool, owner: Option<nat>, threads: seq<Thread>, returned: seq<char>)

  datatype Action = Begin(call: Call) | Step | Timeout

  predicate Enabled(s: System, t: nat, a: Action) {
    t < |s.threads| &&
    match a
    case Begin(_) => s.threads[t].Idle?
    case Timeout => s.threads[t].Busy? && s.threads[t].at.Wait? && s.threads[t].call.GetWait? && s.threads[t].call.timed
    case Step =>
      s.threads[t].Busy?
      && (s.threads[t].at.Wait? ==> s.flag)
      && (s.threads[t].at.Lock? ==> s.owner.None?)
  }

  function At(s: System, t: nat, th: Thread): System
    requires t < |s.threads|
  {
    s.(threads := s.threads[t := th])
  }

  /** One turn of the put or get loop, or its end. */
  function LoopStep(s: System, t: nat): System
    requires t < |s.threads| && s.threads[t].Busy?
  {
    var th := s.threads[t];
    var leave := At(s, t, th.(at := Notify));
    match th.call
    case Put(data) =>
      if |th.done| >= |data| || |s.store.queue| >= s.store.capacity then leave
      else var c := data[|th.done|]; At(s.(store := Append(s.store, c)), t, th.(done := th.done + [c]))
    case PutClobber(data) =>
      if |th.done| >= |data| then leave
      else var c := data[|th.done|]; At(s.(store := AppendClobber(s.store, c)), t, th.(done := th.done + [c]))
    case Get(size) => GetStep(s, t, size)
    case GetWait(size, _) => GetStep(s, t, size)
  }

  function GetStep(s: System, t: nat, size: int): System
    requires t < |s.threads| && s.threads[t].Busy?
  {
    var th := s.threads[t];
    if |th.done| >= size || s.store.queue == [] then At(s, t, th.(at := Notify))
    else At(s.(store := Leave(s.store, Delivered)), t, th.(done := th.done + [s.store.queue[0]]))
  }

  /** Puts set the event flag if they put something, gets clear it if nothing is left. */
  function NotifyStep(s: System, t: nat): System
    requires t < |s.threads| && s.threads[t].Busy?
  {
    var th := s.threads[t];
    var flag := if IsGet(th.call) then s.flag && s.store.queue != [] else s.flag || th.done != [];
    At(s.(flag := flag), t, th.(at := Unlock))
  }

  function Next(s: System, t: nat, a: Action): System
    requires Enabled(s, t, a)
  {
    var th := s.threads[t];
    match a
    case Begin(call) => At(s, t, Busy(call, if call.GetWait? then Wait else Lock, []))
    case Timeout => At(s, t, th.(at := Return))
    case Step =>
      match th.at
      case Wait => At(s, t, th.(at := Lock))
      case Lock => At(s.(owner := Some(t)), t, th.(at := Loop))
      case Loop => LoopStep(s, t)
      case Notify => NotifyStep(s, t)
      case Unlock => At(s.(owner := None), t, th.(at := Return))
      case Return => At(s.(returned := s.returned + if IsGet(th.call) then th.done else []), t, Idle)
  }

  function Initial(capacity: nat, threads: nat): System {
    System(Store(capacity, [], [], []), false, None, seq(threads, _ => Idle), [])
  }

  /** A schedule: which thread does what, in order. */
  type Schedule = seq<(nat, Action)>

  predicate Runs(s: System, schedule: Schedule)
    decreases |schedule|
  {
    schedule == []
    || (Enabled(s, schedule[0].0, schedule[0].1) && Runs(Next(s, schedule[0].0, schedule[0].1), schedule[1..]))
  }

  function Reached(s: System, schedule: Schedule): System
    requires Runs(s, schedule)
    decreases |schedule|
  {
    if schedule == [] then s else Reached(Next(s, schedule[0].0, schedule[0].1), schedule[1..])
  }

  // ----- mutual exclusion and the meaning of the event flag

  predicate InCritical(th: Thread) {
    th.Busy? && (th.at.Loop? || th.at.Notify? || th.at.Unlock?)
  }

  predicate Signalled(s: System) {
    s.flag <==> s.store.queue != []
  }

  /** What the flag means while `th` holds the mutex. */
  predicate Holding(s: System, th: Thread)
    requires th.Busy?
  {
    if th.at.Unlock? then Signalled(s)
    else if IsGet(th.call) then s.store.queue != [] ==> s.flag
    else
      && (s.flag ==> s.store.queue != [])
      && (if th.done == [] then Signalled(s) else s.store.queue != [])
  }

  /** Nothing has been moved before the mutex is taken. */
  predicate Fresh(th: Thread) {
    th.Busy? && (th.at.Wait? || th.at.Lock?) ==> th.done == []
  }

  predicate Invariant(s: System) {
    && StoreValid(s.store)
    && (forall t :: 0 <= t < |s.threads| ==> Fresh(s.threads[t]))
    && (forall t :: 0 <= t < |s.threads| ==> (InCritical(s.threads[t]) <==> s.owner == Some(t)))
    && (match s.owner
        case None => Signalled(s)
        case Some(t) => t < |s.threads| && InCritical(s.threads[t]) && Holding(s, s.threads[t]))
  }

  lemma InitialInvariant(capacity: nat, threads: nat)
    requires capacity >= 1
    ensures Invariant(Initial(capacity, threads))
  {
  }

  /** The thread inside the mutex is its owner. */
  lemma Inside(s: System, t: nat)
    requires Invariant(s) && t < |s.threads| && InCritical(s.threads[t])
    ensures s.owner == Some(t) && StoreValid(s.store) && Holding(s, s.threads[t])
  {
  }

  /** It may change the store and its own state, as long as it keeps the meaning of the flag. */
  lemma StaysInside(s: System, t: nat, st: Store, th: Thread)
    requires Invariant(s) && t < |s.threads| && s.owner == Some(t) && StoreValid(st) && InCritical(th)
    requires Holding(At(s.(store := st), t, th), th)
    ensures Invariant(At(s.(store := st), t, th))
  {
    hide StoreValid, Holding;
  }

  lemma PutKeepsInvariant(s: System, t: nat)
    requires Invariant(s) && t < |s.threads| && s.threads[t].Busy? && s.threads[t].at.Loop?
    requires !IsGet(s.threads[t].call)
    ensures Invariant(LoopStep(s, t))
  {
    hide Invariant, StoreValid, DeliveredBytes;
    var th := s.threads[t];
    Inside(s, t);
    if |th.done| < |th.call.data| && (th.call.PutClobber? || |s.store.queue| < s.store.capacity) {
      var c := th.call.data[|th.done|];
      var st := if th.call.Put? then Append(s.store, c) else AppendClobber(s.store, c);
      if th.call.Put? {
        AppendValid(s.store, c);
      } else {
        AppendClobberValid(s.store, c);
      }
      StaysInside(s, t, st, th.(done := th.done + [c]));
    } else {
      StaysInside(s, t, s.store, th.(at := Notify));
    }
  }

  lemma GetKeepsInvariant(s: System, t: nat)
    requires Invariant(s) && t < |s.threads| && s.threads[t].Busy? && s.threads[t].at.Loop?
    requires IsGet(s.threads[t].call)
    ensures Invariant(LoopStep(s, t))
  {
    hide Invariant, StoreValid, DeliveredBytes;
    var th := s.threads[t];
    Inside(s, t);
    if |th.done| < th.call.size && s.store.queue != [] {
      LeaveValid(s.store, Delivered);
      StaysInside(s, t, Leave(s.store, Delivered), th.(done := th.done + [s.store.queue[0]]));
    } else {
      StaysInside(s, t, s.store, th.(at := Notify));
    }
  }

  lemma StepKeepsInvariant(s: System, t: nat, a: Action)
    requires Invariant(s) && Enabled(s, t, a)
    ensures Invariant(Next(s, t, a))
  {
    if a.Step? && s.threads[t].at.Loop? {
      if IsGet(s.threads[t].call) {
        GetKeepsInvariant(s, t);
      } else {
        PutKeepsInvariant(s, t);
      }
    }
  }

  lemma {:induction false} RunKeepsInvariant(s: System, schedule: Schedule)
    requires Invariant(s) && Runs(s, schedule)
    ensures Invariant(Reached(s, schedule))
    decreases |schedule|
  {
    if schedule != [] {
      StepKeepsInvariant(s, schedule[0].0, schedule[0].1);
      RunKeepsInvariant(Next(s, schedule[0].0, schedule[0].1), schedule[1..]);
    }
  }

  /**
   No wake-up is lost: in every state of every run in which the mutex is free,
   the event flag is set exactly when the buffer has bytes, so a waiting get can
   go on; and at most one thread is inside the mutex at any time.
   */
  lemma NoLostWakeUp(capacity: nat, threads: nat, schedule: Schedule, t: nat)
    requires capacity >= 1 && Runs(Initial(capacity, threads), schedule)
    ensures var s := Reached(Initial(capacity, threads), schedule);
      && (s.owner.None? ==> Signalled(s))
      && (s.owner.None? && s.store.queue != [] && t < |s.threads| && s.threads[t].Busy? && s.threads[t].at.Wait?
          ==> Enabled(s, t, Step))
      && (forall i, j ::
          0 <= i < |s.threads| && 0 <= j < |s.threads| && InCritical(s.threads[i]) && InCritical(s.threads[j])
          ==> i == j)
  {
    InitialInvariant(capacity, threads);
    RunKeepsInvariant(Initial(capacity, threads), schedule);
  }

  /** Conservation over whole runs: bytes put are those delivered, dropped and queued, the queue being the newest. */
  lemma BytesConserved(capacity: nat, threads: nat, schedule: Schedule)
    requires capacity >= 1 && Runs(Initial(capacity, threads), schedule)
    ensures var st := Reached(Initial(capacity, threads), schedule).store;
      && |st.fates| <= |st.written| && |st.queue| <= st.capacity
      && st.written == st.written[..|st.fates|] + st.queue
      && |WithFate(st.written, st.fates, Delivered)| + |WithFate(st.written, st.fates, Dropped)| + |st.queue|
         == |st.written|
  {
    InitialInvariant(capacity, threads);
    RunKeepsInvariant(Initial(capacity, threads), schedule);
    var st := Reached(Initial(capacity, threads), schedule).store;
    FatesCount(st.written, st.fates);
  }

  // ----- a single consumer

  /** Only thread `c` gets. */
  predicate OnlyConsumer(s: System, c: nat) {
    forall t :: 0 <= t < |s.threads| && t != c ==> (s.threads[t].Busy? ==> !IsGet(s.threads[t].call))
  }

  predicate OnlyConsumerBegins(schedule: Schedule, c: nat) {
    forall i :: 0 <= i < |schedule| && schedule[i].0 != c ==> (schedule[i].1.Begin? ==> !IsGet(schedule[i].1.call))
  }

  /** A waiting get that saw the flag finds a byte, if it wants one. */
  predicate WaitPays(s: System, th: Thread) {
    th.Busy? && th.call.GetWait? && th.call.size > 0 ==>
      match th.at
      case Wait => th.done == []
      case Lock => s.store.queue != []
      case Loop => th.done != [] || s.store.queue != []
      case Return => th.call.timed || th.done != []
      case _ => th.done != []
  }

  function InProgress(th: Thread): seq<char> {
    if th.Busy? && IsGet(th.call) then th.done else []
  }

  predicate ConsumerInvariant(s: System, c: nat) {
    && Invariant(s) && c < |s.threads| && OnlyConsumer(s, c) && WaitPays(s, s.threads[c])
    && DeliveredBytes(s.store) == s.returned + InProgress(s.threads[c])
  }

  /** A put delivers nothing and leaves no empty queue behind. */
  lemma PutLoop(s: System, t: nat)
    requires StoreValid(s.store) && t < |s.threads| && s.threads[t].Busy? && !IsGet(s.threads[t].call)
    ensures var st := LoopStep(s, t).store;
      StoreValid(st) && DeliveredBytes(st) == DeliveredBytes(s.store) && (s.store.queue != [] ==> st.queue != [])
  {
    var th := s.threads[t];
    if |th.done| < |th.call.data| {
      var c := th.call.data[|th.done|];
      if th.call.Put? && |s.store.queue| < s.store.capacity {
        AppendValid(s.store, c);
      }
      AppendClobberValid(s.store, c);
    }
  }

  /** What the steps of a producer leave alone. */
  lemma OtherEffect(s: System, c: nat, t: nat, a: Action)
    requires StoreValid(s.store) && Enabled(s, t, a) && c < |s.threads| && t != c && OnlyConsumer(s, c)
    requires a.Begin? ==> !IsGet(a.call)
    ensures var s' := Next(s, t, a);
      && |s'.threads| == |s.threads| && s'.threads[c] == s.threads[c] && OnlyConsumer(s', c)
      && s'.returned == s.returned && StoreValid(s'.store) && DeliveredBytes(s'.store) == DeliveredBytes(s.store)
      && (s.store.queue != [] ==> s'.store.queue != [])
  {
    hide StoreValid, DeliveredBytes, Append, AppendClobber;
    if a.Step? && s.threads[t].at.Loop? {
      PutLoop(s, t);
    }
  }

  lemma OtherStep(s: System, c: nat, t: nat, a: Action)
    requires ConsumerInvariant(s, c) && Enabled(s, t, a) && t != c && (a.Begin? ==> !IsGet(a.call))
    ensures ConsumerInvariant(Next(s, t, a), c)
  {
    hide Next, Enabled, OnlyConsumer, DeliveredBytes;
    StepKeepsInvariant(s, t, a);
    OtherEffect(s, c, t, a);
  }

  /** A get takes the oldest byte, or ends. */
  lemma GetLoop(s: System, c: nat)
    requires StoreValid(s.store) && c < |s.threads| && s.threads[c].Busy? && IsGet(s.threads[c].call)
    ensures var s', th := LoopStep(s, c), s.threads[c];
      && StoreValid(s'.store) && s'.returned == s.returned
      && (if |th.done| >= th.call.size || s.store.queue == []
          then s'.store == s.store && s'.threads[c] == th.(at := Notify)
          else s'.threads[c] == th.(done := th.done + [s.store.queue[0]])
               && DeliveredBytes(s'.store) == DeliveredBytes(s.store) + [s.store.queue[0]])
  {
    hide StoreValid, DeliveredBytes;
    if s.store.queue != [] {
      LeaveValid(s.store, Delivered);
    }
  }

  lemma ConsumerLoop(s: System, c: nat)
    requires ConsumerInvariant(s, c) && s.threads[c].Busy? && s.threads[c].at.Loop?
    ensures var s' := LoopStep(s, c);
      |s'.threads| == |s.threads| && OnlyConsumer(s', c) && WaitPays(s', s'.threads[c])
      && StoreValid(s'.store) && DeliveredBytes(s'.store) == s'.returned + InProgress(s'.threads[c])
  {
    hide Invariant, StoreValid, DeliveredBytes, Append, AppendClobber, Leave;
    StoreOf(s);
    if IsGet(s.threads[c].call) {
      GetLoop(s, c);
    } else {
      PutLoop(s, c);
    }
  }

  lemma StoreOf(s: System)
    requires Invariant(s)
    ensures StoreValid(s.store)
  {
  }

  /** While the consumer waits, a set flag means that there are bytes. */
  lemma FlagMeansBytes(s: System, c: nat)
    requires Invariant(s) && c < |s.threads| && OnlyConsumer(s, c) && s.threads[c].Busy? && s.threads[c].at.Wait?
    ensures s.flag ==> s.store.queue != []
  {
  }

  /** Outside the loop the consumer moves no bytes, and ends up where its promise still holds. */
  lemma ConsumerQuiet(s: System, c: nat, a: Action)
    requires c < |s.threads| && OnlyConsumer(s, c) && WaitPays(s, s.threads[c]) && Enabled(s, c, a)
    requires a.Step? ==> !s.threads[c].at.Loop? && (s.threads[c].at.Wait? ==> s.store.queue != [])
    ensures var s' := Next(s, c, a);
      && |s'.threads| == |s.threads| && OnlyConsumer(s', c) && WaitPays(s', s'.threads[c]) && s'.store == s.store
      && s'.returned + InProgress(s'.threads[c]) == s.returned + InProgress(s.threads[c])
  {
    hide LoopStep, StoreValid;
  }

  lemma ConsumerStep(s: System, c: nat, a: Action)
    requires ConsumerInvariant(s, c) && Enabled(s, c, a)
    ensures ConsumerInvariant(Next(s, c, a), c)
  {
    hide Invariant, StoreValid, DeliveredBytes, LoopStep, NotifyStep, OnlyConsumer, WaitPays, InProgress;
    StoreOf(s);
    StepKeepsInvariant(s, c, a);
    if a.Step? && s.threads[c].at.Loop? {
      ConsumerLoop(s, c);
    } else {
      if s.threads[c].Busy? && s.threads[c].at.Wait? {
        FlagMeansBytes(s, c);
      }
      ConsumerQuiet(s, c, a);
    }
  }

  lemma {:induction false} RunKeepsConsumer(s: System, c: nat, schedule: Schedule)
    requires ConsumerInvariant(s, c) && Runs(s, schedule) && OnlyConsumerBegins(schedule, c)
    ensures ConsumerInvariant(Reached(s, schedule), c)
    decreases |schedule|
  {
    if schedule != [] {
      var (t, a) := schedule[0];
      if t == c {
        ConsumerStep(s, c, a);
      } else {
        OtherStep(s, c, t, a);
      }
      assert forall i :: 0 <= i < |schedule[1..]| ==> schedule[1..][i] == schedule[i + 1];
      RunKeepsConsumer(Next(s, t, a), c, schedule[1..]);
    }
  }

  /**
   With a single consumer, an untimed waiting get of positive size returns at
   least one byte, and what it has returned so far, with what it is returning,
   is exactly what was delivered, in the order it was put.
   */
  lemma WaitingGetPays(capacity: nat, threads: nat, c: nat, schedule: Schedule)
    requires capacity >= 1 && c < threads && OnlyConsumerBegins(schedule, c)
    requires Runs(Initial(capacity, threads), schedule)
    ensures var s := Reached(Initial(capacity, threads), schedule);
      && c < |s.threads| && StoreValid(s.store)
      && DeliveredBytes(s.store) == s.returned + InProgress(s.threads[c])
      && (var th := s.threads[c];
          th.Busy? && th.at.Return? && th.call.GetWait? && !th.call.timed && th.call.size > 0 ==> th.done != [])
  {
    InitialInvariant(capacity, threads);
    RunKeepsConsumer(Initial(capacity, threads), c, schedule);
  }

  lemma {:induction false} OneMore(s: System, schedule: Schedule, t: nat, a: Action)
    requires Runs(s, schedule) && Enabled(Reached(s, schedule), t, a)
    ensures Runs(s, schedule + [(t, a)])
    ensures Reached(s, schedule + [(t, a)]) == Next(Reached(s, schedule), t, a)
    decreases |schedule|
  {
    if schedule == [] {
      assert schedule + [(t, a)] == [(t, a)];
    } else {
      assert (schedule + [(t, a)])[1..] == schedule[1..] + [(t, a)];
      OneMore(Next(s, schedule[0].0, schedule[0].1), schedule[1..], t, a);
    }
  }

  // ----- two consumers

  /** Two threads of a system in which all others stay idle. */
  datatype Pair = Pair(capacity: nat, threads: nat, c: nat, d: nat)

  datatype Scene = Scene(store: Store, flag: bool, owner: Option<nat>, first: Thread, second: Thread)

  predicate Proper(p: Pair) {
    p.capacity >= 1 && p.c < p.threads && p.d < p.threads && p.c != p.d
  }

  function Stage(p: Pair, v: Scene): System {
    System(v.store, v.flag, v.owner,
           seq(p.threads, i => if i == p.c then v.first else if i == p.d then v.second else Idle), [])
  }

  predicate OnlyBy(schedule: Schedule, c: nat, d: nat) {
    forall i :: 0 <= i < |schedule| ==> schedule[i].0 == c || schedule[i].0 == d
  }

  predicate Arrives(p: Pair, schedule: Schedule, v: Scene) {
    && OnlyBy(schedule, p.c, p.d) && Runs(Initial(p.capacity, p.threads), schedule)
    && Reached(Initial(p.capacity, p.threads), schedule) == Stage(p, v)
  }

  /** The first thread acts. */
  lemma First(p: Pair, schedule: Schedule, v: Scene, a: Action, v': Scene) returns (schedule': Schedule)
    requires Proper(p) && Arrives(p, schedule, v) && v'.second == v.second && Enabled(Stage(p, v), p.c, a)
    requires Next(Stage(p, v), p.c, a) == At(Stage(p, v'.(first := v.first)), p.c, v'.first)
    ensures Arrives(p, schedule', v')
  {
    hide Next, Enabled;
    OneMore(Initial(p.capacity, p.threads), schedule, p.c, a);
    schedule' := schedule + [(p.c, a)];
    assert At(Stage(p, v'.(first := v.first)), p.c, v'.first).threads == Stage(p, v').threads;
  }

  /** The second thread acts. */
  lemma Second(p: Pair, schedule: Schedule, v: Scene, a: Action, v': Scene) returns (schedule': Schedule)
    requires Proper(p) && Arrives(p, schedule, v) && v'.first == v.first && Enabled(Stage(p, v), p.d, a)
    requires Next(Stage(p, v), p.d, a) == At(Stage(p, v'.(second := v.second)), p.d, v'.second)
    ensures Arrives(p, schedule', v')
  {
    hide Next, Enabled;
    OneMore(Initial(p.capacity, p.threads), schedule, p.d, a);
    schedule' := schedule + [(p.d, a)];
    assert At(Stage(p, v'.(second := v.second)), p.d, v'.second).threads == Stage(p, v').threads;
  }

  const WAIT_ONE := GetWait(1, false)
  const PUT_ONE := Put("x")

  function Before(capacity: nat): Store {
    Store(capacity, [], [], [])
  }

  function Holds(capacity: nat): Store {
    Store(capacity, "x", "x", [])
  }

  function Taken(capacity: nat): Store {
    Store(capacity, [], "x", [Delivered])
  }

  /** The first thread puts a byte. */
  lemma ByteArrives(p: Pair) returns (schedule: Schedule)
    requires Proper(p)
    ensures Arrives(p, schedule, Scene(Holds(p.capacity), true, None, Idle, Idle))
  {
    hide Arrives;
    var empty, full, me := Before(p.capacity), Holds(p.capacity), Some(p.c);
    var v0 := Scene(empty, false, None, Idle, Idle);
    NothingYet(p);
    assert Append(empty, 'x') == full && [] + ['x'] == "x";
    var v1 := v0.(first := Busy(PUT_ONE, Lock, []));
    schedule := First(p, [], v0, Begin(PUT_ONE), v1);
    var v2 := Scene(empty, false, me, Busy(PUT_ONE, Loop, []), Idle);
    schedule := First(p, schedule, v1, Step, v2);
    var v3 := Scene(full, false, me, Busy(PUT_ONE, Loop, "x"), Idle);
    schedule := First(p, schedule, v2, Step, v3);
    var v4 := Scene(full, false, me, Busy(PUT_ONE, Notify, "x"), Idle);
    schedule := First(p, schedule, v3, Step, v4);
    var v5 := Scene(full, true, me, Busy(PUT_ONE, Unlock, "x"), Idle);
    schedule := First(p, schedule, v4, Step, v5);
    var v6 := Scene(full, true, None, Busy(PUT_ONE, Return, "x"), Idle);
    schedule := First(p, schedule, v5, Step, v6);
    schedule := First(p, schedule, v6, Step, Scene(full, true, None, Idle, Idle));
  }

  lemma NothingYet(p: Pair)
    ensures Arrives(p, [], Scene(Before(p.capacity), false, None, Idle, Idle))
  {
    assert Initial(p.capacity, p.threads).threads
      == Stage(p, Scene(Before(p.capacity), false, None, Idle, Idle)).threads;
  }

  /** Both threads see the flag before either takes the mutex. */
  lemma BothSeeIt(p: Pair) returns (schedule: Schedule)
    requires Proper(p)
    ensures Arrives(p, schedule,
                    Scene(Holds(p.capacity), true, None, Busy(WAIT_ONE, Lock, []), Busy(WAIT_ONE, Lock, [])))
  {
    hide Arrives;
    var full := Holds(p.capacity);
    var waiting, awake := Busy(WAIT_ONE, Wait, []), Busy(WAIT_ONE, Lock, []);
    schedule := ByteArrives(p);
    schedule := First(p, schedule, Scene(full, true, None, Idle, Idle), Begin(WAIT_ONE),
                      Scene(full, true, None, waiting, Idle));
    schedule := Second(p, schedule, Scene(full, true, None, waiting, Idle), Begin(WAIT_ONE),
                       Scene(full, true, None, waiting, waiting));
    schedule := First(p, schedule, Scene(full, true, None, waiting, waiting), Step,
                      Scene(full, true, None, awake, waiting));
    schedule := Second(p, schedule, Scene(full, true, None, awake, waiting), Step,
                       Scene(full, true, None, awake, awake));
  }

  /** The first thread takes the byte. */
  lemma FirstTakesIt(p: Pair) returns (schedule: Schedule)
    requires Proper(p)
    ensures Arrives(p, schedule,
                    Scene(Taken(p.capacity), false, None, Busy(WAIT_ONE, Return, "x"), Busy(WAIT_ONE, Lock, [])))
  {
    hide Arrives;
    var full, empty, me, other := Holds(p.capacity), Taken(p.capacity), Some(p.c), Busy(WAIT_ONE, Lock, []);
    schedule := BothSeeIt(p);
    var v1 := Scene(full, true, me, Busy(WAIT_ONE, Loop, []), other);
    schedule := First(p, schedule, Scene(full, true, None, other, other), Step, v1);
    assert Leave(full, Delivered) == empty && [] + [full.queue[0]] == "x";
    var v2 := Scene(empty, true, me, Busy(WAIT_ONE, Loop, "x"), other);
    schedule := First(p, schedule, v1, Step, v2);
    var v3 := Scene(empty, true, me, Busy(WAIT_ONE, Notify, "x"), other);
    schedule := First(p, schedule, v2, Step, v3);
    var v4 := Scene(empty, false, me, Busy(WAIT_ONE, Unlock, "x"), other);
    schedule := First(p, schedule, v3, Step, v4);
    schedule := First(p, schedule, v4, Step, Scene(empty, false, None, Busy(WAIT_ONE, Return, "x"), other));
  }

  /** Any two threads that get can leave one of them with nothing, in a system of any size. */
  lemma TwoConsumersMayStarve(p: Pair) returns (schedule: Schedule)
    requires Proper(p)
    ensures OnlyBy(schedule, p.c, p.d) && Runs(Initial(p.capacity, p.threads), schedule)
    ensures var s := Reached(Initial(p.capacity, p.threads), schedule);
      |s.threads| == p.threads && s.threads[p.d] == Busy(WAIT_ONE, Return, [])
  {
    var empty, me, first := Taken(p.capacity), Some(p.d), Busy(WAIT_ONE, Return, "x");
    schedule := FirstTakesIt(p);
    var v1 := Scene(empty, false, me, first, Busy(WAIT_ONE, Loop, []));
    schedule := Second(p, schedule, Scene(empty, false, None, first, Busy(WAIT_ONE, Lock, [])), Step, v1);
    var v2 := v1.(second := Busy(WAIT_ONE, Notify, []));
    schedule := Second(p, schedule, v1, Step, v2);
    var v3 := v1.(second := Busy(WAIT_ONE, Unlock, []));
    schedule := Second(p, schedule, v2, Step, v3);
    schedule := Second(p, schedule, v3, Step, Scene(empty, false, None, first, Busy(WAIT_ONE, Return, [])));
  }

  // ----- how many consumers

  /** Only threads of `cs` get. */
  predicate GetsOnlyBy(schedule: Schedule, cs: set<nat>) {
    forall i :: 0 <= i < |schedule| && schedule[i].1.Begin? && IsGet(schedule[i].1.call) ==> schedule[i].0 in cs
  }

  /** An untimed waiting get of positive size that is about to return has a byte. */
  predicate Paid(th: Thread) {
    th.Busy? && th.at.Return? && th.call.GetWait? && !th.call.timed && th.call.size > 0 ==> th.done != []
  }

  predicate AllPaid(s: System) {
    forall t :: 0 <= t < |s.threads| ==> Paid(s.threads[t])
  }

  /** In no run with consumers `cs` does a waiting get return nothing. */
  ghost predicate AlwaysPays(capacity: nat, threads: nat, cs: set<nat>) {
    forall schedule :: Runs(Initial(capacity, threads), schedule) && GetsOnlyBy(schedule, cs) ==>
      AllPaid(Reached(Initial(capacity, threads), schedule))
  }

  lemma OneConsumerPays(capacity: nat, threads: nat, c: nat, schedule: Schedule)
    requires capacity >= 1 && c < threads && OnlyConsumerBegins(schedule, c)
    requires Runs(Initial(capacity, threads), schedule)
    ensures AllPaid(Reached(Initial(capacity, threads), schedule))
  {
    InitialInvariant(capacity, threads);
    RunKeepsConsumer(Initial(capacity, threads), c, schedule);
  }

  lemma OneAtMost(cs: set<nat>)
    ensures |cs| <= 1 <==> forall c, d :: c in cs && d in cs ==> c == d
  {
    if |cs| > 1 {
      var c :| c in cs;
      assert |cs - {c}| > 0;
      var d :| d in cs - {c};
    } else if cs != {} {
      var c :| c in cs;
      assert |cs - {c}| == 0;
      assert forall d :: d in cs && d != c ==> d in cs - {c};
    }
  }

  /** Waiting gets are sure to return something exactly when no two threads get. */
  lemma PaysExactly(capacity: nat, threads: nat, cs: set<nat>)
    requires capacity >= 1 && forall c :: c in cs ==> c < threads
    ensures AlwaysPays(capacity, threads, cs) <==> |cs| <= 1
  {
    OneAtMost(cs);
    if |cs| <= 1 {
      forall schedule | Runs(Initial(capacity, threads), schedule) && GetsOnlyBy(schedule, cs)
        ensures AllPaid(Reached(Initial(capacity, threads), schedule))
      {
        if threads > 0 {
          var c := 0;
          if cs != {} {
            c :| c in cs;
          }
          OneConsumerPays(capacity, threads, c, schedule);
        } else {
          assert schedule == [];
        }
      }
    } else {
      var c, d :| c in cs && d in cs && c != d;
      var schedule := TwoConsumersMayStarve(Pair(capacity, threads, c, d));
      assert GetsOnlyBy(schedule, cs);
      assert !Paid(Reached(Initial(capacity, threads), schedule).threads[d]);
    }
  }
}

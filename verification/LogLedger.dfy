/**
 What the callers of the log asked for and what became of it: the bytes written
 and delivered in a run are those that its calls moved, call by call, in the
 order in which they held the mutex.
 */
module LogLedger {
  import opened Machine
  import opened LogProtocol

  /** A call that released the mutex: its thread, the bytes it moved, and how many it left in the queue. */
  datatype Record = Record(thread: nat, call: Call, moved: seq<char>, queued: nat)

  /** The record of a step, if it is the end of a call's time with the mutex. */
  function Completed(s: System, t: nat, a: Action): seq<Record>
    requires Enabled(s, t, a)
  {
    var th := s.threads[t];
    if a.Step? && th.at.Unlock? then [Record(t, th.call, th.done, |s.store.queue|)] else []
  }

  function Ledger(s: System, schedule: Schedule): seq<Record>
    requires Runs(s, schedule)
    decreases |schedule|
  {
    if schedule == [] then []
    else
      var (t, a) := schedule[0];
      Completed(s, t, a) + Ledger(Next(s, t, a), schedule[1..])
  }

  /** The bytes that the gets among the records moved, or the puts. */
  function Moved(records: seq<Record>, gets: bool): seq<char> {
    if records == [] then []
    else (if IsGet(records[0].call) == gets then records[0].moved else []) + Moved(records[1..], gets)
  }

  /** What the holder of the mutex has moved so far. */
  function InHand(s: System, gets: bool): seq<char> {
    match s.owner
    case None => []
    case Some(t) =>
      if t < |s.threads| && s.threads[t].Busy? && IsGet(s.threads[t].call) == gets then s.threads[t].done else []
  }

  /** All bytes ever delivered, or ever written. */
  function Total(st: Store, gets: bool): seq<char>
    requires StoreValid(st)
  {
    if gets then DeliveredBytes(st) else st.written
  }

  // ----- a call does what it was asked to

  /** Puts move the front of their data, and gets no more than they asked for. */
  predicate Within(call: Call, moved: seq<char>) {
    match call
    case Put(data) => moved <= data
    case PutClobber(data) => moved <= data
    case Get(size) => |moved| <= if size > 0 then size else 0
    case GetWait(size, _) => |moved| <= if size > 0 then size else 0
  }

  /** A put stops short of its data only at a full queue, a clobbering put never, and a get only at an empty queue. */
  predicate Complete(call: Call, moved: seq<char>, queued: nat, capacity: nat) {
    match call
    case Put(data) => moved == data || queued == capacity
    case PutClobber(data) => moved == data
    case Get(size) => |moved| >= size || queued == 0
    case GetWait(size, _) => |moved| >= size || queued == 0
  }

  predicate Honest(st: Store, th: Thread) {
    th.Busy? ==>
      && Within(th.call, th.done)
      && (th.at.Notify? || th.at.Unlock? ==> Complete(th.call, th.done, |st.queue|, st.capacity))
  }

  predicate AllHonest(s: System) {
    forall t :: 0 <= t < |s.threads| ==> Honest(s.store, s.threads[t])
  }

  predicate Kept(r: Record, capacity: nat) {
    Within(r.call, r.moved) && Complete(r.call, r.moved, r.queued, capacity)
  }

  // ----- one step

  /** The holder of the mutex has moved its bytes last. */
  predicate HandLast(s: System, gets: bool)
    requires StoreValid(s.store)
  {
    var total, hand := Total(s.store, gets), InHand(s, gets);
    |hand| <= |total| && total == total[..|total| - |hand|] + hand
  }

  /** What was moved before it took the mutex. */
  function Settled(s: System, gets: bool): seq<char>
    requires StoreValid(s.store) && HandLast(s, gets)
  {
    Total(s.store, gets)[..|Total(s.store, gets)| - |InHand(s, gets)|]
  }

  predicate LedgerInvariant(s: System) {
    Invariant(s) && AllHonest(s) && HandLast(s, false) && HandLast(s, true)
  }

  /** A turn of the put loop. */
  lemma PutTurn(s: System, t: nat)
    requires StoreValid(s.store) && t < |s.threads| && s.threads[t].Busy? && !IsGet(s.threads[t].call)
    requires Honest(s.store, s.threads[t]) && !s.threads[t].at.Notify? && !s.threads[t].at.Unlock?
    ensures var s', th := LoopStep(s, t), s.threads[t];
      && StoreValid(s'.store) && Honest(s'.store, s'.threads[t]) && s'.threads[t].Busy? && s'.threads[t].call == th.call
      && DeliveredBytes(s'.store) == DeliveredBytes(s.store)
      && th.done <= s'.threads[t].done && s'.store.written == s.store.written + s'.threads[t].done[|th.done|..]
  {
    hide StoreValid, DeliveredBytes;
    PutLoop(s, t);
    PutWrites(s, t);
  }

  lemma PutWrites(s: System, t: nat)
    requires StoreValid(s.store) && t < |s.threads| && s.threads[t].Busy? && !IsGet(s.threads[t].call)
    requires Honest(s.store, s.threads[t]) && !s.threads[t].at.Notify? && !s.threads[t].at.Unlock?
    ensures var s', th := LoopStep(s, t), s.threads[t];
      && Honest(s'.store, s'.threads[t]) && s'.threads[t].Busy? && s'.threads[t].call == th.call
      && th.done <= s'.threads[t].done && s'.store.written == s.store.written + s'.threads[t].done[|th.done|..]
  {
    var th := s.threads[t];
    if |th.done| < |th.call.data| {
      var c := th.call.data[|th.done|];
      assert th.call.data[..|th.done| + 1] == th.done + [c];
      assert (th.done + [c])[|th.done|..] == [c];
    }
  }

  /** A turn of the get loop. */
  lemma GetTurn(s: System, t: nat)
    requires StoreValid(s.store) && t < |s.threads| && s.threads[t].Busy? && IsGet(s.threads[t].call)
    requires Honest(s.store, s.threads[t]) && !s.threads[t].at.Notify? && !s.threads[t].at.Unlock?
    ensures var s', th := LoopStep(s, t), s.threads[t];
      && StoreValid(s'.store) && Honest(s'.store, s'.threads[t]) && s'.threads[t].Busy? && s'.threads[t].call == th.call
      && s'.store.written == s.store.written && th.done <= s'.threads[t].done
      && DeliveredBytes(s'.store) == DeliveredBytes(s.store) + s'.threads[t].done[|th.done|..]
  {
    hide StoreValid, DeliveredBytes;
    GetLoop(s, t);
    var th := s.threads[t];
    if |th.done| < th.call.size && s.store.queue != [] {
      assert (th.done + [s.store.queue[0]])[|th.done|..] == [s.store.queue[0]];
    } else {
      assert th.done[|th.done|..] == [];
    }
  }

  lemma SameSystem(s: System, t: nat)
    requires t < |s.threads| && s.threads[t].Busy?
    ensures var s' := LoopStep(s, t);
      && |s'.threads| == |s.threads| && s'.owner == s.owner && s'.store.capacity == s.store.capacity
      && forall u :: 0 <= u < |s.threads| && u != t ==> s'.threads[u] == s.threads[u]
  {
  }

  /** What a turn adds to the totals, it adds to the thread's bytes. */
  lemma TurnAdds(s: System, t: nat, gets: bool)
    requires StoreValid(s.store) && t < |s.threads| && s.threads[t].Busy? && s.threads[t].at.Loop?
    requires Honest(s.store, s.threads[t])
    ensures var s', th := LoopStep(s, t), s.threads[t];
      && StoreValid(s'.store) && Honest(s'.store, s'.threads[t]) && s'.threads[t].Busy? && s'.threads[t].call == th.call
      && th.done <= s'.threads[t].done
      && Total(s'.store, gets)
         == Total(s.store, gets) + if IsGet(th.call) == gets then s'.threads[t].done[|th.done|..] else []
  {
    hide StoreValid, DeliveredBytes, LoopStep, Honest;
    if IsGet(s.threads[t].call) {
      GetTurn(s, t);
    } else {
      PutTurn(s, t);
    }
  }

  lemma HandGrows(total: seq<char>, base: seq<char>, hand: seq<char>, hand': seq<char>, total': seq<char>)
    requires total == base + hand && hand <= hand' && total' == total + hand'[|hand|..]
    ensures total' == base + hand' && |hand'| <= |total'| && base == total'[..|total'| - |hand'|]
  {
    assert hand' == hand + hand'[|hand|..];
  }

  /** Inside the loop everything moved goes to the holder's hand. */
  lemma LoopTurn(s: System, t: nat, gets: bool)
    requires LedgerInvariant(s) && t < |s.threads| && s.threads[t].Busy? && s.threads[t].at.Loop?
    ensures var s' := LoopStep(s, t);
      && StoreValid(s'.store) && Honest(s'.store, s'.threads[t]) && HandLast(s', gets)
      && Settled(s', gets) == Settled(s, gets)
  {
    hide Invariant, StoreValid, Total, LoopStep, Honest;
    Inside(s, t);
    SameSystem(s, t);
    assert Honest(s.store, s.threads[t]);
    TurnAdds(s, t, gets);
    var s' := LoopStep(s, t);
    HandGrows(Total(s.store, gets), Settled(s, gets), InHand(s, gets), InHand(s', gets), Total(s'.store, gets));
  }

  /** Nobody else is between loop and release. */
  lemma OthersHonest(s: System, s': System, t: nat)
    requires Invariant(s) && AllHonest(s) && s.owner == Some(t) && |s'.threads| == |s.threads| && t < |s.threads|
    requires forall u :: 0 <= u < |s.threads| && u != t ==> s'.threads[u] == s.threads[u]
    requires Honest(s'.store, s'.threads[t])
    ensures AllHonest(s')
  {
    forall u | 0 <= u < |s'.threads|
      ensures Honest(s'.store, s'.threads[u])
    {
      if u != t {
        assert Honest(s.store, s.threads[u]) && !InCritical(s.threads[u]);
      }
    }
  }

  /** Outside the loop no bytes move. */
  lemma QuietHonest(s: System, t: nat, a: Action)
    requires Invariant(s) && AllHonest(s) && Enabled(s, t, a) && !(a.Step? && s.threads[t].at.Loop?)
    ensures var s' := Next(s, t, a);
      AllHonest(s') && s'.store == s.store && forall r :: r in Completed(s, t, a) ==> Kept(r, s.store.capacity)
  {
    hide StoreValid, LoopStep;
    var s' := Next(s, t, a);
    assert Honest(s.store, s.threads[t]);
    forall u | 0 <= u < |s'.threads|
      ensures Honest(s'.store, s'.threads[u])
    {
      assert Honest(s.store, s.threads[u]);
    }
  }

  lemma MovedOne(r: Record, gets: bool)
    ensures Moved([r], gets) == (if IsGet(r.call) == gets then r.moved else []) && Moved([], gets) == []
  {
  }

  /** What the holder had in hand is settled when it leaves, and nobody else has anything in hand. */
  lemma QuietHands(s: System, t: nat, a: Action, gets: bool)
    requires Invariant(s) && Enabled(s, t, a) && !(a.Step? && s.threads[t].at.Loop?)
    ensures InHand(s, gets) == Moved(Completed(s, t, a), gets) + InHand(Next(s, t, a), gets)
  {
    hide StoreValid, LoopStep, Holding, Moved;
    var th := s.threads[t];
    MovedOne(Record(t, if th.Busy? then th.call else Put([]), if th.Busy? then th.done else [], |s.store.queue|), gets);
    if a.Step? && th.at.Lock? {
      assert th.done == [];
    } else if s.owner == Some(t) {
      assert InCritical(th);
    }
  }

  lemma Resettled(s: System, s': System, gets: bool, records: seq<char>)
    requires StoreValid(s.store) && HandLast(s, gets) && s'.store == s.store
    requires InHand(s, gets) == records + InHand(s', gets)
    ensures HandLast(s', gets) && Settled(s', gets) == Settled(s, gets) + records
  {
    hide StoreValid, DeliveredBytes, InHand;
    var total, base := Total(s.store, gets), Settled(s, gets);
    assert total == (base + records) + InHand(s', gets);
  }

  /** Every step keeps the books. */
  lemma StepKeepsLedger(s: System, t: nat, a: Action)
    requires LedgerInvariant(s) && Enabled(s, t, a)
    ensures var s', done := Next(s, t, a), Completed(s, t, a);
      && LedgerInvariant(s') && s'.store.capacity == s.store.capacity
      && Settled(s', false) == Settled(s, false) + Moved(done, false)
      && Settled(s', true) == Settled(s, true) + Moved(done, true)
      && forall r :: r in done ==> Kept(r, s.store.capacity)
  {
    hide Invariant, StoreValid, HandLast, Settled, AllHonest, Honest, LoopStep, Moved, Kept;
    StepKeepsInvariant(s, t, a);
    StoreOf(s);
    if a.Step? && s.threads[t].at.Loop? {
      LoopTurn(s, t, false);
      LoopTurn(s, t, true);
      SameSystem(s, t);
      Inside(s, t);
      OthersHonest(s, LoopStep(s, t), t);
      MovedOne(Record(0, Put([]), [], 0), false);
      MovedOne(Record(0, Put([]), [], 0), true);
    } else {
      QuietHonest(s, t, a);
      QuietHands(s, t, a, false);
      QuietHands(s, t, a, true);
      Resettled(s, Next(s, t, a), false, Moved(Completed(s, t, a), false));
      Resettled(s, Next(s, t, a), true, Moved(Completed(s, t, a), true));
    }
  }

  // ----- whole runs

  lemma {:induction false} MovedConcat(a: seq<Record>, b: seq<Record>, gets: bool)
    ensures Moved(a + b, gets) == Moved(a, gets) + Moved(b, gets)
  {
    if a == [] {
      assert a + b == b;
    } else {
      assert (a + b)[1..] == a[1..] + b;
      MovedConcat(a[1..], b, gets);
    }
  }

  lemma {:induction false} RunKeepsLedger(s: System, schedule: Schedule)
    requires LedgerInvariant(s) && Runs(s, schedule)
    ensures var s', ledger := Reached(s, schedule), Ledger(s, schedule);
      && LedgerInvariant(s') && s'.store.capacity == s.store.capacity
      && Settled(s', false) == Settled(s, false) + Moved(ledger, false)
      && Settled(s', true) == Settled(s, true) + Moved(ledger, true)
      && forall r :: r in ledger ==> Kept(r, s.store.capacity)
    decreases |schedule|
  {
    hide LedgerInvariant, Next, Completed, Settled, Kept, Enabled;
    if schedule != [] {
      var (t, a) := schedule[0];
      StepKeepsLedger(s, t, a);
      RunKeepsLedger(Next(s, t, a), schedule[1..]);
      MovedConcat(Completed(s, t, a), Ledger(Next(s, t, a), schedule[1..]), false);
      MovedConcat(Completed(s, t, a), Ledger(Next(s, t, a), schedule[1..]), true);
    }
  }

  // ----- whose calls they are

  /** The puts that thread `t` is asked for, in order. */
  function PutsAsked(schedule: Schedule, t: nat): seq<Call> {
    if schedule == [] then []
    else
      var (u, a) := schedule[0];
      (if u == t && a.Begin? && !IsGet(a.call) then [a.call] else []) + PutsAsked(schedule[1..], t)
  }

  /** The puts of thread `t` among the records. */
  function PutsDone(records: seq<Record>, t: nat): seq<Call> {
    if records == [] then []
    else
      (if records[0].thread == t && !IsGet(records[0].call) then [records[0].call] else []) + PutsDone(records[1..], t)
  }

  /** The put that a thread has not released the mutex of yet. */
  function Underway(th: Thread): seq<Call> {
    if th.Busy? && !IsGet(th.call) && !th.at.Return? then [th.call] else []
  }

  lemma LoopKeepsCall(s: System, t: nat)
    requires t < |s.threads| && s.threads[t].Busy? && s.threads[t].at.Loop?
    ensures var th := LoopStep(s, t).threads[t]; th.Busy? && th.call == s.threads[t].call && !th.at.Return?
  {
  }

  /** One step of a thread's own. */
  lemma OwnCalls(s: System, t: nat, a: Action)
    requires Enabled(s, t, a)
    ensures var asked := if a.Begin? && !IsGet(a.call) then [a.call] else [];
      Underway(s.threads[t]) + asked == PutsDone(Completed(s, t, a), t) + Underway(Next(s, t, a).threads[t])
  {
    hide LoopStep, PutsDone;
    if a.Step? && s.threads[t].at.Loop? {
      LoopKeepsCall(s, t);
      SameSystem(s, t);
    }
    PutsDoneOne(Completed(s, t, a), t);
  }

  lemma PutsDoneOne(records: seq<Record>, t: nat)
    requires |records| <= 1
    ensures PutsDone(records, t)
      == if records != [] && records[0].thread == t && !IsGet(records[0].call) then [records[0].call] else []
  {
  }

  lemma OthersStay(s: System, u: nat, a: Action, t: nat)
    requires Enabled(s, u, a) && t < |s.threads| && t != u
    ensures |Next(s, u, a).threads| == |s.threads| && Next(s, u, a).threads[t] == s.threads[t]
  {
    hide LoopStep;
    if a.Step? && s.threads[u].at.Loop? {
      SameSystem(s, u);
    }
  }

  lemma StepKeepsCalls(s: System, u: nat, a: Action, t: nat)
    requires Enabled(s, u, a) && t < |s.threads|
    ensures var s' := Next(s, u, a);
      && |s'.threads| == |s.threads|
      && Underway(s.threads[t]) + PutsAsked([(u, a)], t)
         == PutsDone(Completed(s, u, a), t) + Underway(s'.threads[t])
  {
    hide Next, Enabled, Underway, PutsDone;
    var one: Schedule := [(u, a)];
    assert one[1..] == [];
    PutsDoneOne(Completed(s, u, a), t);
    if u == t {
      OwnCalls(s, t, a);
      ThreadsStay(s, [(u, a)]);
      assert Reached(Next(s, u, a), []) == Next(s, u, a);
    } else {
      OthersStay(s, u, a, t);
    }
  }

  lemma {:induction false} PutsDoneConcat(a: seq<Record>, b: seq<Record>, t: nat)
    ensures PutsDone(a + b, t) == PutsDone(a, t) + PutsDone(b, t)
  {
    if a == [] {
      assert a + b == b;
    } else {
      assert (a + b)[1..] == a[1..] + b;
      PutsDoneConcat(a[1..], b, t);
    }
  }

  lemma Regroup(u: seq<Call>, a: seq<Call>, rest: seq<Call>, d: seq<Call>, u': seq<Call>)
    requires u + a == d + u'
    ensures u + (a + rest) == d + (u' + rest)
  {
    assert u + (a + rest) == (u + a) + rest;
  }

  /** No put is lost, doubled or changed, and each thread's stay in order. */
  lemma {:induction false} RunKeepsCalls(s: System, schedule: Schedule, t: nat)
    requires Runs(s, schedule) && t < |s.threads|
    ensures var s' := Reached(s, schedule);
      && |s'.threads| == |s.threads|
      && Underway(s.threads[t]) + PutsAsked(schedule, t) == PutsDone(Ledger(s, schedule), t) + Underway(s'.threads[t])
    decreases |schedule|
  {
    hide Next, Completed, Enabled, Underway;
    if schedule != [] {
      var (u, a) := schedule[0];
      StepKeepsCalls(s, u, a, t);
      RunKeepsCalls(Next(s, u, a), schedule[1..], t);
      PutsDoneConcat(Completed(s, u, a), Ledger(Next(s, u, a), schedule[1..]), t);
      var one: Schedule := [(u, a)];
      assert one[1..] == [] && PutsAsked(schedule, t) == PutsAsked(one, t) + PutsAsked(schedule[1..], t);
      Regroup(Underway(s.threads[t]), PutsAsked(one, t), PutsAsked(schedule[1..], t),
              PutsDone(Completed(s, u, a), t), Underway(Next(s, u, a).threads[t]));
    }
  }

  lemma InitialLedger(capacity: nat, threads: nat)
    requires capacity >= 1
    ensures LedgerInvariant(Initial(capacity, threads))
    ensures Settled(Initial(capacity, threads), false) == [] && Settled(Initial(capacity, threads), true) == []
  {
    InitialInvariant(capacity, threads);
  }

  /** The calls account for the bytes of a state that a schedule leads to. */
  ghost predicate Accounted(s: System, ledger: seq<Record>, schedule: Schedule) {
    && StoreValid(s.store)
    && s.store.written == Moved(ledger, false) + InHand(s, false)
    && DeliveredBytes(s.store) == Moved(ledger, true) + InHand(s, true)
    && (forall r :: r in ledger ==> Kept(r, s.store.capacity))
    && AllHonest(s)
    && (forall t: nat :: t < |s.threads| ==>
          PutsAsked(schedule, t) == PutsDone(ledger, t) + Underway(s.threads[t]))
  }

  lemma BytesAccounted(capacity: nat, threads: nat, schedule: Schedule)
    requires capacity >= 1 && Runs(Initial(capacity, threads), schedule)
    ensures var start := Initial(capacity, threads);
      var s, ledger := Reached(start, schedule), Ledger(start, schedule);
      && StoreValid(s.store) && s.store.capacity == capacity && AllHonest(s)
      && s.store.written == Moved(ledger, false) + InHand(s, false)
      && DeliveredBytes(s.store) == Moved(ledger, true) + InHand(s, true)
      && forall r :: r in ledger ==> Kept(r, capacity)
  {
    hide Invariant, AllHonest, StoreValid, DeliveredBytes, Kept, InHand, Moved, Reached, Ledger, Runs;
    InitialLedger(capacity, threads);
    RunKeepsLedger(Initial(capacity, threads), schedule);
    StoreOf(Reached(Initial(capacity, threads), schedule));
  }

  lemma CallsAccounted(capacity: nat, threads: nat, schedule: Schedule, t: nat)
    requires Runs(Initial(capacity, threads), schedule) && t < threads
    ensures var start := Initial(capacity, threads);
      var s, ledger := Reached(start, schedule), Ledger(start, schedule);
      |s.threads| == threads && PutsAsked(schedule, t) == PutsDone(ledger, t) + Underway(s.threads[t])
  {
    hide Reached, Ledger, Runs, PutsAsked, PutsDone;
    RunKeepsCalls(Initial(capacity, threads), schedule, t);
    assert Underway(Initial(capacity, threads).threads[t]) == [];
  }

  /**
   In every state of every run the bytes written are those of the puts, each with
   the front of its data and clobbering puts with all of it, in the order in which
   they held the mutex, and then what a put holding it has done; the bytes
   delivered are those of the gets. A put stops short only at a full queue, a get
   only at an empty one. Each thread's puts are those it was asked for, in order.
   */
  lemma WrittenIsAsked(capacity: nat, threads: nat, schedule: Schedule)
    requires capacity >= 1 && Runs(Initial(capacity, threads), schedule)
    ensures var s := Reached(Initial(capacity, threads), schedule);
      s.store.capacity == capacity && |s.threads| == threads
      && Accounted(s, Ledger(Initial(capacity, threads), schedule), schedule)
  {
    hide AllHonest, StoreValid, DeliveredBytes, Kept, PutsAsked, PutsDone, InHand, Moved, Underway;
    hide Reached, Ledger, Runs;
    var start := Initial(capacity, threads);
    BytesAccounted(capacity, threads, schedule);
    ThreadsStay(start, schedule);
    forall t: nat | t < threads
      ensures PutsAsked(schedule, t)
        == PutsDone(Ledger(start, schedule), t) + Underway(Reached(start, schedule).threads[t])
    {
      CallsAccounted(capacity, threads, schedule, t);
    }
  }

  lemma {:induction false} ThreadsStay(s: System, schedule: Schedule)
    requires Runs(s, schedule)
    ensures |Reached(s, schedule).threads| == |s.threads|
    decreases |schedule|
  {
    if schedule != [] {
      ThreadsStay(Next(s, schedule[0].0, schedule[0].1), schedule[1..]);
    }
  }
}

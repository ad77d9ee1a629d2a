/**
 The thread that moves log bytes from the ring buffer to the USB driver. Its
 states are the labels of its loop and the two waiting gets; the driver's answers
 are arbitrary inputs, and the bytes it receives come from the log.
 */
module UsbSender {
  import opened LogProtocol
  import opened LogLedger

  const BUFFER_SIZE := 0x400

  /** `First` and `Refill` are the two waiting gets, without and with a timeout. */
  datatype Label = Top | First | Connect | Send | Refill | Exited

  /**
   `pending` is what the buffer holds; `taken` and `sent` are all bytes got from
   the ring and accepted by the driver.
   */
  datatype Sender = Sender(at: Label, pending: seq<char>, taken: seq<char>, sent: seq<char>)

  /** What the outside world answers at a label. */
  datatype Input =
    | Running(running: bool)
    | Received(bytes: seq<char>)
    | Status(code: int)
    | SendResult(result: int)

  predicate Fits(s: Sender, i: Input) {
    match i
    case Running(_) => s.at.Top?
    case Received(bytes) => (s.at.First? || s.at.Refill?) && |bytes| <= BUFFER_SIZE
    case Status(_) => s.at.Connect?
    case SendResult(_) => s.at.Send?
  }

  function Next(s: Sender, i: Input): Sender
    requires Fits(s, i)
  {
    match i
    case Running(running) => s.(at := if running then First else Exited)
    case Received(bytes) =>
      Sender(if s.at.First? then Connect else if bytes != [] then Send else Top, bytes, s.taken + bytes, s.sent)
    case Status(code) => if code == 0 then s else s.(at := Send)
    case SendResult(result) =>
      if s.pending == [] then s.(at := Top)
      else if result < 0 then s.(at := Connect)
      else s.(at := Refill, sent := s.sent + s.pending, pending := [])
  }

  function Started(): Sender {
    Sender(Top, [], [], [])
  }

  predicate Runs(s: Sender, inputs: seq<Input>)
    decreases |inputs|
  {
    inputs == [] || (Fits(s, inputs[0]) && Runs(Next(s, inputs[0]), inputs[1..]))
  }

  function Reached(s: Sender, inputs: seq<Input>): Sender
    requires Runs(s, inputs)
    decreases |inputs|
  {
    if inputs == [] then s else Reached(Next(s, inputs[0]), inputs[1..])
  }

  predicate Conserves(s: Sender) {
    && s.sent + s.pending == s.taken
    && |s.pending| <= BUFFER_SIZE
    && (s.at.Connect? || s.at.Send? || s.pending == [])
  }

  lemma StepConserves(s: Sender, i: Input)
    requires Conserves(s) && Fits(s, i)
    ensures Conserves(Next(s, i))
  {
    if i.Received? {
      assert s.sent + s.pending == s.sent;
    }
  }

  /**
   Wherever the loop is and whatever the driver did, the bytes sent followed by
   the pending ones are the bytes taken from the ring; nothing is pending when
   the loop ends.
   */
  lemma {:induction false} SenderConserves(s: Sender, inputs: seq<Input>)
    requires Conserves(s) && Runs(s, inputs)
    ensures Conserves(Reached(s, inputs))
    decreases |inputs|
  {
    if inputs != [] {
      StepConserves(s, inputs[0]);
      SenderConserves(Next(s, inputs[0]), inputs[1..]);
    }
  }

  // ----- progress of the loop

  predicate Waits(s: Sender) {
    s.at.First? || s.at.Refill?
  }

  /** The loop is to go on, the driver is there, and it takes what it is given. */
  predicate Helpful(i: Input) {
    match i
    case Running(running) => running
    case Received(_) => true
    case Status(code) => code != 0
    case SendResult(result) => result >= 0
  }

  predicate AllHelpful(inputs: seq<Input>) {
    forall i :: 0 <= i < |inputs| ==> Helpful(inputs[i])
  }

  /** After at most `k` of the inputs the sender waits for bytes, and all that it took is sent. */
  predicate SettlesWithin(s: Sender, inputs: seq<Input>, k: nat)
    requires Runs(s, inputs)
    decreases k
  {
    || (Waits(s) && s.sent == s.taken)
    || (k > 0 && inputs != [] && SettlesWithin(Next(s, inputs[0]), inputs[1..], k - 1))
  }

  /** How many steps it may take. */
  function Distance(s: Sender): nat {
    var idle := if s.pending == [] then 1 else 0;
    match s.at
    case Top => 1
    case First => 4
    case Connect => 2 + idle
    case Send => 1 + idle
    case Refill => 3
    case Exited => 0
  }

  lemma HelpfulStep(s: Sender, i: Input)
    requires Conserves(s) && !s.at.Exited? && Fits(s, i) && Helpful(i)
    ensures var s' := Next(s, i);
      Conserves(s') && !s'.at.Exited? && ((Waits(s') && s'.sent == s'.taken) || Distance(s') < Distance(s))
  {
    StepConserves(s, i);
  }

  lemma {:induction false} SettlesSoon(s: Sender, inputs: seq<Input>, k: nat)
    requires Conserves(s) && !s.at.Exited? && Runs(s, inputs) && AllHelpful(inputs) && Distance(s) <= k <= |inputs|
    ensures k > 0 && SettlesWithin(Next(s, inputs[0]), inputs[1..], k - 1)
    decreases k
  {
    hide Next, Fits, Conserves, Distance;
    DistanceBounds(s);
    assert Helpful(inputs[0]);
    HelpfulStep(s, inputs[0]);
    var s' := Next(s, inputs[0]);
    if !(Waits(s') && s'.sent == s'.taken) {
      DistanceBounds(s');
      SettlesSoon(s', inputs[1..], k - 1);
    }
  }

  lemma DistanceBounds(s: Sender)
    requires !s.at.Exited?
    ensures 1 <= Distance(s) <= 4
  {
  }

  /**
   While the loop is to go on and the driver helps, it takes at most four steps
   until all that was taken is sent and the sender waits for more.
   */
  lemma SoonWaits(s: Sender, inputs: seq<Input>)
    requires Conserves(s) && !s.at.Exited? && Runs(s, inputs) && AllHelpful(inputs) && |inputs| >= 4
    ensures SettlesWithin(Next(s, inputs[0]), inputs[1..], 3)
  {
    DistanceBounds(s);
    SettlesSoon(s, inputs, 4);
  }

  /** The loop ends exactly when it is told to at its top, and only then. */
  lemma {:induction false} ExitsExactly(s: Sender, inputs: seq<Input>)
    requires !s.at.Exited? && Runs(s, inputs)
    ensures Reached(s, inputs).at.Exited? <==> inputs != [] && inputs[|inputs| - 1] == Running(false)
    ensures forall i :: 0 <= i < |inputs| - 1 ==> inputs[i] != Running(false)
    decreases |inputs|
  {
    if inputs != [] {
      var s', rest := Next(s, inputs[0]), inputs[1..];
      if s'.at.Exited? {
        assert rest == [];
      } else {
        ExitsExactly(s', rest);
        assert forall i :: 1 <= i < |inputs| ==> inputs[i] == rest[i - 1];
      }
    }
  }

  predicate Refuses(i: Input) {
    (i.Status? && i.code == 0) || (i.SendResult? && i.result < 0)
  }

  /** As long as the driver refuses, the bytes stay pending and the sender keeps asking for the driver's status. */
  lemma {:induction false} RefusedStays(s: Sender, inputs: seq<Input>)
    requires s.pending != [] && inputs != [] && Runs(s, inputs)
    requires forall i :: 0 <= i < |inputs| ==> Refuses(inputs[i])
    ensures Reached(s, inputs) == s.(at := Connect)
    decreases |inputs|
  {
    assert Refuses(inputs[0]);
    if |inputs| > 1 {
      RefusedStays(Next(s, inputs[0]), inputs[1..]);
    } else {
      assert inputs[1..] == [];
    }
  }

  /** Bytes that occur in `s` in this order, possibly with others between them. */
  predicate Subsequence(r: seq<char>, s: seq<char>)
    decreases |s|
  {
    if s == [] then r == []
    else
      || Subsequence(r, s[..|s| - 1])
      || (r != [] && r[|r| - 1] == s[|s| - 1] && Subsequence(r[..|r| - 1], s[..|s| - 1]))
  }

  lemma {:induction false} FateIsSubsequence(written: seq<char>, fates: seq<Fate>, f: Fate)
    requires |fates| <= |written|
    ensures Subsequence(WithFate(written, fates, f), written[..|fates|])
    decreases |fates|
  {
    if fates != [] {
      var n := |fates| - 1;
      var s, r := written[..n + 1], WithFate(written, fates, f);
      FateIsSubsequence(written, fates[..n], f);
      assert s[..|s| - 1] == written[..n];
      if fates[n] == f {
        assert r == WithFate(written, fates[..n], f) + [written[n]];
        assert r[|r| - 1] == s[|s| - 1] && r[..|r| - 1] == WithFate(written, fates[..n], f);
        assert Subsequence(r[..|r| - 1], s[..|s| - 1]);
        assert Subsequence(r, s);
      } else {
        assert r == WithFate(written, fates[..n], f);
        assert Subsequence(r, s);
      }
    }
  }

  // ----- the sender as the log's consumer

  /** The log and its sender, which is thread `c` of the log's threads. */
  datatype Joint = Joint(log: System, sender: Sender)

  /** A step of another thread, of the sender's own code, of its call of the ring, or of the ring for it. */
  datatype Event = Other(t: nat, a: Action) | Own(i: Input) | Calls | Inside(a: Action) | Returns

  function CallOf(s: Sender): Call {
    GetWait(BUFFER_SIZE, s.at.Refill?)
  }

  predicate Returning(th: Thread) {
    th.Busy? && th.at.Return?
  }

  predicate Happens(j: Joint, c: nat, e: Event) {
    c < |j.log.threads| &&
    match e
    case Other(t, a) => t != c && Enabled(j.log, t, a) && (a.Begin? ==> !IsGet(a.call))
    case Own(i) => !i.Received? && Fits(j.sender, i)
    case Calls => Waits(j.sender) && j.log.threads[c].Idle?
    case Inside(a) => !a.Begin? && Enabled(j.log, c, a) && !Returning(j.log.threads[c])
    case Returns => Returning(j.log.threads[c]) && Fits(j.sender, Received(j.log.threads[c].done))
  }

  function After(j: Joint, c: nat, e: Event): Joint
    requires Happens(j, c, e)
  {
    match e
    case Other(t, a) => j.(log := LogProtocol.Next(j.log, t, a))
    case Own(i) => j.(sender := Next(j.sender, i))
    case Calls => j.(log := LogProtocol.Next(j.log, c, Begin(CallOf(j.sender))))
    case Inside(a) => j.(log := LogProtocol.Next(j.log, c, a))
    case Returns => Joint(LogProtocol.Next(j.log, c, Step), Next(j.sender, Received(j.log.threads[c].done)))
  }

  predicate Unfolds(j: Joint, c: nat, events: seq<Event>)
    decreases |events|
  {
    events == [] || (Happens(j, c, events[0]) && Unfolds(After(j, c, events[0]), c, events[1..]))
  }

  function Outcome(j: Joint, c: nat, events: seq<Event>): Joint
    requires Unfolds(j, c, events)
    decreases |events|
  {
    if events == [] then j else Outcome(After(j, c, events[0]), c, events[1..])
  }

  /** The thread of the sender is in the get that the sender is waiting for, or in none. */
  predicate CallMatches(s: Sender, th: Thread) {
    th.Busy? ==> Waits(s) && th.call == CallOf(s) && |th.done| <= BUFFER_SIZE
  }

  predicate JointInvariant(j: Joint, c: nat) {
    && ConsumerInvariant(j.log, c) && Conserves(j.sender) && CallMatches(j.sender, j.log.threads[c])
    && j.sender.taken == j.log.returned
    && (j.sender.at.Connect? || j.sender.at.Send? ==> j.sender.pending != [])
  }

  /** What a step of another thread leaves to the sender. */
  lemma OtherLeaves(s: System, c: nat, t: nat, a: Action)
    requires ConsumerInvariant(s, c) && Enabled(s, t, a) && t != c && (a.Begin? ==> !IsGet(a.call))
    ensures ConsumerInvariant(LogProtocol.Next(s, t, a), c)
    ensures LogProtocol.Next(s, t, a).threads[c] == s.threads[c] && LogProtocol.Next(s, t, a).returned == s.returned
  {
    hide LogProtocol.Next, Invariant, WaitPays, DeliveredBytes, OnlyConsumer, Enabled;
    OtherStep(s, c, t, a);
    StoreOf(s);
    OtherEffect(s, c, t, a);
  }

  /** A step of its own inside the ring. */
  lemma InsideStep(s: System, c: nat, a: Action)
    requires c < |s.threads| && Enabled(s, c, a) && !a.Begin? && !Returning(s.threads[c])
    requires s.threads[c].call.GetWait? && |s.threads[c].done| <= BUFFER_SIZE && s.threads[c].call.size == BUFFER_SIZE
    ensures var s' := LogProtocol.Next(s, c, a);
      && c < |s'.threads| && s'.threads[c].Busy? && s'.threads[c].call == s.threads[c].call
      && |s'.threads[c].done| <= BUFFER_SIZE && s'.returned == s.returned
  {
  }

  lemma EventKeepsInvariant(j: Joint, c: nat, e: Event)
    requires JointInvariant(j, c) && Happens(j, c, e)
    ensures JointInvariant(After(j, c, e), c)
  {
    hide ConsumerInvariant, LogProtocol.Next, Enabled;
    Consuming(j.log, c);
    match e
    case Other(t, a) => OtherLeaves(j.log, c, t, a);
    case Own(i) => StepConserves(j.sender, i);
    case Calls =>
      BeginsCall(j.log, c, CallOf(j.sender));
      ConsumerStep(j.log, c, Begin(CallOf(j.sender)));
    case Inside(a) =>
      InsideCall(j.log, c, a);
      InsideStep(j.log, c, a);
      ConsumerStep(j.log, c, a);
    case Returns =>
      ReturnsBytes(j.log, c);
      ConsumerStep(j.log, c, Step);
      StepConserves(j.sender, Received(j.log.threads[c].done));
  }

  lemma Consuming(s: System, c: nat)
    requires ConsumerInvariant(s, c)
    ensures c < |s.threads| && WaitPays(s, s.threads[c])
  {
  }

  lemma BeginsCall(s: System, c: nat, call: Call)
    requires c < |s.threads| && s.threads[c].Idle? && call.GetWait?
    ensures Enabled(s, c, Begin(call))
    ensures var s' := LogProtocol.Next(s, c, Begin(call));
      c < |s'.threads| && s'.threads[c] == Busy(call, Wait, []) && s'.returned == s.returned
  {
  }

  lemma InsideCall(s: System, c: nat, a: Action)
    requires Enabled(s, c, a) && !a.Begin?
    ensures s.threads[c].Busy?
  {
  }

  lemma ReturnsBytes(s: System, c: nat)
    requires c < |s.threads| && Returning(s.threads[c]) && s.threads[c].call.GetWait?
    ensures Enabled(s, c, Step)
    ensures var s' := LogProtocol.Next(s, c, Step);
      c < |s'.threads| && s'.threads[c].Idle? && s'.returned == s.returned + s.threads[c].done
  {
  }

  lemma {:induction false} RunKeepsJoint(j: Joint, c: nat, events: seq<Event>)
    requires JointInvariant(j, c) && Unfolds(j, c, events)
    ensures JointInvariant(Outcome(j, c, events), c)
    decreases |events|
  {
    hide JointInvariant, Happens, After;
    if events != [] {
      EventKeepsInvariant(j, c, events[0]);
      RunKeepsJoint(After(j, c, events[0]), c, events[1..]);
    }
  }

  function Beginning(capacity: nat, threads: nat): Joint {
    Joint(Initial(capacity, threads), Started())
  }

  lemma BeginningInvariant(capacity: nat, threads: nat, c: nat)
    requires capacity >= 1 && c < threads
    ensures JointInvariant(Beginning(capacity, threads), c)
  {
    InitialInvariant(capacity, threads);
  }

  /** The steps of the log's threads among the events. */
  function ScheduleOf(j: Joint, c: nat, events: seq<Event>): Schedule
    requires Unfolds(j, c, events)
    decreases |events|
  {
    if events == [] then []
    else LogSteps(j, c, events[0]) + ScheduleOf(After(j, c, events[0]), c, events[1..])
  }

  function LogSteps(j: Joint, c: nat, e: Event): Schedule {
    match e
    case Other(t, a) => [(t, a)]
    case Own(_) => []
    case Calls => [(c, Begin(CallOf(j.sender)))]
    case Inside(a) => [(c, a)]
    case Returns => [(c, Step)]
  }

  lemma LogStepsRun(j: Joint, c: nat, e: Event, rest: Schedule)
    requires Happens(j, c, e) && LogProtocol.Runs(After(j, c, e).log, rest)
    ensures LogProtocol.Runs(j.log, LogSteps(j, c, e) + rest)
    ensures LogProtocol.Reached(j.log, LogSteps(j, c, e) + rest) == LogProtocol.Reached(After(j, c, e).log, rest)
  {
    hide LogProtocol.Next, Enabled;
    if e.Own? {
      assert LogSteps(j, c, e) + rest == rest;
    } else {
      var steps := LogSteps(j, c, e) + rest;
      assert steps[0] == LogSteps(j, c, e)[0] && steps[1..] == rest;
      if e.Calls? {
        EnabledCall(j.log, c, CallOf(j.sender));
      } else if e.Returns? {
        EnabledReturn(j.log, c);
      }
    }
  }

  lemma EnabledCall(s: System, c: nat, call: Call)
    requires c < |s.threads| && s.threads[c].Idle?
    ensures Enabled(s, c, Begin(call))
  {
  }

  lemma EnabledReturn(s: System, c: nat)
    requires c < |s.threads| && Returning(s.threads[c])
    ensures Enabled(s, c, Step)
  {
  }

  /** The log runs on its schedule, whatever else happens. */
  lemma {:induction false} LogRuns(j: Joint, c: nat, events: seq<Event>)
    requires Unfolds(j, c, events)
    ensures LogProtocol.Runs(j.log, ScheduleOf(j, c, events))
    ensures LogProtocol.Reached(j.log, ScheduleOf(j, c, events)) == Outcome(j, c, events).log
    decreases |events|
  {
    hide Happens, After, LogSteps;
    if events != [] {
      LogRuns(After(j, c, events[0]), c, events[1..]);
      LogStepsRun(j, c, events[0], ScheduleOf(After(j, c, events[0]), c, events[1..]));
    }
  }

  /**
   From the callers of printf to the driver, over every interleaving of the
   producers, the sender and its driver: the bytes sent, the pending ones and
   those on their way are what the ring delivered, and that is the bytes written,
   in order, less the dropped ones. The bytes written are the data of the calls,
   as the calls account for them. Nothing is pending when the loop ends, and
   the sender never gets as far as the driver with an empty buffer.
   */
  lemma EndToEnd(capacity: nat, threads: nat, c: nat, events: seq<Event>)
    requires capacity >= 1 && c < threads && Unfolds(Beginning(capacity, threads), c, events)
    ensures var j := Outcome(Beginning(capacity, threads), c, events);
      var s, u := j.log, j.sender;
      && c < |s.threads| && |s.store.fates| <= |s.store.written|
      && (var delivered := WithFate(s.store.written, s.store.fates, Delivered);
          && u.sent + u.pending + InProgress(s.threads[c]) == delivered
          && Subsequence(delivered, s.store.written[..|s.store.fates|])
          && s.store.written[|s.store.fates|..] == s.store.queue)
      && (u.at.Exited? ==> u.pending == [])
      && (u.at.Connect? || u.at.Send? ==> u.pending != [])
    ensures var j := Outcome(Beginning(capacity, threads), c, events);
      var schedule := ScheduleOf(Beginning(capacity, threads), c, events);
      && j.log.store.capacity == capacity && LogProtocol.Runs(Initial(capacity, threads), schedule)
      && Accounted(j.log, Ledger(Initial(capacity, threads), schedule), schedule)
  {
    hide Accounted, JointInvariant, Ledger;
    var start := Beginning(capacity, threads);
    BeginningInvariant(capacity, threads, c);
    RunKeepsJoint(start, c, events);
    JointMeans(Outcome(start, c, events), c);
    LogRuns(start, c, events);
    WrittenIsAsked(capacity, threads, ScheduleOf(start, c, events));
  }

  lemma JointMeans(j: Joint, c: nat)
    requires JointInvariant(j, c)
    ensures var s, u := j.log, j.sender;
      && c < |s.threads| && |s.store.fates| <= |s.store.written|
      && (var delivered := WithFate(s.store.written, s.store.fates, Delivered);
          && u.sent + u.pending + InProgress(s.threads[c]) == delivered
          && Subsequence(delivered, s.store.written[..|s.store.fates|])
          && s.store.written[|s.store.fates|..] == s.store.queue)
      && (u.at.Exited? ==> u.pending == [])
      && (u.at.Connect? || u.at.Send? ==> u.pending != [])
  {
    StoreOf(j.log);
    FateIsSubsequence(j.log.store.written, j.log.store.fates, Delivered);
  }

  /** The sender can go on by itself. */
  predicate GoesOn(j: Joint, c: nat) {
    || Happens(j, c, Calls) || Happens(j, c, Inside(Step)) || Happens(j, c, Returns)
    || Happens(j, c, Own(Running(true))) || Happens(j, c, Own(Status(0))) || Happens(j, c, Own(SendResult(0)))
  }

  /**
   No deadlock: in every state that the log and its sender reach, the sender has
   left its loop, or can go on, or another thread holds the mutex and can go on, or
   the sender waits for bytes and there are none.
   */
  lemma NeverStuck(capacity: nat, threads: nat, c: nat, events: seq<Event>)
    requires capacity >= 1 && c < threads && Unfolds(Beginning(capacity, threads), c, events)
    ensures var j := Outcome(Beginning(capacity, threads), c, events);
      || j.sender.at.Exited? || GoesOn(j, c)
      || (j.log.owner.Some? && Happens(j, c, Other(j.log.owner.value, Step)))
      || (Waits(j.sender) && j.log.owner.None? && j.log.store.queue == [])
  {
    hide Outcome, Unfolds;
    BeginningInvariant(capacity, threads, c);
    RunKeepsJoint(Beginning(capacity, threads), c, events);
    StateNotStuck(Outcome(Beginning(capacity, threads), c, events), c);
  }

  lemma StateNotStuck(j: Joint, c: nat)
    requires JointInvariant(j, c)
    ensures || j.sender.at.Exited? || GoesOn(j, c)
      || (j.log.owner.Some? && Happens(j, c, Other(j.log.owner.value, Step)))
      || (Waits(j.sender) && j.log.owner.None? && j.log.store.queue == [])
  {
    hide StoreValid, DeliveredBytes, OnlyConsumer, WaitPays;
    var s := j.log;
    if s.threads[c].Idle? {
      assert !j.sender.at.Exited? ==> GoesOn(j, c);
    } else if s.owner.Some? && s.owner.value != c {
      assert InCritical(s.threads[s.owner.value]);
    } else if !Returning(s.threads[c]) && !s.threads[c].at.Wait? {
      assert Happens(j, c, Inside(Step));
    }
  }

  /** The ring's return never finds the sender elsewhere, so a finished get is always taken. */
  lemma ReturnsAreTaken(capacity: nat, threads: nat, c: nat, events: seq<Event>)
    requires capacity >= 1 && c < threads && Unfolds(Beginning(capacity, threads), c, events)
    ensures var j := Outcome(Beginning(capacity, threads), c, events);
      c < |j.log.threads| && (Returning(j.log.threads[c]) ==> Happens(j, c, Returns))
  {
    BeginningInvariant(capacity, threads, c);
    RunKeepsJoint(Beginning(capacity, threads), c, events);
  }
}

/**
 * The benchmark's window: a sending thread that waits for room, pushes a request and only
 * then counts it, and the main thread, which pops responses and only then uncounts them.
 * The echo path between them is a number of responses that have come back.
 */
module FlowControl {
  const MAX_IN_FLIGHT := 500

  datatype Sender =
    | Head        // at the loop condition
    | Testing     // about to lock packetMutex and test the wait condition
    | AboutToPark // holds packetMutex, having found the window full
    | Parked
    | Recheck     // past the wait, about to test the connection again
    | Pushing
    | Counting    // pushed, not counted yet
    | Done

  datatype Receiver =
    | Polling
    | Popping     // saw a response
    | Uncounting  // popped, not uncounted yet
    | Notifying
    | Closing     // disconnected, about to notify_all
    | Joining
    | Cleanup

  datatype State = State(
    connected: bool, inFlight: int, sender: Sender, receiver: Receiver,
    responses: nat, pushed: nat, popped: nat,
    cleaned: nat // pops of the cleanup loop, which uncounts nothing
  )

  datatype Step =
    | TestConnected | TestWindow | Park | SpuriousWakeup | TestAgain | Push | Count
    | SeeResponse | Pop | Uncount | Notify | TimeUp | NotifyAll | Join | CleanupPop
    | Echo

  ghost predicate Init(s: State) {
    s == State(true, 0, Head, Polling, 0, 0, 0, 0)
  }

  /** packetMutex is held from the test of the wait condition until parking. */
  predicate MutexFree(s: State) {
    s.sender != AboutToPark
  }

  ghost predicate Next(s: State, t: State, step: Step) {
    match step
    case TestConnected => s.sender.Head? && t == s.(sender := if s.connected then Testing else Done)
    case TestWindow =>
      && s.sender.Testing?
      && t == s.(sender := if !s.connected || s.inFlight < MAX_IN_FLIGHT then Recheck else AboutToPark)
    case Park => s.sender.AboutToPark? && t == s.(sender := Parked)
    case SpuriousWakeup => s.sender.Parked? && t == s.(sender := Testing)
    case TestAgain => s.sender.Recheck? && t == s.(sender := if s.connected then Pushing else Done)
    case Push => s.sender.Pushing? && t == s.(sender := Counting, pushed := s.pushed + 1)
    case Count => s.sender.Counting? && t == s.(sender := Head, inFlight := s.inFlight + 1)
    case SeeResponse => s.receiver.Polling? && s.responses > 0 && t == s.(receiver := Popping)
    case Pop =>
      && s.receiver.Popping? && s.responses > 0
      && t == s.(receiver := Uncounting, responses := s.responses - 1, popped := s.popped + 1)
    case Uncount =>
      s.receiver.Uncounting? && MutexFree(s) && t == s.(receiver := Notifying, inFlight := s.inFlight - 1)
    case Notify =>
      s.receiver.Notifying? && t == s.(receiver := Polling, sender := Woken(s.sender))
    case TimeUp => s.receiver.Polling? && t == s.(receiver := Closing, connected := false)
    case NotifyAll => s.receiver.Closing? && t == s.(receiver := Joining, sender := Woken(s.sender))
    case Join => s.receiver.Joining? && s.sender.Done? && t == s.(receiver := Cleanup)
    case CleanupPop =>
      && s.receiver.Cleanup? && s.responses > 0
      && t == s.(responses := s.responses - 1, popped := s.popped + 1, cleaned := s.cleaned + 1)
    case Echo =>
      s.popped + s.responses < s.pushed && t == s.(responses := s.responses + 1)
  }

  function Woken(sender: Sender): Sender {
    if sender.Parked? then Testing else sender
  }

  ghost predicate Run(states: seq<State>, steps: seq<Step>) {
    && |states| == |steps| + 1
    && Init(states[0])
    && forall i, j :: 0 <= i < |steps| && j == i + 1 ==> Next(states[i], states[j], steps[i])
  }

  ghost predicate Inv(s: State) {
    && s.inFlight == s.pushed - s.popped + s.cleaned
         - (if s.sender.Counting? then 1 else 0) + (if s.receiver.Uncounting? then 1 else 0)
    && s.popped + s.responses <= s.pushed
    && s.inFlight <= MAX_IN_FLIGHT
    && (s.sender.Recheck? && s.connected ==> s.inFlight < MAX_IN_FLIGHT)
    && (s.sender.Pushing? || s.sender.Counting? ==> s.inFlight < MAX_IN_FLIGHT)
    && (s.sender.AboutToPark? ==> s.inFlight == MAX_IN_FLIGHT)
    && (s.sender.Parked? ==> s.inFlight == MAX_IN_FLIGHT || s.receiver.Notifying?)
    && (s.cleaned > 0 ==> s.receiver.Cleanup?)
    && (s.receiver.Cleanup? ==> s.sender.Done?)
    && (s.receiver.Popping? ==> s.responses > 0)
    && (s.connected <==> !(s.receiver.Closing? || s.receiver.Joining? || s.receiver.Cleanup?))
  }

  lemma StepKeeps(s: State, t: State, step: Step)
    requires Inv(s) && Next(s, t, step)
    ensures Inv(t)
  {
  }

  lemma {:induction false} RunKeeps(states: seq<State>, steps: seq<Step>, i: nat)
    requires Run(states, steps) && i < |states|
    ensures Inv(states[i])
  {
    if i > 0 {
      RunKeeps(states, steps, i - 1);
      StepKeeps(states[i - 1], states[i], steps[i - 1]);
    }
  }

  lemma StepOf(states: seq<State>, steps: seq<Step>, i: nat)
    requires Run(states, steps) && i < |steps|
    ensures |states| == |steps| + 1
    ensures Inv(states[i]) && Next(states[i], states[i + 1], steps[i]) && Inv(states[i + 1])
  {
    hide Inv, Next;
    RunKeeps(states, steps, i);
    RunKeeps(states, steps, i + 1);
  }

  /** The window holds although its check, the push and the count are separate sections. */
  lemma WindowBound(states: seq<State>, steps: seq<Step>, i: nat)
    requires Run(states, steps) && i < |states|
    ensures 0 <= states[i].pushed - states[i].popped <= 500
    ensures -1 <= states[i].inFlight <= 500
    ensures states[i].receiver.Popping? ==> states[i].responses > 0
  {
    RunKeeps(states, steps, i);
  }

  /** A full window parks the sender; as soon as there is room, its notification is on the way. */
  lemma NoLostWakeupWhileConnected(states: seq<State>, steps: seq<Step>, i: nat)
    requires Run(states, steps) && i < |states|
    requires states[i].sender.Parked? && states[i].inFlight < 500
    ensures states[i].receiver.Notifying?
  {
    RunKeeps(states, steps, i);
  }

  // ---------- the bounds are attained ----------

  lemma Extend(states: seq<State>, steps: seq<Step>, t: State, step: Step)
    requires Run(states, steps) && Next(states[|states| - 1], t, step)
    ensures Run(states + [t], steps + [step])
  {
    var states', steps' := states + [t], steps + [step];
    forall i, j | 0 <= i < |steps'| && j == i + 1 ensures Next(states'[i], states'[j], steps'[i]) {
      if i < |steps| {
        assert Next(states[i], states[j], steps[i]);
      }
    }
  }

  /** -1 is reached when a response is uncounted before its request was counted. */
  lemma LowerBoundAttained() returns (states: seq<State>, steps: seq<Step>)
    ensures Run(states, steps) && states[|states| - 1].inFlight == -1
  {
    var s := State(true, 0, Head, Polling, 0, 0, 0, 0);
    states, steps := [s], [];
    var script := [
      (TestConnected, s.(sender := Testing)),
      (TestWindow, s.(sender := Recheck)),
      (TestAgain, s.(sender := Pushing)),
      (Push, s.(sender := Counting, pushed := 1)),
      (Echo, s.(sender := Counting, pushed := 1, responses := 1)),
      (SeeResponse, s.(sender := Counting, pushed := 1, responses := 1, receiver := Popping)),
      (Pop, s.(sender := Counting, pushed := 1, receiver := Uncounting, popped := 1)),
      (Uncount, s.(sender := Counting, pushed := 1, receiver := Notifying, popped := 1, inFlight := -1))];
    for k := 0 to |script|
      invariant Run(states, steps)
      invariant states[|states| - 1] == if k == 0 then s else script[k - 1].1
    {
      Extend(states, steps, script[k].1, script[k].0);
      states, steps := states + [script[k].1], steps + [script[k].0];
    }
  }

  lemma FillWindow(n: nat) returns (states: seq<State>, steps: seq<Step>)
    requires n <= 500
    ensures Run(states, steps)
    ensures states[|states| - 1] == State(true, n, Head, Polling, 0, n, 0, 0)
  {
    var s := State(true, 0, Head, Polling, 0, 0, 0, 0);
    states, steps := [s], [];
    for k := 0 to n
      invariant Run(states, steps)
      invariant states[|states| - 1] == State(true, k, Head, Polling, 0, k, 0, 0)
    {
      states, steps := PushOne(states, steps, k);
    }
  }

  lemma PushOne(states0: seq<State>, steps0: seq<Step>, k: nat) returns (states: seq<State>, steps: seq<Step>)
    requires k < MAX_IN_FLIGHT && Run(states0, steps0)
    requires states0[|states0| - 1] == State(true, k, Head, Polling, 0, k, 0, 0)
    ensures Run(states, steps)
    ensures states[|states| - 1] == State(true, k + 1, Head, Polling, 0, k + 1, 0, 0)
  {
    var s := states0[|states0| - 1];
    states, steps := states0, steps0;
    var script := [
      (TestConnected, s.(sender := Testing)),
      (TestWindow, s.(sender := Recheck)),
      (TestAgain, s.(sender := Pushing)),
      (Push, s.(sender := Counting, pushed := k + 1)),
      (Count, s.(sender := Head, pushed := k + 1, inFlight := k + 1))];
    for i := 0 to |script|
      invariant Run(states, steps)
      invariant states[|states| - 1] == if i == 0 then s else script[i - 1].1
    {
      Extend(states, steps, script[i].1, script[i].0);
      states, steps := states + [script[i].1], steps + [script[i].0];
    }
  }

  // ---------- serving ----------

  /** One request pushed, echoed, popped and counted down again, the sender running ahead. */
  lemma ServeOne(states0: seq<State>, steps0: seq<Step>, k: nat) returns (states: seq<State>, steps: seq<Step>)
    requires Run(states0, steps0)
    requires states0[|states0| - 1] == State(true, 0, Head, Polling, 0, k, k, 0)
    ensures Run(states, steps)
    ensures states[|states| - 1] == State(true, 0, Head, Polling, 0, k + 1, k + 1, 0)
  {
    var s := states0[|states0| - 1];
    states, steps := states0, steps0;
    var script := [
      (TestConnected, s.(sender := Testing)),
      (TestWindow, s.(sender := Recheck)),
      (TestAgain, s.(sender := Pushing)),
      (Push, s.(sender := Counting, pushed := k + 1)),
      (Count, s.(pushed := k + 1, inFlight := 1)),
      (Echo, s.(pushed := k + 1, inFlight := 1, responses := 1)),
      (SeeResponse, s.(pushed := k + 1, inFlight := 1, responses := 1, receiver := Popping)),
      (Pop, s.(pushed := k + 1, popped := k + 1, inFlight := 1, receiver := Uncounting)),
      (Uncount, s.(pushed := k + 1, popped := k + 1, receiver := Notifying)),
      (Notify, s.(pushed := k + 1, popped := k + 1))];
    for i := 0 to |script|
      invariant Run(states, steps)
      invariant states[|states| - 1] == if i == 0 then s else script[i - 1].1
    {
      Extend(states, steps, script[i].1, script[i].0);
      states, steps := states + [script[i].1], steps + [script[i].0];
    }
  }

  /** Any number of requests can be served, and the benchmark then ends and cleans up. */
  lemma AnyNumberServed(n: nat) returns (states: seq<State>, steps: seq<Step>)
    ensures Run(states, steps)
    ensures states[|states| - 1] == State(false, 0, Done, Cleanup, 0, n, n, 0)
  {
    states, steps := [State(true, 0, Head, Polling, 0, 0, 0, 0)], [];
    for k := 0 to n
      invariant Run(states, steps)
      invariant states[|states| - 1] == State(true, 0, Head, Polling, 0, k, k, 0)
    {
      states, steps := ServeOne(states, steps, k);
    }
    var s := states[|states| - 1];
    var script := [
      (TimeUp, s.(receiver := Closing, connected := false)),
      (NotifyAll, s.(receiver := Joining, connected := false)),
      (TestConnected, s.(receiver := Joining, connected := false, sender := Done)),
      (Join, s.(receiver := Cleanup, connected := false, sender := Done))];
    for i := 0 to |script|
      invariant Run(states, steps)
      invariant states[|states| - 1] == if i == 0 then s else script[i - 1].1
    {
      Extend(states, steps, script[i].1, script[i].0);
      states, steps := states + [script[i].1], steps + [script[i].0];
    }
  }

  /** What is on its way when the time is up is echoed and popped by the cleanup loop. */
  lemma CleanupTakesTheRest(n: nat) returns (states: seq<State>, steps: seq<Step>)
    requires n <= 500
    ensures Run(states, steps)
    ensures states[|states| - 1] == State(false, n, Done, Cleanup, 0, n, n, n)
  {
    states, steps := FillWindow(n);
    var s := states[|states| - 1];
    var t := s.(receiver := Cleanup, connected := false, sender := Done);
    var script := [
      (TimeUp, s.(receiver := Closing, connected := false)),
      (NotifyAll, s.(receiver := Joining, connected := false)),
      (TestConnected, s.(receiver := Joining, connected := false, sender := Done)),
      (Join, t)];
    for i := 0 to |script|
      invariant Run(states, steps)
      invariant states[|states| - 1] == if i == 0 then s else script[i - 1].1
    {
      Extend(states, steps, script[i].1, script[i].0);
      states, steps := states + [script[i].1], steps + [script[i].0];
    }
    for k := 0 to n
      invariant Run(states, steps)
      invariant states[|states| - 1] == t.(popped := k, cleaned := k)
    {
      var echoed, popped := t.(popped := k, cleaned := k, responses := 1), t.(popped := k + 1, cleaned := k + 1);
      Extend(states, steps, echoed, Echo);
      Extend(states + [echoed], steps + [Echo], popped, CleanupPop);
      states, steps := states + [echoed] + [popped], steps + [Echo] + [CleanupPop];
    }
  }

  /** At the full window the sender parks. */
  lemma FullAndParked() returns (states: seq<State>, steps: seq<Step>)
    ensures Run(states, steps)
    ensures states[|states| - 1] == State(true, 500, Parked, Polling, 0, 500, 0, 0)
  {
    states, steps := FillWindow(500);
    var s := states[|states| - 1];
    var script := [
      (TestConnected, s.(sender := Testing)),
      (TestWindow, s.(sender := AboutToPark)),
      (Park, s.(sender := Parked))];
    for i := 0 to |script|
      invariant Run(states, steps)
      invariant states[|states| - 1] == if i == 0 then s else script[i - 1].1
    {
      Extend(states, steps, script[i].1, script[i].0);
      states, steps := states + [script[i].1], steps + [script[i].0];
    }
  }

  /** A sender parked at the full window is woken by the first response popped, and pushes again. */
  lemma ParkedSenderPushesAgain() returns (states: seq<State>, steps: seq<Step>, parked: nat)
    ensures Run(states, steps) && parked < |states|
    ensures states[parked] == State(true, 500, Parked, Polling, 0, 500, 0, 0)
    ensures states[|states| - 1] == State(true, 500, Head, Polling, 0, 501, 1, 0)
  {
    states, steps := FullAndParked();
    parked := |states| - 1;
    var t := states[parked];
    var script := [
      (Echo, t.(responses := 1)),
      (SeeResponse, t.(responses := 1, receiver := Popping)),
      (Pop, t.(popped := 1, receiver := Uncounting)),
      (Uncount, t.(popped := 1, receiver := Notifying, inFlight := 499)),
      (Notify, t.(popped := 1, inFlight := 499, sender := Testing)),
      (TestWindow, t.(popped := 1, inFlight := 499, sender := Recheck)),
      (TestAgain, t.(popped := 1, inFlight := 499, sender := Pushing)),
      (Push, t.(popped := 1, inFlight := 499, pushed := 501, sender := Counting)),
      (Count, t.(popped := 1, pushed := 501, sender := Head))];
    for i := 0 to |script|
      invariant Run(states, steps) && parked < |states| && states[parked] == t
      invariant states[|states| - 1] == if i == 0 then t else script[i - 1].1
    {
      Extend(states, steps, script[i].1, script[i].0);
      states, steps := states + [script[i].1], steps + [script[i].0];
    }
  }

  // ---------- shutting down ----------

  /** disconnect and notify_all take no packetMutex: they can fall between test and park. */
  lemma ShutdownCanHang() returns (states: seq<State>, steps: seq<Step>)
    ensures Run(states, steps)
    ensures states[|states| - 1].sender.Parked? && states[|states| - 1].receiver.Joining?
  {
    states, steps := FillWindow(MAX_IN_FLIGHT);
    var s := states[|states| - 1];
    var script := [
      (TestConnected, s.(sender := Testing)),
      (TestWindow, s.(sender := AboutToPark)),
      (TimeUp, s.(sender := AboutToPark, receiver := Closing, connected := false)),
      (NotifyAll, s.(sender := AboutToPark, receiver := Joining, connected := false)),
      (Park, s.(sender := Parked, receiver := Joining, connected := false))];
    for i := 0 to |script|
      invariant Run(states, steps)
      invariant states[|states| - 1] == if i == 0 then s else script[i - 1].1
    {
      Extend(states, steps, script[i].1, script[i].0);
      states, steps := states + [script[i].1], steps + [script[i].0];
    }
  }

  /** The sender has found the window full: it is about to wait, or waits. */
  predicate Stuck(s: State) {
    s.sender.AboutToPark? || s.sender.Parked?
  }

  /** No thread wakes without being notified between steps number i and j. */
  ghost predicate NoSpuriousWakeup(steps: seq<Step>, i: nat, j: nat)
    requires i <= j <= |steps|
  {
    forall k :: i <= k < j ==> steps[k] != SpuriousWakeup
  }

  lemma NoneBefore(steps: seq<Step>, i: nat, j: nat)
    requires i < j <= |steps| && NoSpuriousWakeup(steps, i, j)
    ensures NoSpuriousWakeup(steps, i, j - 1) && steps[j - 1] != SpuriousWakeup
  {
  }

  /** The main thread has notified all and sits in join, or is past it. */
  predicate Notified(s: State) {
    !s.connected && (s.receiver.Joining? || s.receiver.Cleanup?)
  }

  lemma AfterNotifyAll(s: State, t: State)
    requires Inv(s) && Next(s, t, NotifyAll)
    ensures Notified(t) && (Stuck(t) <==> s.sender.AboutToPark?)
  {
  }

  lemma NotifiedStep(s: State, t: State, step: Step)
    requires Inv(s) && Notified(s) && Next(s, t, step)
    ensures Notified(t) && (step != SpuriousWakeup ==> (Stuck(t) <==> Stuck(s)))
    ensures step == SpuriousWakeup ==> Stuck(s)
  {
  }

  lemma StuckMeansFull(s: State)
    requires Inv(s) && Notified(s) && Stuck(s)
    ensures s.inFlight == 500 && s.receiver.Joining?
  {
  }

  /**
   * The benchmark hangs exactly when its notify_all finds the sender between its test and its
   * wait: then, and only then, the sender is stuck at every later moment, with the window full
   * and the main thread in join, until a spurious wake-up.
   */
  lemma {:induction false} HangsExactlyWhen(states: seq<State>, steps: seq<Step>, i: nat, j: nat)
    requires Run(states, steps) && i < j <= |steps|
    requires steps[i] == NotifyAll && NoSpuriousWakeup(steps, i, j)
    ensures Notified(states[j])
    ensures Stuck(states[j]) <==> states[i].sender.AboutToPark?
    ensures Stuck(states[j]) ==> states[j].inFlight == 500 && states[j].receiver.Joining?
  {
    hide *;
    StepOf(states, steps, j - 1);
    if j == i + 1 {
      AfterNotifyAll(states[i], states[j]);
    } else {
      NoneBefore(steps, i, j);
      HangsExactlyWhen(states, steps, i, j - 1);
      NotifiedStep(states[j - 1], states[j], steps[j - 1]);
    }
    if Stuck(states[j]) {
      StuckMeansFull(states[j]);
    }
  }

  predicate BySender(step: Step) {
    step.TestConnected? || step.TestWindow? || step.TestAgain? || step.Push? || step.Count?
  }

  function SenderSteps(steps: seq<Step>): nat {
    if |steps| == 0 then 0
    else SenderSteps(steps[..|steps| - 1]) + if BySender(steps[|steps| - 1]) then 1 else 0
  }

  /** How many steps a sender that is not stuck needs to finish once disconnected. */
  function StepsLeft(sender: Sender): nat {
    match sender
    case Pushing => 3
    case Counting => 2
    case Testing => 2
    case Head => 1
    case Recheck => 1
    case _ => 0
  }

  lemma AtMostThree(sender: Sender)
    ensures StepsLeft(sender) <= 3
  {
  }

  lemma SenderProgress(s: State, t: State, step: Step)
    requires Notified(s) && !Stuck(s) && Next(s, t, step)
    ensures StepsLeft(t.sender) == StepsLeft(s.sender) - if BySender(step) then 1 else 0
  {
  }

  lemma SenderCanStep(s: State) returns (t: State, step: Step)
    requires Notified(s) && !Stuck(s) && !s.sender.Done?
    ensures BySender(step) && Next(s, t, step)
  {
    match s.sender
    case Pushing => step := Push; t := s.(sender := Counting, pushed := s.pushed + 1);
    case Counting => step := Count; t := s.(sender := Head, inFlight := s.inFlight + 1);
    case Testing => step := TestWindow; t := s.(sender := Recheck);
    case Head => step := TestConnected; t := s.(sender := Done);
    case Recheck => step := TestAgain; t := s.(sender := Done);
  }

  lemma {:induction false} FewStepsLeft(states: seq<State>, steps: seq<Step>, i: nat, j: nat)
    requires Run(states, steps) && i < j <= |steps|
    requires steps[i] == NotifyAll && !states[i].sender.AboutToPark?
    ensures Notified(states[j]) && !Stuck(states[j])
    ensures SenderSteps(steps[i + 1..j]) + StepsLeft(states[j].sender) <= 3
  {
    hide *;
    StepOf(states, steps, j - 1);
    if j == i + 1 {
      AfterNotifyAll(states[i], states[j]);
      NoSenderSteps(steps[i + 1..j]);
      AtMostThree(states[j].sender);
    } else {
      FewStepsLeft(states, steps, i, j - 1);
      NotifiedStep(states[j - 1], states[j], steps[j - 1]);
      SenderProgress(states[j - 1], states[j], steps[j - 1]);
      OneStepMore(steps[i + 1..j - 1], steps[j - 1]);
      assert steps[i + 1..j] == steps[i + 1..j - 1] + [steps[j - 1]];
    }
  }

  lemma NoSenderSteps(steps: seq<Step>)
    requires |steps| == 0
    ensures SenderSteps(steps) == 0
  {
  }

  lemma OneStepMore(steps: seq<Step>, step: Step)
    ensures SenderSteps(steps + [step]) == SenderSteps(steps) + if BySender(step) then 1 else 0
  {
    assert (steps + [step])[..|steps|] == steps;
  }

  /** In every other run the join ends: the sender is done after at most three more steps. */
  lemma EndsOtherwise(states: seq<State>, steps: seq<Step>, i: nat, j: nat)
    requires Run(states, steps) && i < j <= |steps|
    requires steps[i] == NotifyAll && !states[i].sender.AboutToPark?
    ensures SenderSteps(steps[i + 1..j]) <= 3
    ensures SenderSteps(steps[i + 1..j]) == 3 ==> states[j].sender.Done?
    ensures !states[j].sender.Done? ==> exists t, step :: BySender(step) && Next(states[j], t, step)
  {
    FewStepsLeft(states, steps, i, j);
    hide Run, Next, BySender, SenderSteps;
    if !states[j].sender.Done? {
      var t, step := SenderCanStep(states[j]);
    }
  }

  /**
   * When the main thread is joining a parked sender, the window is full and no step of any
   * thread ends the wait, only a spurious wake-up does.
   */
  lemma HangIsFinal(states: seq<State>, steps: seq<Step>, i: nat, t: State, step: Step)
    requires Run(states, steps) && i < |states|
    requires states[i].sender.Parked? && states[i].receiver.Joining?
    requires Next(states[i], t, step)
    ensures states[i].inFlight == 500
    ensures t.sender.Parked? && t.receiver.Joining? <==> step != SpuriousWakeup
  {
    RunKeeps(states, steps, i);
  }

  // ---------- enabled steps ----------

  ghost predicate Enabled(s: State, step: Step) {
    exists t :: Next(s, t, step)
  }

  /** The sender waits for nothing but its condition variable. */
  lemma SenderIsFree(s: State)
    ensures s.sender.Head? ==> Enabled(s, TestConnected)
    ensures s.sender.Testing? ==> Enabled(s, TestWindow)
    ensures s.sender.AboutToPark? ==> Enabled(s, Park)
    ensures s.sender.Parked? ==> Enabled(s, SpuriousWakeup)
    ensures s.sender.Recheck? ==> Enabled(s, TestAgain)
    ensures s.sender.Pushing? ==> Enabled(s, Push)
    ensures s.sender.Counting? ==> Enabled(s, Count)
    ensures s.popped + s.responses < s.pushed ==> Enabled(s, Echo)
  {
    assert s.popped + s.responses < s.pushed ==> Next(s, s.(responses := s.responses + 1), Echo);
    match s.sender
    case Head => assert Next(s, s.(sender := if s.connected then Testing else Done), TestConnected);
    case Testing =>
      assert Next(s, s.(sender := if !s.connected || s.inFlight < 500 then Recheck else AboutToPark), TestWindow);
    case AboutToPark => assert Next(s, s.(sender := Parked), Park);
    case Parked => assert Next(s, s.(sender := Testing), SpuriousWakeup);
    case Recheck => assert Next(s, s.(sender := if s.connected then Pushing else Done), TestAgain);
    case Pushing => assert Next(s, s.(sender := Counting, pushed := s.pushed + 1), Push);
    case Counting => assert Next(s, s.(sender := Head, inFlight := s.inFlight + 1), Count);
    case Done =>
  }

  /** The main thread waits for responses, for the mutex while the sender holds it, and to join. */
  lemma ReceiverIsFree(s: State)
    ensures s.receiver.Polling? ==> Enabled(s, TimeUp) && (s.responses > 0 ==> Enabled(s, SeeResponse))
    ensures s.receiver.Popping? && s.responses > 0 ==> Enabled(s, Pop)
    ensures s.receiver.Uncounting? && !s.sender.AboutToPark? ==> Enabled(s, Uncount)
    ensures s.receiver.Notifying? ==> Enabled(s, Notify)
    ensures s.receiver.Closing? ==> Enabled(s, NotifyAll)
    ensures s.receiver.Joining? && s.sender.Done? ==> Enabled(s, Join)
    ensures s.receiver.Cleanup? && s.responses > 0 ==> Enabled(s, CleanupPop)
  {
    match s.receiver
    case Polling =>
      assert Next(s, s.(receiver := Closing, connected := false), TimeUp);
      assert s.responses > 0 ==> Next(s, s.(receiver := Popping), SeeResponse);
    case Popping =>
      if s.responses > 0 {
        assert Next(s, s.(receiver := Uncounting, responses := s.responses - 1, popped := s.popped + 1), Pop);
      }
    case Uncounting =>
      assert !s.sender.AboutToPark? ==> Next(s, s.(receiver := Notifying, inFlight := s.inFlight - 1), Uncount);
    case Notifying => assert Next(s, s.(receiver := Polling, sender := Woken(s.sender)), Notify);
    case Closing => assert Next(s, s.(receiver := Joining, sender := Woken(s.sender)), NotifyAll);
    case Joining => assert s.sender.Done? ==> Next(s, s.(receiver := Cleanup), Join);
    case Cleanup =>
      if s.responses > 0 {
        assert Next(s, s.(responses := s.responses - 1, popped := s.popped + 1, cleaned := s.cleaned + 1), CleanupPop);
      }
  }
}

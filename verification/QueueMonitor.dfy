/**
 * A queue guarded by a mutex and a condition variable, with any number of threads pushing
 * (enqueue under the lock, then notify_one outside it) and popping (wait until non-empty or
 * disconnected, then take the first). Each step below is one critical section or one call.
 */
module QueueMonitor {
  datatype State<T> = State(
    connected: bool,
    queue: seq<T>,
    notifying: set<nat>, // threads between their enqueue and their notify_one
    awake: set<nat>,     // threads about to test the wait condition under the lock
    parked: set<nat>,    // threads asleep in wait
    pushed: seq<T>,      // history
    popped: seq<T>       // history
  )

  datatype Step<T> =
    | Enqueue(thread: nat, item: T)
    | NotifyOne(thread: nat, woken: nat)
    | StartPop(thread: nat)
    | TestAndPop(thread: nat)
    | TestAndPark(thread: nat)
    | SpuriousWakeup(thread: nat)
    | Disconnect

  ghost predicate Init<T(!new)>(s: State<T>) {
    s == State(true, [], {}, {}, {}, [], [])
  }

  ghost predicate Next<T(!new)>(s: State<T>, t: State<T>, step: Step<T>) {
    match step
    case Enqueue(thread, item) =>
      && thread !in s.notifying
      && t == s.(queue := s.queue + [item], pushed := s.pushed + [item],
                 notifying := s.notifying + {thread})
    case NotifyOne(thread, woken) =>
      && thread in s.notifying
      && (s.parked != {} ==> woken in s.parked)
      && t == if s.parked == {} then s.(notifying := s.notifying - {thread})
              else s.(notifying := s.notifying - {thread},
                      parked := s.parked - {woken}, awake := s.awake + {woken})
    case StartPop(thread) =>
      && thread !in s.awake + s.parked
      && t == s.(awake := s.awake + {thread})
    case TestAndPop(thread) =>
      && thread in s.awake && s.queue != []
      && t == s.(awake := s.awake - {thread}, queue := s.queue[1..], popped := s.popped + [s.queue[0]])
    case TestAndPark(thread) =>
      && thread in s.awake && s.queue == [] && s.connected
      && t == s.(awake := s.awake - {thread}, parked := s.parked + {thread})
    case SpuriousWakeup(thread) =>
      && thread in s.parked
      && t == s.(parked := s.parked - {thread}, awake := s.awake + {thread})
    case Disconnect => t == s.(connected := false)
  }

  ghost predicate Run<T(!new)>(states: seq<State<T>>, steps: seq<Step<T>>) {
    && |states| == |steps| + 1
    && Init(states[0])
    && forall i, j :: 0 <= i < |steps| && j == i + 1 ==> Next(states[i], states[j], steps[i])
  }

  /** While anyone sleeps, every queued item has a wake-up or an awake taker to its name. */
  ghost predicate Inv<T(!new)>(s: State<T>) {
    && s.pushed == s.popped + s.queue
    && Covered(s)
  }

  ghost predicate Covered<T(!new)>(s: State<T>) {
    && s.awake !! s.parked
    && (s.parked != {} ==> |s.queue| <= |s.notifying| + |s.awake|)
  }

  lemma AddOne(threads: set<nat>, thread: nat)
    ensures thread !in threads ==> |threads + {thread}| == |threads| + 1
    ensures thread in threads ==> |threads - {thread}| == |threads| - 1
  {
  }

  lemma StepKeepsCovered<T(!new)>(s: State<T>, t: State<T>, step: Step<T>)
    requires Covered(s) && Next(s, t, step)
    ensures Covered(t)
  {
    match step
    case Enqueue(thread, _) => AddOne(s.notifying, thread);
    case NotifyOne(thread, woken) => AddOne(s.notifying, thread); AddOne(s.awake, woken);
    case StartPop(thread) => AddOne(s.awake, thread);
    case TestAndPop(thread) => AddOne(s.awake, thread);
    case TestAndPark(_) =>
    case SpuriousWakeup(thread) => AddOne(s.awake, thread);
    case Disconnect =>
  }

  lemma StepKeeps<T(!new)>(s: State<T>, t: State<T>, step: Step<T>)
    requires Inv(s) && Next(s, t, step)
    ensures Inv(t)
  {
    StepKeepsCovered(s, t, step);
    hide Covered;
    assert t.pushed == t.popped + t.queue;
  }

  lemma {:induction false} RunKeeps<T(!new)>(states: seq<State<T>>, steps: seq<Step<T>>, i: nat)
    requires Run(states, steps) && i < |states|
    ensures Inv(states[i])
  {
    if i > 0 {
      RunKeeps(states, steps, i - 1);
      StepKeeps(states[i - 1], states[i], steps[i - 1]);
    }
  }

  /** First in, first out, and nothing lost or invented. */
  lemma QueueConservation<T(!new)>(states: seq<State<T>>, steps: seq<Step<T>>, i: nat)
    requires Run(states, steps) && i < |states|
    ensures states[i].pushed == states[i].popped + states[i].queue
  {
    RunKeeps(states, steps, i);
  }

  /**
   * No lost wake-up, for any numbers of pushing and popping threads: if one sleeps while items
   * are queued, there are at least as many threads about to notify or to pop as items.
   */
  lemma NoLostWakeup<T(!new)>(states: seq<State<T>>, steps: seq<Step<T>>, i: nat)
    requires Run(states, steps) && i < |states|
    requires states[i].parked != {}
    ensures |states[i].queue| <= |states[i].notifying| + |states[i].awake|
    ensures states[i].queue != [] ==> states[i].notifying != {} || states[i].awake != {}
  {
    RunKeeps(states, steps, i);
  }

  /** With one popping thread, a pusher is between its enqueue and its notify_one. */
  lemma NoLostWakeupOneConsumer<T(!new)>(states: seq<State<T>>, steps: seq<Step<T>>, i: nat, consumer: nat)
    requires Run(states, steps) && i < |states|
    requires states[i].awake + states[i].parked <= {consumer}
    ensures consumer in states[i].parked && states[i].queue != [] ==> states[i].notifying != {}
    ensures consumer in states[i].parked ==> |states[i].queue| <= |states[i].notifying|
  {
    RunKeeps(states, steps, i);
    if consumer in states[i].parked {
      assert consumer !in states[i].awake;
      assert states[i].awake == {};
    }
  }

  // ---------- disconnect ----------

  /** The steps by which a sleeper wakes: a notification that picks it, or no reason at all. */
  predicate Wakes<T(==)>(step: Step<T>, sleeper: nat) {
    (step.NotifyOne? && step.woken == sleeper) || step == SpuriousWakeup(sleeper)
  }

  lemma SleeperStep<T(!new)>(s: State<T>, t: State<T>, step: Step<T>, sleeper: nat)
    requires Next(s, t, step) && sleeper in s.parked && Inv(s)
    ensures sleeper in t.parked <==> !Wakes(step, sleeper)
    ensures s.notifying == {} && !step.Enqueue? ==> t.notifying == {} && !step.NotifyOne?
    ensures !s.connected || step.Disconnect? ==> !t.connected
  {
  }

  /**
   * Over any part of any run, a sleeper sleeps throughout exactly when no notification picked
   * it and it did not wake spuriously; a disconnect on the way makes no difference.
   */
  lemma {:induction false} SleepsUntilPicked<T(!new)>(
    states: seq<State<T>>, steps: seq<Step<T>>, i: nat, j: nat, sleeper: nat)
    requires Run(states, steps) && i <= j < |states| && sleeper in states[i].parked
    ensures (forall k :: i <= k <= j ==> sleeper in states[k].parked)
      <==> (forall k :: i <= k < j ==> !Wakes(steps[k], sleeper))
  {
    hide Next, Inv, Wakes;
    if i < j {
      SleepsUntilPicked(states, steps, i, j - 1, sleeper);
      RunKeeps(states, steps, j - 1);
      if sleeper in states[j - 1].parked {
        SleeperStep(states[j - 1], states[j], steps[j - 1], sleeper);
      }
    }
  }

  /**
   * Disconnecting notifies nobody: with no notification underway then and nothing pushed
   * since, a sleeper is asleep at every later moment, unless it wakes spuriously.
   */
  lemma {:induction false} SleepsThroughDisconnect<T(!new)>(
    states: seq<State<T>>, steps: seq<Step<T>>, i: nat, j: nat, sleeper: nat)
    requires Run(states, steps) && i < j < |states|
    requires steps[i].Disconnect? && sleeper in states[i].parked && states[i].notifying == {}
    requires forall k :: i < k < j ==> !steps[k].Enqueue? && steps[k] != SpuriousWakeup(sleeper)
    ensures !states[j].connected && sleeper in states[j].parked && states[j].notifying == {}
  {
    hide Next, Inv;
    RunKeeps(states, steps, j - 1);
    if j > i + 1 {
      SleepsThroughDisconnect(states, steps, i, j - 1, sleeper);
    }
    SleeperStep(states[j - 1], states[j], steps[j - 1], sleeper);
  }

  /** Such a sleeper is reachable: a pop on an empty queue, then a disconnect. */
  lemma DisconnectLeavesSleeper() returns (states: seq<State<nat>>, steps: seq<Step<nat>>)
    ensures Run(states, steps)
    ensures var last := states[|states| - 1]; !last.connected && last.parked == {0} && last.notifying == {}
  {
    var s0: State<nat> := State(true, [], {}, {}, {}, [], []);
    var s1 := s0.(awake := {0});
    var s2 := s1.(awake := {}, parked := {0});
    states := [s0, s1, s2, s2.(connected := false)];
    steps := [StartPop(0), TestAndPark(0), Disconnect];
  }

  // ---------- runs that do happen ----------

  lemma Extend<T(!new)>(before: seq<State<T>>, taken: seq<Step<T>>, t: State<T>, step: Step<T>)
    returns (states: seq<State<T>>, steps: seq<Step<T>>)
    requires before != [] && Run(before, taken) && Next(before[|before| - 1], t, step)
    ensures Run(states, steps) && states != [] && states[|states| - 1] == t
  {
    hide Next;
    states, steps := before + [t], taken + [step];
  }

  lemma {:induction false} FreshThread(threads: set<nat>) returns (n: nat)
    ensures forall t :: t in threads ==> t < n
  {
    n := 0;
    if threads != {} {
      var one :| one in threads;
      n := FreshThread(threads - {one});
      assert forall t :: t in threads ==> t == one || t in threads - {one};
      n := if one < n then n else one + 1;
    }
  }

  /** At any moment, disconnected or not, whatever is queued can be popped, first in first out. */
  lemma {:induction false} AllCanBePopped<T(!new)>(before: seq<State<T>>, taken: seq<Step<T>>)
    returns (states: seq<State<T>>, steps: seq<Step<T>>)
    requires before != [] && Run(before, taken)
    ensures Run(states, steps) && states != []
    ensures var s, t := before[|before| - 1], states[|states| - 1];
      t.queue == [] && t.pushed == s.pushed && t.popped == s.popped + s.queue
    decreases |before[|before| - 1].queue|
  {
    hide Run;
    states, steps := before, taken;
    var s := before[|before| - 1];
    if s.queue == [] {
      assert s.popped + s.queue == s.popped;
    } else {
      var thread := FreshThread(s.awake + s.parked);
      var s1 := s.(awake := s.awake + {thread});
      states, steps := Extend(states, steps, s1, StartPop(thread));
      var s2 := s1.(awake := s1.awake - {thread}, queue := s.queue[1..], popped := s.popped + [s.queue[0]]);
      states, steps := Extend(states, steps, s2, TestAndPop(thread));
      states, steps := AllCanBePopped(states, steps);
      assert s.popped + [s.queue[0]] + s.queue[1..] == s.popped + s.queue;
    }
  }

  /** A sleeper that is notified while an item is queued can take it. */
  lemma SleeperIsServed<T(!new)>(before: seq<State<T>>, taken: seq<Step<T>>, thread: nat, sleeper: nat)
    returns (states: seq<State<T>>, steps: seq<Step<T>>)
    requires before != [] && Run(before, taken)
    requires var s := before[|before| - 1]; thread in s.notifying && sleeper in s.parked && s.queue != []
    ensures Run(states, steps) && states != []
    ensures var s, t := before[|before| - 1], states[|states| - 1];
      && t.popped == s.popped + [s.queue[0]] && t.queue == s.queue[1..]
      && sleeper !in t.parked && thread !in t.notifying
  {
    hide Run;
    var s := before[|before| - 1];
    var s1 := s.(notifying := s.notifying - {thread}, parked := s.parked - {sleeper}, awake := s.awake + {sleeper});
    states, steps := Extend(before, taken, s1, NotifyOne(thread, sleeper));
    var s2 := s1.(awake := s1.awake - {sleeper}, queue := s.queue[1..], popped := s.popped + [s.queue[0]]);
    states, steps := Extend(states, steps, s2, TestAndPop(sleeper));
  }

  /** Any items can pass one by one, the popper going to sleep before each and after the last. */
  lemma {:induction false} AllPassAwaited<T(!new)>(items: seq<T>) returns (states: seq<State<T>>, steps: seq<Step<T>>)
    ensures Run(states, steps) && states != []
    ensures states[|states| - 1] == State(true, [], {}, {}, {0}, items, items)
  {
    hide Run;
    if |items| == 0 {
      var s: State<T> := State(true, [], {}, {}, {}, [], []);
      states, steps := [s], [];
      assert Run(states, steps) by { NothingYet(s); }
      states, steps := Extend(states, steps, s.(awake := {0}), StartPop(0));
      states, steps := Extend(states, steps, s.(parked := {0}), TestAndPark(0));
    } else {
      var init, item := items[..|items| - 1], items[|items| - 1];
      assert items == init + [item];
      states, steps := AllPassAwaited(init);
      states, steps := Extend(states, steps, State(true, [item], {1}, {}, {0}, items, init), Enqueue(1, item));
      states, steps := Extend(states, steps, State(true, [item], {}, {0}, {}, items, init), NotifyOne(1, 0));
      states, steps := Extend(states, steps, State(true, [], {}, {}, {}, items, items), TestAndPop(0));
      states, steps := Extend(states, steps, State(true, [], {}, {0}, {}, items, items), StartPop(0));
      states, steps := Extend(states, steps, State(true, [], {}, {}, {0}, items, items), TestAndPark(0));
    }
  }

  lemma NothingYet<T(!new)>(s: State<T>)
    requires Init(s)
    ensures Run([s], [])
  {
  }

  ghost predicate Enabled<T(!new)>(s: State<T>, step: Step<T>) {
    exists t :: Next(s, t, step)
  }

  /** Nobody who pushes ever waits, and nobody who pops does while there is something queued. */
  lemma ThreadsAreFree<T(!new)>(s: State<T>, thread: nat, item: T, sleeper: nat)
    ensures thread !in s.notifying ==> Enabled(s, Enqueue(thread, item))
    ensures thread in s.notifying && (sleeper in s.parked || s.parked == {}) ==> Enabled(s, NotifyOne(thread, sleeper))
    ensures thread !in s.awake && thread !in s.parked ==> Enabled(s, StartPop(thread))
    ensures thread in s.awake && s.queue != [] ==> Enabled(s, TestAndPop(thread))
    ensures thread in s.awake && s.queue == [] && s.connected ==> Enabled(s, TestAndPark(thread))
    ensures thread in s.parked ==> Enabled(s, SpuriousWakeup(thread))
    ensures Enabled(s, Disconnect)
  {
    if thread !in s.notifying {
      assert Next(s, s.(queue := s.queue + [item], pushed := s.pushed + [item], notifying := s.notifying + {thread}),
                  Enqueue(thread, item));
    } else if s.parked == {} {
      assert Next(s, s.(notifying := s.notifying - {thread}), NotifyOne(thread, sleeper));
    } else if sleeper in s.parked {
      assert Next(s, s.(notifying := s.notifying - {thread}, parked := s.parked - {sleeper}, awake := s.awake + {sleeper}),
                  NotifyOne(thread, sleeper));
    }
    PoppersAreFree(s, thread);
    assert Next(s, s.(connected := false), Disconnect);
  }

  lemma PoppersAreFree<T(!new)>(s: State<T>, thread: nat)
    ensures thread !in s.awake && thread !in s.parked ==> Enabled(s, StartPop(thread))
    ensures thread in s.awake && s.queue != [] ==> Enabled(s, TestAndPop(thread))
    ensures thread in s.awake && s.queue == [] && s.connected ==> Enabled(s, TestAndPark(thread))
    ensures thread in s.parked ==> Enabled(s, SpuriousWakeup(thread))
  {
    if thread in s.awake {
      if s.queue != [] {
        assert Next(s, s.(awake := s.awake - {thread}, queue := s.queue[1..], popped := s.popped + [s.queue[0]]),
                    TestAndPop(thread));
      } else if s.connected {
        assert Next(s, s.(awake := s.awake - {thread}, parked := s.parked + {thread}), TestAndPark(thread));
      }
    } else if thread !in s.parked {
      assert Next(s, s.(awake := s.awake + {thread}), StartPop(thread));
    }
    if thread in s.parked {
      assert Next(s, s.(parked := s.parked - {thread}, awake := s.awake + {thread}), SpuriousWakeup(thread));
    }
  }
}

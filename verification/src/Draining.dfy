/** The foreground channel can always finish: from every state the protocol reaches, some run
    completes the producers' events and drains to the end. */
module Draining {
  import opened Text
  import opened Foreground

  lemma {:induction false} RunOne(s: State, a: Action)
    ensures Run(s, [a]) == Step(s, a)
  {
    assert [a][..0] == [];
  }

  /** One run after another. */
  lemma {:induction false} RunConcat(s: State, a: seq<Action>, b: seq<Action>)
    requires Run(s, a).Some?
    ensures Run(s, a + b) == Run(Run(s, a).value, b)
    decreases |b|
  {
    if b == [] {
      assert a + b == a;
    } else {
      var front := b[..|b| - 1];
      RunConcat(s, a, front);
      assert (a + b)[..|a + b| - 1] == a + front;
    }
  }

  lemma {:induction false} Prepend(s: State, a: Action, rest: seq<Action>)
    requires Step(s, a).Some?
    ensures Run(s, [a] + rest) == Run(Step(s, a).value, rest)
  {
    RunOne(s, a);
    RunConcat(s, [a], rest);
  }

  // The consumer.

  /** How far the consumer is from the end once the queue is empty. */
  function Distance(c: Consumer, draining: bool): nat {
    match c
    case Done => 0
    case Publishing(_, after) => 1 + AfterPublish(after)
    case Storing(_, after) => 2 + AfterPublish(after)
    case Taking(after) => 3 + AfterPublish(after)
    case Top => if draining then 4 else 5
    case Replaying => 6
  }

  function AfterPublish(after: After): nat {
    match after
    case ThenStop => 0
    case Back => 6
    case ThenReplay => 7
    case Again => 10
  }

  /** What the consumer does next once the producers have finished. */
  function NextAction(s: State): Action {
    match s.consumer
    case Taking(_) => Take
    case Storing(_, _) => Store
    case Publishing(_, _) => Publish
    case Replaying => Replay(false)
    case Top => if !s.draining then NoticeFinished else if s.queue != [] then Receive else FoundEmpty
    case Done => Take
  }

  /** It is enabled, keeps the producers finished, and brings the end nearer. */
  lemma {:induction false} NextIsNearer(s: State)
    requires s.finished && !s.consumer.Done?
    ensures var t := Step(s, NextAction(s));
            && t.Some? && t.value.finished
            && (|t.value.queue| < |s.queue|
                || (|t.value.queue| == |s.queue|
                    && Distance(t.value.consumer, t.value.draining) < Distance(s.consumer, s.draining)))
  {
  }

  lemma {:induction false} FinishedDrains(s: State) returns (actions: seq<Action>)
    requires s.finished
    ensures Run(s, actions).Some? && Run(s, actions).value.consumer.Done?
    decreases |s.queue|, Distance(s.consumer, s.draining)
  {
    if s.consumer.Done? {
      return [];
    }
    NextIsNearer(s);
    var t := Step(s, NextAction(s)).value;
    var rest := FinishedDrains(t);
    Prepend(s, NextAction(s), rest);
    return [NextAction(s)] + rest;
  }

  // The producers.

  ghost function Busy(s: State): set<nat> {
    set t | t in s.producers && !s.producers[t].Idle?
  }

  ghost function Swappers(s: State): set<nat> {
    set t | t in s.producers && s.producers[t].Swapping?
  }

  /** A producer between two steps can always take the next. */
  lemma {:induction false} BusyCanStep(s: State, t: nat)
    requires t in Busy(s)
    ensures var a := if s.producers[t].Swapping? then Swap(t) else Announce(t);
            var next := Step(s, a);
            && next.Some? && Swappers(next.value) == Swappers(s) - {t}
            && (Busy(next.value) == Busy(s) || Busy(next.value) == Busy(s) - {t})
            && (s.producers[t].Announcing? ==> Busy(next.value) == Busy(s) - {t})
  {
  }

  lemma {:induction false} ProducersFinish(s: State) returns (actions: seq<Action>)
    ensures Run(s, actions).Some? && Run(s, actions).value.finished
    decreases |Busy(s)|, |Swappers(s)|
  {
    if Busy(s) == {} {
      assert AllIdle(s) by {
        forall t | t in s.producers
          ensures s.producers[t].Idle?
        {
          assert t !in Busy(s);
        }
      }
      RunOne(s, Finish);
      return [Finish];
    }
    var t :| t in Busy(s);
    BusyCanStep(s, t);
    var a := if s.producers[t].Swapping? then Swap(t) else Announce(t);
    var next := Step(s, a).value;
    assert s.producers[t].Swapping? ==> t in Swappers(s);
    var rest := ProducersFinish(next);
    Prepend(s, a, rest);
    return [a] + rest;
  }

  /** From every state that some interleaving reaches, another completes it; and then every
      note was delivered once in order, and the last snapshot is the maximum of all emitted. */
  lemma {:induction false} EveryRunCanFinish(start: Option<Progress>, actions: seq<Action>) returns (more: seq<Action>)
    requires Run(Init(start), actions).Some?
    ensures Run(Init(start), actions + more).Some?
    ensures var s := Run(Init(start), actions + more).value;
            && s.consumer.Done? && Notes(s.delivered) == s.sent
            && (s.emitted != [] ==> LastSnapshot(s.delivered) == Total(start, s.emitted))
  {
    var s := Run(Init(start), actions).value;
    var first := ProducersFinish(s);
    var t := Run(s, first).value;
    var second := FinishedDrains(t);
    more := first + second;
    RunConcat(s, first, second);
    RunConcat(Init(start), actions, more);
    DrainDeliversEverything(start, actions + more);
  }

  function Delivered(s: State): State
    requires s.consumer.Taking?
  {
    DoPublish(DoStore(DoTake(s).value).value).value
  }

  lemma {:induction false} DeliveryRuns(s: State)
    requires s.consumer.Taking?
    ensures Run(s, [Take, Store, Publish]) == Some(Delivered(s))
  {
    var taken := DoTake(s).value;
    assert [Take, Store, Publish] == [Take] + ([Store] + [Publish]);
    Prepend(s, Take, [Store] + [Publish]);
    Prepend(taken, Store, [Publish]);
    RunOne(DoStore(taken).value, Publish);
  }

  lemma {:induction false} DeliveryKeeps(s: State)
    requires Inv(s) && s.consumer.Taking?
    ensures Inv(Delivered(s))
  {
    var taken := DoTake(s).value;
    TakeKeeps(s);
    StoreKeeps(taken);
    PublishKeeps(DoStore(taken).value);
  }

  lemma {:induction false} StoreKeeps(s: State)
    requires Inv(s) && s.consumer.Storing?
    ensures Inv(DoStore(s).value)
  {
    StepKeeps(s, Store);
  }

  lemma {:induction false} DeliveryFields(s: State)
    requires s.consumer.Taking?
    ensures var t := Delivered(s);
            && t.emitted == s.emitted && t.start == s.start && t.taken == |s.emitted|
            && t.latest.None? && !t.pending && HeldBack(t.consumer).None?
  {
  }

  /** A delivery publishes everything emitted before it took the slot, announced or not; a
      timeout and a received event both lead to one. */
  lemma {:induction false} DeliveryPublishesAll(s: State)
    requires Inv(s) && s.consumer.Taking?
    ensures var t := Run(s, [Take, Store, Publish]);
            && t.Some? && t.value.replay == Total(s.start, s.emitted) && t.value.latest.None? && !t.value.pending
            && (s.emitted != [] ==> LastSnapshot(t.value.delivered) == Total(s.start, s.emitted))
  {
    DeliveryRuns(s);
    DeliveryKeeps(s);
    DeliveryFields(s);
    AllIsPublished(Delivered(s));
  }

  lemma {:induction false} AllIsPublished(t: State)
    requires StreamOk(t) && DeliveredOk(t) && t.taken == |t.emitted| && HeldBack(t.consumer).None?
    ensures t.replay == Total(t.start, t.emitted)
    ensures t.emitted != [] ==> LastSnapshot(t.delivered) == Total(t.start, t.emitted)
  {
    NothingHeld(t);
    assert t.emitted[..t.mark] == t.emitted;
    LastSnapshotIsTotal(t.delivered, t.start, t.emitted);
  }

  /** What wakes the consumer leads to a delivery. */
  lemma {:induction false} WakingLeadsToDelivery(s: State)
    requires s.consumer.Top?
    ensures !s.draining ==> Step(s, Timeout).Some? && Step(s, Timeout).value.consumer == Taking(ThenReplay)
    ensures s.queue != [] ==> Step(s, Receive).Some? && Step(s, Receive).value.consumer.Taking?
    ensures s.queue != [] && s.queue[0].Event? ==>
              Step(s, Receive).value.delivered == s.delivered + [Message(s.queue[0].note)]
    ensures s.draining && s.queue == [] ==> Step(s, FoundEmpty).Some? && Step(s, FoundEmpty).value.consumer == Taking(ThenStop)
  {
  }

  /** After a timeout's delivery the consumer may show the latest snapshot again, unchanged. */
  lemma {:induction false} TimeoutReplays(s: State)
    requires Inv(s)
    ensures s.consumer == Taking(ThenReplay) ==> Delivered(s).consumer.Replaying?
    ensures s.consumer.Replaying? && s.replay.Some? ==>
              Step(s, Replay(true)).value.delivered == s.delivered + [Snapshot(s.replay.value, s.mark)]
    ensures s.consumer.Replaying? ==> Step(s, Replay(false)).value.delivered == s.delivered
  {
    if s.consumer.Replaying? && s.replay.Some? {
      NothingHeld(s);
      MergeIsLeastUpperBound(s.replay.value, s.replay.value, s.replay.value);
    }
  }

  // What the producers may do.

  /** A producer between events may always emit progress, whatever the queue holds, until the
      operation finishes; other events wait only for space. */
  lemma {:induction false} EmittingNeverBlocks(s: State, t: nat, p: Progress, n: Note)
    requires !s.finished && (t in s.producers ==> s.producers[t].Idle?)
    ensures Step(s, Emit(t, p)).Some?
    ensures Step(s, Send(t, n)).Some? <==> |s.queue| < 256
  {
  }
}

/** The foreground event channel: producers coalesce progress under a lock and a flag while
    other events go through a bounded queue; one consumer delivers both. The protocol is a
    state machine whose actions are the atomic steps of the threads, in any interleaving. */
module Foreground {
  import opened Text
  import opened Bytes

  const EVENT_CAPACITY: nat := 256

  // Progress snapshots.

  datatype Progress = Progress(
    discoveredFiles: nat,
    completedFiles: nat,
    skippedFiles: nat,
    failedFiles: nat,
    logicalBytesCloned: nat,
    bytesStreamed: nat,
    clonedFiles: nat,
    nativeCopiedFiles: nat,
    bufferedCopiedFiles: nat)

  function Max(a: nat, b: nat): nat { if a < b then b else a }

  /** `merge_progress`. */
  function Merge(a: Progress, b: Progress): Progress {
    Progress(
      Max(a.discoveredFiles, b.discoveredFiles),
      Max(a.completedFiles, b.completedFiles),
      Max(a.skippedFiles, b.skippedFiles),
      Max(a.failedFiles, b.failedFiles),
      Max(a.logicalBytesCloned, b.logicalBytesCloned),
      Max(a.bytesStreamed, b.bytesStreamed),
      Max(a.clonedFiles, b.clonedFiles),
      Max(a.nativeCopiedFiles, b.nativeCopiedFiles),
      Max(a.bufferedCopiedFiles, b.bufferedCopiedFiles))
  }

  /** No field decreases. */
  predicate AtMost(a: Progress, b: Progress) {
    && a.discoveredFiles <= b.discoveredFiles && a.completedFiles <= b.completedFiles
    && a.skippedFiles <= b.skippedFiles && a.failedFiles <= b.failedFiles
    && a.logicalBytesCloned <= b.logicalBytesCloned && a.bytesStreamed <= b.bytesStreamed
    && a.clonedFiles <= b.clonedFiles && a.nativeCopiedFiles <= b.nativeCopiedFiles
    && a.bufferedCopiedFiles <= b.bufferedCopiedFiles
  }

  lemma {:induction false} MergeIsLeastUpperBound(a: Progress, b: Progress, c: Progress)
    ensures AtMost(a, Merge(a, b)) && AtMost(b, Merge(a, b))
    ensures AtMost(a, c) && AtMost(b, c) ==> AtMost(Merge(a, b), c)
    ensures Merge(a, a) == a && Merge(Merge(a, b), c) == Merge(a, Merge(b, c))
  {
  }

  function Join(a: Option<Progress>, b: Option<Progress>): Option<Progress> {
    if a.None? then b else if b.None? then a else Some(Merge(a.value, b.value))
  }

  lemma {:induction false} JoinIsAssociative(a: Option<Progress>, b: Option<Progress>, c: Option<Progress>)
    ensures Join(Join(a, b), c) == Join(a, Join(b, c))
  {
    if a.Some? && b.Some? && c.Some? {
      MergeIsLeastUpperBound(a.value, b.value, c.value);
    }
  }

  /** The field-wise maximum of a starting snapshot and a sequence of them. */
  function Total(start: Option<Progress>, s: seq<Progress>): (r: Option<Progress>)
    ensures s != [] ==> r.Some?
  {
    if s == [] then start else Join(Total(start, s[..|s| - 1]), Some(s[|s| - 1]))
  }

  lemma {:induction false} TotalOfMore(start: Option<Progress>, s: seq<Progress>, p: Progress)
    ensures Total(start, s + [p]) == Join(Total(start, s), Some(p))
  {
    assert (s + [p])[..|s|] == s;
  }

  /** The total of a stream cut in two. */
  lemma {:induction false} TotalOfCut(start: Option<Progress>, s: seq<Progress>, t: seq<Progress>)
    ensures Total(start, s + t) == Join(Total(start, s), Total(None, t))
    decreases |t|
  {
    if t == [] {
      assert s + t == s;
    } else {
      var front, last := t[..|t| - 1], t[|t| - 1];
      assert s + t == (s + front) + [last] && t == front + [last];
      TotalOfMore(start, s + front, last);
      TotalOfMore(None, front, last);
      TotalOfCut(start, s, front);
      JoinIsAssociative(Total(start, s), Total(None, front), Some(last));
    }
  }

  lemma {:induction false} TotalGrows(start: Option<Progress>, s: seq<Progress>, a: nat, b: nat)
    requires a <= b <= |s| && Total(start, s[..a]).Some?
    ensures Total(start, s[..b]).Some? && AtMost(Total(start, s[..a]).value, Total(start, s[..b]).value)
  {
    assert s[..b] == s[..a] + s[a..b];
    TotalOfCut(start, s[..a], s[a..b]);
    var first := Total(start, s[..a]).value;
    MergeIsLeastUpperBound(first, if a < b then Total(None, s[a..b]).value else first, first);
  }

  /** The total is above every snapshot and below every other bound: the maximum. */
  lemma {:induction false} TotalIsMaximum(s: seq<Progress>, bound: Progress)
    requires s != []
    ensures forall i :: 0 <= i < |s| ==> AtMost(s[i], Total(None, s).value)
    ensures (forall i :: 0 <= i < |s| ==> AtMost(s[i], bound)) ==> AtMost(Total(None, s).value, bound)
  {
    var front, last := s[..|s| - 1], s[|s| - 1];
    if front != [] {
      TotalIsMaximum(front, bound);
      var below := Total(None, front).value;
      MergeIsLeastUpperBound(below, last, bound);
      forall i | 0 <= i < |s|
        ensures AtMost(s[i], Total(None, s).value)
      {
        if i < |s| - 1 {
          assert AtMost(front[i], below);
          Transitive(front[i], below, Total(None, s).value);
        }
      }
    }
  }

  lemma {:induction false} Transitive(a: Progress, b: Progress, c: Progress)
    requires AtMost(a, b) && AtMost(b, c)
    ensures AtMost(a, c)
  {
  }

  // The protocol's state.

  /** Events that are never coalesced. */
  datatype Note = Operand(report: Bytes) | Diagnostic(path: Bytes, message: Bytes)

  datatype Queued = Event(note: Note) | ProgressReady

  /** A producer between events, about to swap the flag, or about to announce progress. */
  datatype Producer = Idle | Swapping | Announcing

  /** What the consumer does once it has delivered the latest progress. */
  datatype After = Again | Back | ThenReplay | ThenStop

  datatype Consumer =
    | Top
    | Taking(after: After)
    | Storing(took: Option<Progress>, after: After)
    | Publishing(took: Option<Progress>, after: After)
    | Replaying
    | Done

  /** What the handler was given; a snapshot carries how many emissions it covers. */
  datatype Delivery = Message(note: Note) | Snapshot(progress: Progress, upTo: nat)

  /** `emitted` and `sent` are the histories of the producers; `taken` and `mark` count the
      emissions taken from the shared slot and merged into `replay`. */
  datatype State = State(
    emitted: seq<Progress>,
    sent: seq<Note>,
    producers: map<nat, Producer>,
    finished: bool,
    latest: Option<Progress>,
    pending: bool,
    queue: seq<Queued>,
    consumer: Consumer,
    draining: bool,
    start: Option<Progress>,
    replay: Option<Progress>,
    delivered: seq<Delivery>,
    taken: nat,
    mark: nat)

  /** `start` is what an earlier operation of the same foreground left to replay. */
  function Init(start: Option<Progress>): State {
    State([], [], map[], false, None, false, [], Top, false, start, start, [], 0, 0)
  }

  datatype Action =
    | Emit(thread: nat, progress: Progress)
    | Swap(thread: nat)
    | Announce(thread: nat)
    | Send(thread: nat, note: Note)
    | Finish
    | NoticeFinished
    | Receive
    | Timeout
    | Disconnected
    | FoundEmpty
    | Take
    | Store
    | Publish
    | Replay(due: bool)

  predicate AllIdle(s: State) {
    forall t :: t in s.producers ==> s.producers[t].Idle?
  }

  function ProducerOf(s: State, t: nat): Producer {
    if t in s.producers then s.producers[t] else Idle
  }

  // Producer actions; none where the action is not enabled.

  function DoEmit(s: State, t: nat, p: Progress): Option<State> {
    if s.finished || !ProducerOf(s, t).Idle? then None
    else
      Some(s.(emitted := s.emitted + [p],
              latest := Join(s.latest, Some(p)),
              producers := s.producers[t := Swapping]))
  }

  function DoSwap(s: State, t: nat): Option<State> {
    if !ProducerOf(s, t).Swapping? then None
    else Some(s.(pending := true, producers := s.producers[t := if s.pending then Idle else Announcing]))
  }

  /** `try_send`: a full queue drops the announcement. */
  function DoAnnounce(s: State, t: nat): Option<State> {
    if !ProducerOf(s, t).Announcing? then None
    else
      Some(s.(queue := if |s.queue| < EVENT_CAPACITY then s.queue + [ProgressReady] else s.queue,
              producers := s.producers[t := Idle]))
  }

  /** `send` blocks while the queue is full. */
  function DoSend(s: State, t: nat, n: Note): Option<State> {
    if s.finished || !ProducerOf(s, t).Idle? || |s.queue| >= EVENT_CAPACITY then None
    else Some(s.(queue := s.queue + [Event(n)], sent := s.sent + [n]))
  }

  // Consumer actions.

  function DoReceive(s: State): Option<State> {
    if !s.consumer.Top? || s.queue == [] then None
    else
      match s.queue[0]
      case Event(n) =>
        Some(s.(queue := s.queue[1..], delivered := s.delivered + [Message(n)], consumer := Taking(Back)))
      case ProgressReady => Some(s.(queue := s.queue[1..], consumer := Taking(Again)))
  }

  function DoTake(s: State): Option<State> {
    if !s.consumer.Taking? then None
    else Some(s.(latest := None, consumer := Storing(s.latest, s.consumer.after), taken := |s.emitted|))
  }

  function DoStore(s: State): Option<State> {
    if !s.consumer.Storing? then None
    else Some(s.(pending := false, consumer := Publishing(s.consumer.took, s.consumer.after)))
  }

  function Resume(after: After): Consumer {
    match after
    case Again => Taking(Back)
    case Back => Top
    case ThenReplay => Replaying
    case ThenStop => Done
  }

  /** `deliver_event` on a snapshot: what is handed on is the replay merged with it. */
  function Deliver(s: State, p: Progress): State {
    var merged := Merge(if s.replay.Some? then s.replay.value else p, p);
    s.(replay := Some(merged), delivered := s.delivered + [Snapshot(merged, s.taken)], mark := s.taken)
  }

  function DoPublish(s: State): Option<State> {
    if !s.consumer.Publishing? then None
    else
      var t := if s.consumer.took.Some? then Deliver(s, s.consumer.took.value) else s;
      Some(t.(consumer := Resume(s.consumer.after)))
  }

  /** `due` stands for the clock and an earlier output error. */
  function DoReplay(s: State, due: bool): Option<State> {
    if !s.consumer.Replaying? then None
    else
      var t := if due && s.replay.Some? then Deliver(s, s.replay.value) else s;
      Some(t.(consumer := Top))
  }

  function Step(s: State, a: Action): Option<State> {
    match a
    case Emit(t, p) => DoEmit(s, t, p)
    case Swap(t) => DoSwap(s, t)
    case Announce(t) => DoAnnounce(s, t)
    case Send(t, n) => DoSend(s, t, n)
    case Finish => if AllIdle(s) then Some(s.(finished := true)) else None
    case NoticeFinished => if s.consumer.Top? && s.finished then Some(s.(draining := true)) else None
    case Receive => DoReceive(s)
    case Timeout => if s.consumer.Top? && !s.draining then Some(s.(consumer := Taking(ThenReplay))) else None
    case Disconnected =>
      if s.consumer.Top? && !s.draining && s.finished && s.queue == [] then Some(s.(consumer := Replaying)) else None
    case FoundEmpty =>
      if s.consumer.Top? && s.draining && s.queue == [] then Some(s.(consumer := Taking(ThenStop))) else None
    case Take => DoTake(s)
    case Store => DoStore(s)
    case Publish => DoPublish(s)
    case Replay(due) => DoReplay(s, due)
  }

  /** The state after a run; none when some action was not enabled. */
  function Run(s: State, actions: seq<Action>): Option<State> {
    if actions == [] then Some(s)
    else
      match Run(s, actions[..|actions| - 1])
      case None => None
      case Some(t) => Step(t, actions[|actions| - 1])
  }

  // The invariant.

  function HeldBack(c: Consumer): Option<Progress> {
    if c.Storing? || c.Publishing? then c.took else None
  }

  /** The emissions, in order: merged into the replay, in the consumer's hands, in the slot. */
  predicate StreamOk(s: State) {
    && s.mark <= s.taken <= |s.emitted|
    && s.replay == Total(s.start, s.emitted[..s.mark])
    && HeldBack(s.consumer) == Total(None, s.emitted[s.mark..s.taken])
    && s.latest == Total(None, s.emitted[s.taken..])
  }

  function Notes(d: seq<Delivery>): seq<Note> {
    if d == [] then []
    else
      var last := d[|d| - 1];
      Notes(d[..|d| - 1]) + if last.Message? then [last.note] else []
  }

  function QueuedNotes(q: seq<Queued>): seq<Note> {
    if q == [] then [] else (if q[0].Event? then [q[0].note] else []) + QueuedNotes(q[1..])
  }

  predicate NotesOk(s: State) {
    Notes(s.delivered) + QueuedNotes(s.queue) == s.sent
  }

  /** How many emissions the last delivered snapshot covers. */
  function Covered(d: seq<Delivery>): nat {
    if d == [] then 0
    else
      var last := d[|d| - 1];
      if last.Snapshot? then last.upTo else Covered(d[..|d| - 1])
  }

  /** Each snapshot covers at least what the one before did, and is exactly the maximum of
      the emissions it covers. */
  predicate ShownOk(d: seq<Delivery>, start: Option<Progress>, emitted: seq<Progress>) {
    d == []
    || (ShownOk(d[..|d| - 1], start, emitted)
        && match d[|d| - 1] {
             case Message(_) => true
             case Snapshot(p, n) =>
               Covered(d[..|d| - 1]) <= n <= |emitted| && Total(start, emitted[..n]) == Some(p)
           })
  }

  predicate PhaseOk(s: State) {
    && |s.queue| <= EVENT_CAPACITY
    && (s.finished ==> AllIdle(s))
    && (s.draining ==> s.finished)
    && (Stopping(s.consumer) ==> s.draining && s.queue == [])
    && (Stopping(s.consumer) && !s.consumer.Taking? ==> s.taken == |s.emitted|)
  }

  predicate Stopping(c: Consumer) {
    c.Done? || ((c.Taking? || c.Storing? || c.Publishing?) && c.after.ThenStop?)
  }

  predicate Inv(s: State) {
    StreamOk(s) && NotesOk(s) && PhaseOk(s) && DeliveredOk(s)
  }

  // Every step keeps it.

  lemma {:induction false} InitHolds(start: Option<Progress>)
    ensures Inv(Init(start))
  {
  }

  lemma {:induction false} ShownWithMore(d: seq<Delivery>, start: Option<Progress>, emitted: seq<Progress>, p: Progress)
    requires ShownOk(d, start, emitted)
    ensures ShownOk(d, start, emitted + [p])
  {
    if d != [] {
      ShownWithMore(d[..|d| - 1], start, emitted, p);
      var last := d[|d| - 1];
      if last.Snapshot? {
        assert (emitted + [p])[..last.upTo] == emitted[..last.upTo];
      }
    }
  }

  lemma {:induction false} EmitKeeps(s: State, t: nat, p: Progress)
    requires Inv(s) && DoEmit(s, t, p).Some?
    ensures Inv(DoEmit(s, t, p).value)
  {
    var more := s.emitted + [p];
    assert more[..s.mark] == s.emitted[..s.mark];
    assert more[s.mark..s.taken] == s.emitted[s.mark..s.taken];
    assert more[s.taken..] == s.emitted[s.taken..] + [p];
    TotalOfMore(None, s.emitted[s.taken..], p);
    ShownWithMore(s.delivered, s.start, s.emitted, p);
  }

  lemma {:induction false} NotesStep(d: seq<Delivery>, e: Delivery)
    ensures Notes(d + [e]) == Notes(d) + if e.Message? then [e.note] else []
    ensures Covered(d + [e]) == if e.Snapshot? then e.upTo else Covered(d)
  {
    assert (d + [e])[..|d|] == d;
  }

  lemma {:induction false} ShownStep(d: seq<Delivery>, e: Delivery, start: Option<Progress>, emitted: seq<Progress>)
    requires ShownOk(d, start, emitted)
    requires e.Snapshot? ==> Covered(d) <= e.upTo <= |emitted| && Total(start, emitted[..e.upTo]) == Some(e.progress)
    ensures ShownOk(d + [e], start, emitted)
  {
    assert (d + [e])[..|d|] == d;
  }

  lemma {:induction false} QueuedNotesStep(q: seq<Queued>, e: Queued)
    ensures QueuedNotes(q + [e]) == QueuedNotes(q) + if e.Event? then [e.note] else []
  {
    var new_ := if e.Event? then [e.note] else [];
    if q == [] {
      assert q + [e] == [e] && [e][1..] == [];
      assert QueuedNotes([e]) == new_ + [] == new_;
    } else {
      assert (q + [e])[1..] == q[1..] + [e];
      QueuedNotesStep(q[1..], e);
      var head := if q[0].Event? then [q[0].note] else [];
      assert QueuedNotes(q + [e]) == head + (QueuedNotes(q[1..]) + new_);
    }
  }

  lemma {:induction false} AnnounceKeeps(s: State, t: nat)
    requires Inv(s) && DoAnnounce(s, t).Some?
    ensures Inv(DoAnnounce(s, t).value)
  {
    QueuedNotesStep(s.queue, ProgressReady);
    assert QueuedNotes(s.queue) + [] == QueuedNotes(s.queue);
    assert DoAnnounce(s, t).value.emitted == s.emitted;
  }

  lemma {:induction false} SendKeeps(s: State, t: nat, n: Note)
    requires Inv(s) && DoSend(s, t, n).Some?
    ensures Inv(DoSend(s, t, n).value)
  {
    QueuedNotesStep(s.queue, Event(n));
    Regroup(Notes(s.delivered), QueuedNotes(s.queue), [n]);
  }

  lemma {:induction false} Regroup(a: seq<Note>, b: seq<Note>, c: seq<Note>)
    ensures a + (b + c) == (a + b) + c
  {
  }

  lemma {:induction false} ReceiveKeepsNotes(d: seq<Delivery>, q: seq<Queued>)
    requires q != [] && q[0].Event?
    ensures Notes(d + [Message(q[0].note)]) + QueuedNotes(q[1..]) == Notes(d) + QueuedNotes(q)
  {
    var n := q[0].note;
    NotesStep(d, Message(n));
    assert QueuedNotes(q) == [n] + QueuedNotes(q[1..]);
    Regroup(Notes(d), [n], QueuedNotes(q[1..]));
  }

  lemma {:induction false} ReceiveEventKeeps(s: State, n: Note)
    requires Inv(s) && s.consumer.Top? && s.queue != [] && s.queue[0] == Event(n)
    ensures Inv(DoReceive(s).value)
  {
    var t := DoReceive(s).value;
    ReceiveKeepsNotes(s.delivered, s.queue);
    assert NotesOk(t);
    NotesStep(s.delivered, Message(n));
    ShownStep(s.delivered, Message(n), s.start, s.emitted);
    assert DeliveredOk(t);
  }

  lemma {:induction false} ReceiveKeeps(s: State)
    requires Inv(s) && DoReceive(s).Some?
    ensures Inv(DoReceive(s).value)
  {
    match s.queue[0] {
      case Event(n) =>
        ReceiveEventKeeps(s, n);
      case ProgressReady =>
        assert QueuedNotes(s.queue) == QueuedNotes(s.queue[1..]);
    }
  }

  /** With nothing in its hands the consumer has merged all it took. */
  lemma {:induction false} NothingHeld(s: State)
    requires StreamOk(s) && HeldBack(s.consumer).None?
    ensures s.mark == s.taken
  {
    assert s.emitted[s.mark..s.taken] == [];
  }

  lemma {:induction false} TakeKeeps(s: State)
    requires Inv(s) && DoTake(s).Some?
    ensures Inv(DoTake(s).value)
  {
    NothingHeld(s);
    assert s.emitted[s.mark..|s.emitted|] == s.emitted[s.taken..];
    assert s.emitted[|s.emitted|..] == [];
  }

  /** What has been delivered, apart from the state of the queue and the consumer. */
  predicate DeliveredOk(s: State) {
    ShownOk(s.delivered, s.start, s.emitted) && Covered(s.delivered) == s.mark
  }

  lemma {:induction false} DeliveredReplay(s: State, p: Progress)
    requires s.taken <= |s.emitted|
    requires Join(s.replay, Some(p)) == Total(s.start, s.emitted[..s.taken])
    ensures Deliver(s, p).replay == Total(s.start, s.emitted[..s.taken])
  {
    MergeIsLeastUpperBound(p, p, p);
  }

  lemma {:induction false} DeliverKeeps(s: State, p: Progress)
    requires s.mark <= s.taken <= |s.emitted| && DeliveredOk(s)
    requires Deliver(s, p).replay == Total(s.start, s.emitted[..s.taken])
    ensures DeliveredOk(Deliver(s, p)) && Notes(Deliver(s, p).delivered) == Notes(s.delivered)
  {
    var e := Snapshot(Deliver(s, p).replay.value, s.taken);
    NotesStep(s.delivered, e);
    ShownStep(s.delivered, e, s.start, s.emitted);
  }

  lemma {:induction false} TakenJoinsReplay(s: State)
    requires StreamOk(s)
    ensures Join(s.replay, HeldBack(s.consumer)) == Total(s.start, s.emitted[..s.taken])
  {
    assert s.emitted[..s.taken] == s.emitted[..s.mark] + s.emitted[s.mark..s.taken];
    TotalOfCut(s.start, s.emitted[..s.mark], s.emitted[s.mark..s.taken]);
  }

  /** After a delivery the replay is the total of everything taken. */
  lemma {:induction false} DeliverStream(s: State, p: Progress, c: Consumer)
    requires s.taken <= |s.emitted| && HeldBack(c).None?
    requires s.latest == Total(None, s.emitted[s.taken..])
    requires Deliver(s, p).replay == Total(s.start, s.emitted[..s.taken])
    ensures StreamOk(Deliver(s, p).(consumer := c))
  {
    assert s.emitted[s.taken..s.taken] == [];
  }

  lemma {:induction false} DeliveredState(s: State, p: Progress, c: Consumer)
    requires StreamOk(s) && DeliveredOk(s) && NotesOk(s) && HeldBack(c).None?
    requires Join(s.replay, Some(p)) == Total(s.start, s.emitted[..s.taken])
    ensures var t := Deliver(s, p).(consumer := c);
            StreamOk(t) && DeliveredOk(t) && NotesOk(t)
  {
    DeliveredReplay(s, p);
    DeliverKeeps(s, p);
    DeliverStream(s, p, c);
  }

  lemma {:induction false} PublishKeeps(s: State)
    requires Inv(s) && DoPublish(s).Some?
    ensures Inv(DoPublish(s).value)
  {
    TakenJoinsReplay(s);
    if s.consumer.took.Some? {
      DeliveredState(s, s.consumer.took.value, Resume(s.consumer.after));
    } else {
      NothingHeld(s);
    }
  }

  lemma {:induction false} ReplayKeeps(s: State, due: bool)
    requires Inv(s) && DoReplay(s, due).Some?
    ensures Inv(DoReplay(s, due).value)
  {
    TakenJoinsReplay(s);
    NothingHeld(s);
    if s.replay.Some? {
      MergeIsLeastUpperBound(s.replay.value, s.replay.value, s.replay.value);
      DeliveredState(s, s.replay.value, Top);
    }
  }

  lemma {:induction false} StepKeeps(s: State, a: Action)
    requires Inv(s) && Step(s, a).Some?
    ensures Inv(Step(s, a).value)
  {
    match a {
      case Emit(t, p) => EmitKeeps(s, t, p);
      case Receive => ReceiveKeeps(s);
      case Take => TakeKeeps(s);
      case Publish => PublishKeeps(s);
      case Replay(due) => ReplayKeeps(s, due);
      case Announce(t) => AnnounceKeeps(s, t);
      case Send(t, n) => SendKeeps(s, t, n);
      case _ =>
    }
  }

  /** The invariant holds after every interleaving. */
  lemma {:induction false} RunKeeps(s: State, actions: seq<Action>)
    requires Inv(s) && Run(s, actions).Some?
    ensures Inv(Run(s, actions).value) && Run(s, actions).value.start == s.start
  {
    if actions != [] {
      var front, last := actions[..|actions| - 1], actions[|actions| - 1];
      RunKeeps(s, front);
      var t := Run(s, front).value;
      StepKeeps(t, last);
      StepKeepsStart(t, last);
    }
  }

  lemma {:induction false} StepKeepsStart(s: State, a: Action)
    requires Step(s, a).Some?
    ensures Step(s, a).value.start == s.start
  {
  }

  // What the handler sees.

  lemma {:induction false} ShownAt(d: seq<Delivery>, start: Option<Progress>, emitted: seq<Progress>, i: nat)
    requires ShownOk(d, start, emitted) && i < |d| && d[i].Snapshot?
    ensures d[i].upTo <= Covered(d) && d[i].upTo <= |emitted| && Total(start, emitted[..d[i].upTo]) == Some(d[i].progress)
  {
    if i < |d| - 1 {
      ShownAt(d[..|d| - 1], start, emitted, i);
    }
  }

  lemma {:induction false} ShownInOrder(d: seq<Delivery>, start: Option<Progress>, emitted: seq<Progress>, i: nat, j: nat)
    requires ShownOk(d, start, emitted) && i < j < |d| && d[i].Snapshot? && d[j].Snapshot?
    ensures d[i].upTo <= d[j].upTo
  {
    var front := d[..|d| - 1];
    if j < |d| - 1 {
      ShownInOrder(front, start, emitted, i, j);
    } else {
      ShownAt(front, start, emitted, i);
    }
  }

  /** In every interleaving: a delivered snapshot is exactly the field-wise maximum of the
      emissions up to some point, never a later one below an earlier one in any field. */
  lemma {:induction false} SnapshotsNeverDecrease(start: Option<Progress>, actions: seq<Action>, i: nat, j: nat)
    requires Run(Init(start), actions).Some?
    requires var d := Run(Init(start), actions).value.delivered;
             i < j < |d| && d[i].Snapshot? && d[j].Snapshot?
    ensures var s := Run(Init(start), actions).value;
            && AtMost(s.delivered[i].progress, s.delivered[j].progress)
            && s.delivered[i].upTo <= |s.emitted|
            && Some(s.delivered[i].progress) == Total(start, s.emitted[..s.delivered[i].upTo])
  {
    InitHolds(start);
    RunKeeps(Init(start), actions);
    var s := Run(Init(start), actions).value;
    var d := s.delivered;
    ShownAt(d, s.start, s.emitted, i);
    ShownAt(d, s.start, s.emitted, j);
    ShownInOrder(d, s.start, s.emitted, i, j);
    TotalGrows(start, s.emitted, d[i].upTo, d[j].upTo);
  }

  /** In every interleaving, nothing emitted is lost between the slot, the consumer's hands
      and the replay, and other events are delivered or queued once each in send order. */
  lemma {:induction false} NothingIsLost(start: Option<Progress>, actions: seq<Action>)
    requires Run(Init(start), actions).Some?
    ensures var s := Run(Init(start), actions).value;
            && Join(Join(s.replay, HeldBack(s.consumer)), s.latest) == Total(start, s.emitted)
            && Notes(s.delivered) + QueuedNotes(s.queue) == s.sent
            && |s.queue| <= EVENT_CAPACITY
  {
    InitHolds(start);
    RunKeeps(Init(start), actions);
    var s := Run(Init(start), actions).value;
    AllIsSomewhere(s);
  }

  lemma {:induction false} AllIsSomewhere(s: State)
    requires StreamOk(s)
    ensures Join(Join(s.replay, HeldBack(s.consumer)), s.latest) == Total(s.start, s.emitted)
  {
    TakenJoinsReplay(s);
    assert s.emitted == s.emitted[..s.taken] + s.emitted[s.taken..];
    TotalOfCut(s.start, s.emitted[..s.taken], s.emitted[s.taken..]);
  }

  function LastSnapshot(d: seq<Delivery>): Option<Progress> {
    if d == [] then None
    else
      var last := d[|d| - 1];
      if last.Snapshot? then Some(last.progress) else LastSnapshot(d[..|d| - 1])
  }

  lemma {:induction false} LastSnapshotIsTotal(d: seq<Delivery>, start: Option<Progress>, emitted: seq<Progress>)
    requires ShownOk(d, start, emitted)
    ensures LastSnapshot(d).Some? ==> Covered(d) <= |emitted| && LastSnapshot(d) == Total(start, emitted[..Covered(d)])
    ensures LastSnapshot(d).None? ==> Covered(d) == 0
  {
    if d != [] {
      LastSnapshotIsTotal(d[..|d| - 1], start, emitted);
    }
  }

  /** When the consumer is done, every other event was delivered once and in order, and the
      last snapshot delivered is the field-wise maximum of everything emitted. */
  lemma {:induction false} DrainDeliversEverything(start: Option<Progress>, actions: seq<Action>)
    requires Run(Init(start), actions).Some? && Run(Init(start), actions).value.consumer.Done?
    ensures var s := Run(Init(start), actions).value;
            && Notes(s.delivered) == s.sent
            && (s.emitted != [] ==> LastSnapshot(s.delivered) == Total(start, s.emitted))
            && s.replay == Total(start, s.emitted)
  {
    InitHolds(start);
    RunKeeps(Init(start), actions);
    var s := Run(Init(start), actions).value;
    NothingHeld(s);
    LastSnapshotIsTotal(s.delivered, start, s.emitted);
    assert s.emitted[..s.mark] == s.emitted;
    assert QueuedNotes([]) == [];
  }

  // No wake-up is missed.

  predicate SomeAnnouncing(s: State) {
    exists t :: t in s.producers && s.producers[t].Announcing?
  }

  /** While the flag is set an announcement is on its way: about to be sent, in the queue,
      being handled with a second delivery to come, or dropped for a queue so full that
      even the event just received leaves others behind it. */
  predicate FlagOk(s: State) {
    s.pending ==>
      || SomeAnnouncing(s)
      || ProgressReady in s.queue
      || ((s.consumer.Taking? || s.consumer.Storing?) && (s.consumer.after.Again? || |s.queue| >= EVENT_CAPACITY - 1))
      || |s.queue| >= EVENT_CAPACITY
  }

  /** Progress in the slot will be taken without waiting for the timeout. */
  predicate WakeOk(s: State) {
    s.latest.Some? ==>
      || !AllIdle(s)
      || s.queue != []
      || s.consumer.Taking?
      || ((s.consumer.Storing? || s.consumer.Publishing?) && s.consumer.after.Again?)
  }

  lemma {:induction false} AnnouncingKept(s: State, t: nat, p: Producer)
    requires SomeAnnouncing(s) && !ProducerOf(s, t).Announcing?
    ensures SomeAnnouncing(s.(producers := s.producers[t := p]))
  {
    var u :| u in s.producers && s.producers[u].Announcing?;
    var next := s.producers[t := p];
    assert u in next && next[u].Announcing?;
  }

  lemma {:induction false} NotIdle(s: State, t: nat)
    requires t in s.producers && !s.producers[t].Idle?
    ensures !AllIdle(s)
  {
  }

  lemma {:induction false} EmitKeepsWake(s: State, t: nat, p: Progress)
    requires FlagOk(s) && WakeOk(s) && DoEmit(s, t, p).Some?
    ensures FlagOk(DoEmit(s, t, p).value) && WakeOk(DoEmit(s, t, p).value)
  {
    NotIdle(DoEmit(s, t, p).value, t);
    if SomeAnnouncing(s) {
      AnnouncingKept(s, t, Swapping);
    }
  }

  lemma {:induction false} SwapKeepsWake(s: State, t: nat)
    requires FlagOk(s) && WakeOk(s) && DoSwap(s, t).Some?
    ensures FlagOk(DoSwap(s, t).value) && WakeOk(DoSwap(s, t).value)
  {
    var next := DoSwap(s, t).value;
    if !s.pending {
      assert next.producers[t].Announcing?;
    } else if SomeAnnouncing(s) {
      AnnouncingKept(s, t, Idle);
      var u :| u in next.producers && next.producers[u].Announcing?;
      NotIdle(next, u);
    }
  }

  lemma {:induction false} AnnounceKeepsWake(s: State, t: nat)
    requires DoAnnounce(s, t).Some?
    ensures FlagOk(DoAnnounce(s, t).value) && WakeOk(DoAnnounce(s, t).value)
  {
    var next := DoAnnounce(s, t).value;
    assert |s.queue| < EVENT_CAPACITY ==> next.queue[|s.queue|] == ProgressReady;
  }

  lemma {:induction false} ReceiveKeepsWake(s: State)
    requires FlagOk(s) && DoReceive(s).Some?
    ensures FlagOk(DoReceive(s).value) && WakeOk(DoReceive(s).value)
  {
    assert s.queue == [s.queue[0]] + s.queue[1..];
  }

  lemma {:induction false} StepKeepsWake(s: State, a: Action)
    requires FlagOk(s) && WakeOk(s) && Step(s, a).Some?
    ensures FlagOk(Step(s, a).value) && WakeOk(Step(s, a).value)
  {
    match a {
      case Emit(t, p) => EmitKeepsWake(s, t, p);
      case Swap(t) => SwapKeepsWake(s, t);
      case Announce(t) => AnnounceKeepsWake(s, t);
      case Receive => ReceiveKeepsWake(s);
      case Send(_, _) =>
        assert ProgressReady in s.queue ==> ProgressReady in Step(s, a).value.queue;
      case _ =>
    }
  }

  lemma {:induction false} RunKeepsWake(s: State, actions: seq<Action>)
    requires FlagOk(s) && WakeOk(s) && Run(s, actions).Some?
    ensures FlagOk(Run(s, actions).value) && WakeOk(Run(s, actions).value)
  {
    if actions != [] {
      var front := actions[..|actions| - 1];
      RunKeepsWake(s, front);
      StepKeepsWake(Run(s, front).value, actions[|actions| - 1]);
    }
  }

  /** In every interleaving the take and the flag never strand a snapshot: when the consumer
      waits and the slot is full, the queue is not empty or a producer is still emitting. */
  lemma {:induction false} NoMissedWakeUp(start: Option<Progress>, actions: seq<Action>)
    requires Run(Init(start), actions).Some?
    ensures var s := Run(Init(start), actions).value;
            s.consumer.Top? && s.latest.Some? && AllIdle(s) ==> s.queue != []
  {
    RunKeepsWake(Init(start), actions);
  }
}

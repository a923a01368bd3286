/**
 The sensor thread: a message queue, and the precapture protocol in which the start of a metering
 posts the message that will end it, after a delay in which other messages may arrive.
 */
module SensorMessages {
  import opened CameraStream
  import opened Options

  datatype Message = Precapture(id: int) | AutoFocus(id: int) | CancelAutoFocus(id: int) | OtherMessage

  datatype Notification =
    | AfFocusedLocked(id: int) | AfInactive(id: int)
    | AePrecapture(id: int) | AePrecaptureWb(id: int)
    | AeConverged(id: int) | AwbConverged(id: int)

  /** The thread's state between two atomic steps; `delayed` is the message it will post after its sleep. */
  datatype State = State(queue: seq<Message>, inPrecapture: bool, delayed: Option<Message>,
                         log: seq<Notification>, triggers: nat)

  function Precaptures(queue: seq<Message>): nat {
    if queue == [] then 0 else Precaptures(queue[..|queue| - 1]) + if queue[|queue| - 1].Precapture? then 1 else 0
  }

  lemma {:induction false} PrecapturesFront(m: Message, queue: seq<Message>)
    ensures Precaptures([m] + queue) == Precaptures(queue) + if m.Precapture? then 1 else 0
  {
    if queue != [] {
      var n := |queue| - 1;
      PrecapturesFront(m, queue[..n]);
      assert ([m] + queue)[..n + 1] == [m] + queue[..n];
    } else {
      assert [m] + queue == [m] && [m][..0] == [];
    }
  }

  lemma PrecapturesBack(queue: seq<Message>, m: Message)
    ensures Precaptures(queue + [m]) == Precaptures(queue) + if m.Precapture? then 1 else 0
  {
    assert (queue + [m])[..|queue|] == queue;
  }

  /** The exposure states notified, true for PRECAPTURE and false for CONVERGED. */
  function Phases(log: seq<Notification>): seq<bool> {
    if log == [] then []
    else Phases(log[..|log| - 1])
         + match log[|log| - 1]
           case AePrecapture(_) => [true]
           case AeConverged(_) => [false]
           case _ => []
  }

  lemma PhasesTwo(log: seq<Notification>, a: Notification, b: Notification)
    requires b.AePrecaptureWb? || b.AwbConverged?
    ensures Phases(log + [a, b]) == Phases(log + [a])
    ensures a.AePrecapture? ==> Phases(log + [a]) == Phases(log) + [true]
    ensures a.AeConverged? ==> Phases(log + [a]) == Phases(log) + [false]
  {
    assert (log + [a, b])[..|log| + 1] == log + [a];
    assert (log + [a])[..|log|] == log;
  }

  lemma PhasesOther(log: seq<Notification>, a: Notification)
    requires a.AfFocusedLocked? || a.AfInactive?
    ensures Phases(log + [a]) == Phases(log)
  {
    assert (log + [a])[..|log|] == log;
  }

  /** sendMessage from another thread. */
  function Send(s: State, m: Message): State {
    s.(queue := s.queue + [m], triggers := s.triggers + if m.Precapture? then 1 else 0)
  }

  /** threadLoop takes the oldest message and processes it, up to the delay if it starts a metering. */
  function Take(s: State): State
    requires s.queue != [] && s.delayed == None
  {
    var rest := s.(queue := s.queue[1..]);
    match s.queue[0]
    case AutoFocus(id) => rest.(log := s.log + [AfFocusedLocked(id)])
    case CancelAutoFocus(id) => rest.(log := s.log + [AfInactive(id)])
    case Precapture(id) =>
      if !s.inPrecapture then
        rest.(inPrecapture := true, delayed := Some(Precapture(id)), log := s.log + [AePrecapture(id), AePrecaptureWb(id)])
      else
        rest.(inPrecapture := false, log := s.log + [AeConverged(id), AwbConverged(id)])
    case OtherMessage => rest
  }

  /** The sleep is over. */
  function Post(s: State): State
    requires s.delayed.Some?
  {
    s.(queue := s.queue + [s.delayed.value], delayed := None)
  }

  function Delayed(s: State): nat { if s.delayed.Some? then 1 else 0 }

  /**
   PRECAPTURE and CONVERGED alternate; a metering in progress has its end in the queue or about to be
   posted; and every trigger not yet answered by a CONVERGED is waiting.
   */
  ghost predicate Protocol(s: State) {
    var phases := Phases(s.log);
    && (forall i :: 0 <= i < |phases| ==> phases[i] == (i % 2 == 0))
    && (s.inPrecapture <==> |phases| % 2 == 1)
    && Precaptures(s.queue) + Delayed(s) + |phases| / 2 == s.triggers
    && (s.inPrecapture ==> Precaptures(s.queue) + Delayed(s) > 0)
    && (s.delayed.Some? ==> s.inPrecapture && s.delayed.value.Precapture?)
  }

  const INITIAL: State := State([], false, None, [], 0)

  lemma SendKeepsProtocol(s: State, m: Message)
    requires Protocol(s)
    ensures Protocol(Send(s, m))
  {
    PrecapturesBack(s.queue, m);
  }

  lemma TakeKeepsProtocol(s: State)
    requires Protocol(s) && s.queue != [] && s.delayed == None
    ensures Protocol(Take(s))
  {
    hide Phases, Precaptures;
    var m := s.queue[0];
    assert s.queue == [m] + s.queue[1..];
    PrecapturesFront(m, s.queue[1..]);
    match m
    case AutoFocus(id) => PhasesOther(s.log, AfFocusedLocked(id));
    case CancelAutoFocus(id) => PhasesOther(s.log, AfInactive(id));
    case Precapture(id) =>
      if s.inPrecapture {
        PhasesTwo(s.log, AeConverged(id), AwbConverged(id));
      } else {
        PhasesTwo(s.log, AePrecapture(id), AePrecaptureWb(id));
      }
    case OtherMessage =>
  }

  lemma PostKeepsProtocol(s: State)
    requires Protocol(s) && s.delayed.Some?
    ensures Protocol(Post(s))
  {
    PrecapturesBack(s.queue, s.delayed.value);
  }

  datatype Step = SendStep(m: Message) | TakeStep | PostStep

  /** A step that is not possible changes nothing. */
  function Next(s: State, step: Step): State {
    match step
    case SendStep(m) => Send(s, m)
    case TakeStep => if s.queue != [] && s.delayed == None then Take(s) else s
    case PostStep => if s.delayed.Some? then Post(s) else s
  }

  function RunFrom(s: State, steps: seq<Step>): State {
    if steps == [] then s else Next(RunFrom(s, steps[..|steps| - 1]), steps[|steps| - 1])
  }

  function Run(steps: seq<Step>): State {
    RunFrom(INITIAL, steps)
  }

  lemma {:induction false} RunOn(s: State, a: seq<Step>, b: seq<Step>)
    ensures RunFrom(s, a + b) == RunFrom(RunFrom(s, a), b)
  {
    if b == [] {
      assert a + b == a;
    } else {
      var n := |b| - 1;
      RunOn(s, a, b[..n]);
      assert (a + b)[..|a + b| - 1] == a + b[..n];
    }
  }

  /** The protocol holds after every interleaving of triggers with the thread's own steps. */
  lemma {:induction false} RunKeepsProtocol(steps: seq<Step>)
    ensures Protocol(Run(steps))
  {
    if steps != [] {
      var n := |steps| - 1;
      var s := Run(steps[..n]);
      RunKeepsProtocol(steps[..n]);
      match steps[n]
      case SendStep(m) => SendKeepsProtocol(s, m);
      case TakeStep => if s.queue != [] && s.delayed == None { TakeKeepsProtocol(s); }
      case PostStep => if s.delayed.Some? { PostKeepsProtocol(s); }
    }
  }

  /** Whenever nothing is queued or about to be posted, each trigger has had one start and one end. */
  lemma QuietMeansDone(steps: seq<Step>)
    requires Run(steps).queue == [] && Run(steps).delayed == None
    ensures !Run(steps).inPrecapture
    ensures |Phases(Run(steps).log)| == 2 * Run(steps).triggers
  {
    RunKeepsProtocol(steps);
  }

  function SentBy(step: Step): seq<Message> {
    match step case SendStep(m) => [m] case _ => []
  }

  /** The messages that other threads have sent, in order. */
  function AllSent(steps: seq<Step>): seq<Message> {
    if steps == [] then [] else AllSent(steps[..|steps| - 1]) + SentBy(steps[|steps| - 1])
  }

  /** What the focus messages of a queue ask to be notified: locked for a trigger, inactive for a cancel, under its id. */
  function FocusAsked(queue: seq<Message>): seq<Notification> {
    if queue == [] then []
    else
      (match queue[0]
       case AutoFocus(id) => [AfFocusedLocked(id)]
       case CancelAutoFocus(id) => [AfInactive(id)]
       case _ => [])
      + FocusAsked(queue[1..])
  }

  lemma {:induction false} FocusAskedMore(queue: seq<Message>, m: Message)
    ensures FocusAsked(queue + [m]) == FocusAsked(queue) + FocusAsked([m])
  {
    if queue == [] {
      assert [] + [m] == [m];
    } else {
      assert (queue + [m])[1..] == queue[1..] + [m];
      FocusAskedFirst(queue + [m]);
      FocusAskedFirst(queue);
      hide FocusAsked;
      FocusAskedMore(queue[1..], m);
    }
  }

  /** The focus notifications of a log. */
  function FocusOnly(log: seq<Notification>): seq<Notification> {
    if log == [] then []
    else
      var n := log[|log| - 1];
      FocusOnly(log[..|log| - 1]) + if n.AfFocusedLocked? || n.AfInactive? then [n] else []
  }

  lemma FocusOnlyMore(log: seq<Notification>, a: Notification, b: Notification)
    ensures FocusOnly(log + [a]) == FocusOnly(log) + if a.AfFocusedLocked? || a.AfInactive? then [a] else []
    ensures FocusOnly(log + [a, b]) == FocusOnly(log + [a]) + if b.AfFocusedLocked? || b.AfInactive? then [b] else []
  {
    assert (log + [a])[..|log|] == log && (log + [a, b])[..|log| + 1] == log + [a];
  }

  ghost predicate FocusKept(s: State, asked: seq<Notification>) {
    FocusOnly(s.log) + FocusAsked(s.queue) == asked
  }

  lemma TakeKeepsFocus(s: State, asked: seq<Notification>)
    requires s.queue != [] && s.delayed == None && FocusKept(s, asked)
    ensures FocusKept(Take(s), asked)
  {
    hide FocusOnly, FocusAsked;
    FocusAskedFirst(s.queue);
    match s.queue[0]
    case AutoFocus(id) => FocusOnlyMore(s.log, AfFocusedLocked(id), AfInactive(id));
    case CancelAutoFocus(id) => FocusOnlyMore(s.log, AfInactive(id), AfInactive(id));
    case Precapture(id) =>
      FocusOnlyMore(s.log, AePrecapture(id), AePrecaptureWb(id));
      FocusOnlyMore(s.log, AeConverged(id), AwbConverged(id));
    case OtherMessage =>
  }

  lemma FocusAskedFirst(queue: seq<Message>)
    requires queue != []
    ensures FocusAsked(queue) == match queue[0]
                                 case AutoFocus(id) => [AfFocusedLocked(id)] + FocusAsked(queue[1..])
                                 case CancelAutoFocus(id) => [AfInactive(id)] + FocusAsked(queue[1..])
                                 case _ => FocusAsked(queue[1..])
  {
  }

  lemma NextKeepsFocus(s: State, step: Step, sent: seq<Message>)
    requires Protocol(s) && FocusKept(s, FocusAsked(sent))
    ensures FocusKept(Next(s, step), FocusAsked(sent + SentBy(step)))
  {
    hide FocusOnly, FocusAsked, Protocol, Take;
    assert sent + [] == sent;
    match step
    case SendStep(m) =>
      FocusAskedMore(s.queue, m);
      FocusAskedMore(sent, m);
    case TakeStep =>
      if s.queue != [] && s.delayed == None {
        TakeKeepsFocus(s, FocusAsked(sent));
      }
    case PostStep =>
      if s.delayed.Some? {
        FocusAskedMore(s.queue, s.delayed.value);
        NothingAsked(s);
      }
  }

  /** Every focus message sent is answered once, in order and under its id, or is still queued. */
  lemma {:induction false} FocusIsAnswered(steps: seq<Step>)
    ensures FocusOnly(Run(steps).log) + FocusAsked(Run(steps).queue) == FocusAsked(AllSent(steps))
  {
    hide FocusOnly, FocusAsked, Protocol, Next, SentBy;
    if steps == [] {
      NothingKept();
    } else {
      var n := |steps| - 1;
      FocusIsAnswered(steps[..n]);
      RunKeepsProtocol(steps[..n]);
      NextKeepsFocus(Run(steps[..n]), steps[n], AllSent(steps[..n]));
    }
  }

  lemma NothingKept()
    ensures FocusKept(INITIAL, FocusAsked([])) && IdsKept(INITIAL, TriggerIds([]))
  {
  }

  lemma NothingAsked(s: State)
    requires Protocol(s) && s.delayed.Some?
    ensures FocusAsked([s.delayed.value]) == []
  {
  }

  /** The ids of the triggers in a queue. */
  function TriggerIds(queue: seq<Message>): multiset<int> {
    if queue == [] then multiset{}
    else (if queue[0].Precapture? then multiset{queue[0].id} else multiset{}) + TriggerIds(queue[1..])
  }

  lemma {:induction false} TriggerIdsMore(queue: seq<Message>, m: Message)
    ensures TriggerIds(queue + [m]) == TriggerIds(queue) + if m.Precapture? then multiset{m.id} else multiset{}
  {
    if queue == [] {
      assert [] + [m] == [m] && [m][1..] == [];
    } else {
      assert (queue + [m])[1..] == queue[1..] + [m];
      TriggerIdsMore(queue[1..], m);
    }
  }

  /** The ids of the meterings that a log ends. */
  function ConvergedIds(log: seq<Notification>): multiset<int> {
    if log == [] then multiset{}
    else
      var n := log[|log| - 1];
      ConvergedIds(log[..|log| - 1]) + if n.AeConverged? then multiset{n.id} else multiset{}
  }

  lemma ConvergedIdsMore(log: seq<Notification>, a: Notification, b: Notification)
    ensures ConvergedIds(log + [a]) == ConvergedIds(log) + if a.AeConverged? then multiset{a.id} else multiset{}
    ensures ConvergedIds(log + [a, b]) == ConvergedIds(log + [a]) + if b.AeConverged? then multiset{b.id} else multiset{}
  {
    assert (log + [a])[..|log|] == log && (log + [a, b])[..|log| + 1] == log + [a];
  }

  function DelayedIds(s: State): multiset<int> {
    match s.delayed
    case Some(Precapture(id)) => multiset{id}
    case _ => multiset{}
  }

  ghost predicate IdsKept(s: State, sent: multiset<int>) {
    ConvergedIds(s.log) + TriggerIds(s.queue) + DelayedIds(s) == sent
  }

  lemma TakeKeepsIds(s: State, sent: multiset<int>)
    requires s.queue != [] && s.delayed == None && IdsKept(s, sent)
    ensures IdsKept(Take(s), sent)
  {
    hide ConvergedIds;
    match s.queue[0]
    case AutoFocus(id) => ConvergedIdsMore(s.log, AfFocusedLocked(id), AfInactive(id));
    case CancelAutoFocus(id) => ConvergedIdsMore(s.log, AfInactive(id), AfInactive(id));
    case Precapture(id) =>
      ConvergedIdsMore(s.log, AePrecapture(id), AePrecaptureWb(id));
      ConvergedIdsMore(s.log, AeConverged(id), AwbConverged(id));
    case OtherMessage =>
  }

  lemma NextKeepsIds(s: State, step: Step, sent: seq<Message>)
    requires Protocol(s) && IdsKept(s, TriggerIds(sent))
    ensures IdsKept(Next(s, step), TriggerIds(sent + SentBy(step)))
  {
    hide ConvergedIds, TriggerIds, Protocol, Take;
    assert sent + [] == sent;
    match step
    case SendStep(m) =>
      TriggerIdsMore(s.queue, m);
      TriggerIdsMore(sent, m);
    case TakeStep =>
      if s.queue != [] && s.delayed == None {
        TakeKeepsIds(s, TriggerIds(sent));
      }
    case PostStep =>
      if s.delayed.Some? {
        TriggerIdsMore(s.queue, s.delayed.value);
        DelayedIsTrigger(s);
      }
  }

  /** Though triggers may be crossed, each one's id is notified as converged once, or is still queued or about to be. */
  lemma {:induction false} IdsAreKept(steps: seq<Step>)
    ensures IdsKept(Run(steps), TriggerIds(AllSent(steps)))
  {
    hide IdsKept, TriggerIds, Protocol, Next, SentBy;
    if steps == [] {
      NothingKept();
    } else {
      var n := |steps| - 1;
      IdsAreKept(steps[..n]);
      RunKeepsProtocol(steps[..n]);
      NextKeepsIds(Run(steps[..n]), steps[n], AllSent(steps[..n]));
    }
  }

  lemma DelayedIsTrigger(s: State)
    requires Protocol(s) && s.delayed.Some?
    ensures s.delayed.value.Precapture?
  {
  }

  /** A notification about the exposure at place i is followed by the one about the white balance with its id. */
  ghost predicate FollowedAt(log: seq<Notification>, i: nat)
    requires i < |log|
  {
    && (log[i].AePrecapture? ==> i + 1 < |log| && log[i + 1] == AePrecaptureWb(log[i].id))
    && (log[i].AeConverged? ==> i + 1 < |log| && log[i + 1] == AwbConverged(log[i].id))
  }

  ghost predicate BalanceFollows(log: seq<Notification>) {
    forall i :: 0 <= i < |log| ==> FollowedAt(log, i)
  }

  lemma {:induction false} BalanceAlwaysFollows(steps: seq<Step>)
    ensures BalanceFollows(Run(steps).log)
  {
    if steps != [] {
      var n := |steps| - 1;
      BalanceAlwaysFollows(steps[..n]);
      NextKeepsBalance(Run(steps[..n]), steps[n]);
    }
  }

  lemma NextKeepsBalance(s: State, step: Step)
    requires BalanceFollows(s.log)
    ensures BalanceFollows(Next(s, step).log)
  {
    hide BalanceFollows;
    if step == TakeStep && s.queue != [] && s.delayed == None {
      match s.queue[0]
      case AutoFocus(id) => OneMore(s.log, AfFocusedLocked(id));
      case CancelAutoFocus(id) => OneMore(s.log, AfInactive(id));
      case Precapture(id) =>
        TwoMore(s.log, AePrecapture(id), AePrecaptureWb(id));
        TwoMore(s.log, AeConverged(id), AwbConverged(id));
      case OtherMessage =>
    }
  }

  lemma OneMore(log: seq<Notification>, a: Notification)
    requires BalanceFollows(log) && (a.AfFocusedLocked? || a.AfInactive?)
    ensures BalanceFollows(log + [a])
  {
    var more := log + [a];
    assert more[|log|] == a;
    forall i | 0 <= i < |log|
      ensures FollowedAt(more, i)
    {
      assert FollowedAt(log, i);
    }
  }

  lemma TwoMore(log: seq<Notification>, a: Notification, b: Notification)
    requires BalanceFollows(log)
    requires (a.AePrecapture? && b == AePrecaptureWb(a.id)) || (a.AeConverged? && b == AwbConverged(a.id))
    ensures BalanceFollows(log + [a, b])
  {
    var more := log + [a, b];
    assert more[|log|] == a && more[|log| + 1] == b;
    forall i | 0 <= i < |log|
      ensures FollowedAt(more, i)
    {
      assert FollowedAt(log, i);
    }
  }

  /** The message that is about to be posted has the id under which its metering's start was notified last. */
  lemma {:induction false} DelayedHasStartId(steps: seq<Step>)
    requires Run(steps).delayed.Some?
    ensures var s, n := Run(steps), |Run(steps).log|;
            n >= 2 && s.delayed.value.Precapture?
            && s.log[n - 2..] == [AePrecapture(s.delayed.value.id), AePrecaptureWb(s.delayed.value.id)]
  {
    var n := |steps| - 1;
    if steps[n].SendStep? || Run(steps[..n]).delayed.Some? {
      DelayedHasStartId(steps[..n]);
    }
  }

  /** At rest every trigger sent has been notified as converged under its own id. */
  lemma QuietMeansAnswered(steps: seq<Step>)
    requires Run(steps).queue == [] && Run(steps).delayed == None
    ensures ConvergedIds(Run(steps).log) == TriggerIds(AllSent(steps))
    ensures FocusOnly(Run(steps).log) == FocusAsked(AllSent(steps))
  {
    IdsAreKept(steps);
    FocusIsAnswered(steps);
  }

  /** Left alone, the thread comes to rest: a start uses up a message and posts one, but only once in a row. */
  function Drained(s: State): (r: State)
    requires s.delayed.Some? ==> s.delayed.value.Precapture?
    ensures r.queue == [] && r.delayed == None && r.triggers == s.triggers
    decreases |s.queue| + Delayed(s), if s.inPrecapture then 0 else 1, Delayed(s)
  {
    if s.delayed.Some? then Drained(Post(s))
    else if s.queue == [] then s
    else Drained(Take(s))
  }

  lemma DrainedKeepsProtocol(s: State)
    requires Protocol(s)
    ensures Protocol(Drained(s)) && |Phases(Drained(s).log)| == 2 * s.triggers
    decreases |s.queue| + Delayed(s), if s.inPrecapture then 0 else 1, Delayed(s)
  {
    if s.delayed.Some? {
      PostKeepsProtocol(s);
      DrainedKeepsProtocol(Post(s));
    } else if s.queue != [] {
      TakeKeepsProtocol(s);
      DrainedKeepsProtocol(Take(s));
    }
  }

  /** The id that the CONVERGED of the metering in progress carries, if a message that ends it is queued. */
  function EndId(s: State): Option<int>
    requires s.inPrecapture && s.delayed == None
    decreases |s.queue|
  {
    if s.queue == [] then None
    else if Take(s).inPrecapture then EndId(Take(s))
    else
      match Take(s).log[|s.log|]
      case AeConverged(id) => Some(id)
      case _ => None
  }

  function FirstPrecapture(queue: seq<Message>): Option<int> {
    if queue == [] then None else if queue[0].Precapture? then Some(queue[0].id) else FirstPrecapture(queue[1..])
  }

  /** Whichever trigger is queued first ends the metering. */
  lemma {:induction false} EndIsFirstQueued(s: State)
    requires s.inPrecapture && s.delayed == None
    ensures EndId(s) == FirstPrecapture(s.queue)
    decreases |s.queue|
  {
    if s.queue != [] && !s.queue[0].Precapture? {
      EndIsFirstQueued(Take(s));
    }
  }

  lemma {:induction false} FirstOfMore(queue: seq<Message>, m: Message)
    ensures FirstPrecapture(queue + [m])
         == if FirstPrecapture(queue).Some? then FirstPrecapture(queue) else if m.Precapture? then Some(m.id) else None
  {
    if queue != [] {
      assert (queue + [m])[1..] == queue[1..] + [m];
      FirstOfMore(queue[1..], m);
    }
  }

  /**
   A metering's end carries its own trigger's id just when, as its message is posted, no trigger is
   queued or the first one queued has the same id.
   */
  lemma EndHasOwnId(s: State, id: int)
    requires s.inPrecapture && s.delayed == Some(Precapture(id))
    ensures EndId(Post(s)) == Some(id) <==> FirstPrecapture(s.queue) == None || FirstPrecapture(s.queue) == Some(id)
  {
    EndIsFirstQueued(Post(s));
    FirstOfMore(s.queue, Precapture(id));
  }

  /** What is sent after the message was posted cannot change that. */
  lemma LaterMessagesDoNotMatter(s: State, m: Message)
    requires s.inPrecapture && s.delayed == None && EndId(s).Some?
    ensures EndId(Send(s, m)) == EndId(s)
  {
    EndIsFirstQueued(s);
    EndIsFirstQueued(Send(s, m));
    FirstOfMore(s.queue, m);
  }

  /** A trigger that arrives during the delay ends the metering it did not start. */
  lemma TriggersGetCrossed()
    ensures Run([SendStep(Precapture(1)), TakeStep, SendStep(Precapture(2)), PostStep, TakeStep]).log
         == [AePrecapture(1), AePrecaptureWb(1), AeConverged(2), AwbConverged(2)]
  {
    var a, b, c, d, e := SendStep(Precapture(1)), TakeStep, SendStep(Precapture(2)), PostStep, TakeStep;
    assert [a, b, c, d, e][..4] == [a, b, c, d] && [a, b, c, d][..3] == [a, b, c];
    assert [a, b, c][..2] == [a, b] && [a, b][..1] == [a] && [a][..0] == [];
    assert RunFrom(INITIAL, [a]) == Send(INITIAL, Precapture(1));
    assert RunFrom(INITIAL, [a, b]).queue == [];
    assert RunFrom(INITIAL, [a, b, c]) == Send(RunFrom(INITIAL, [a, b]), Precapture(2));
    assert RunFrom(INITIAL, [a, b, c, d]).queue == [Precapture(2), Precapture(1)];
  }

  function Sends(s: State, ms: seq<Message>): (r: State)
    ensures r.delayed == s.delayed
  {
    if ms == [] then s else Send(Sends(s, ms[..|ms| - 1]), ms[|ms| - 1])
  }

  /** What happens to the thread: a message is sent to it, or it takes one turn; `arrivals` come in if it sleeps. */
  datatype Event = Sending(m: Message) | Turn(arrivals: seq<Message>)

  function SendSteps(ms: seq<Message>): seq<Step> {
    if ms == [] then [] else SendSteps(ms[..|ms| - 1]) + [SendStep(ms[|ms| - 1])]
  }

  /** The atomic steps of an event in a state; a turn with nothing queued waits and does nothing. */
  function StepsOf(s: State, e: Event): seq<Step> {
    match e
    case Sending(m) => [SendStep(m)]
    case Turn(arrivals) =>
      if s.queue == [] || s.delayed.Some? then []
      else if Take(s).delayed.Some? then [TakeStep] + SendSteps(arrivals) + [PostStep]
      else [TakeStep]
  }

  function AllSteps(s: State, es: seq<Event>): seq<Step> {
    if es == [] then []
    else
      var before := AllSteps(s, es[..|es| - 1]);
      before + StepsOf(RunFrom(s, before), es[|es| - 1])
  }

  lemma {:induction false} SendsAreSteps(s: State, ms: seq<Message>)
    ensures RunFrom(s, SendSteps(ms)) == Sends(s, ms)
  {
    if ms != [] {
      var n := |ms| - 1;
      SendsAreSteps(s, ms[..n]);
      var front := SendSteps(ms[..n]);
      assert (front + [SendStep(ms[n])])[..|front|] == front;
    }
  }

  /** A turn, in atomic steps. */
  lemma TurnIsSteps(s: State, arrivals: seq<Message>)
    requires s.queue != [] && s.delayed == None
    ensures RunFrom(s, StepsOf(s, Turn(arrivals)))
         == if Take(s).delayed.Some? then Post(Sends(Take(s), arrivals)) else Take(s)
  {
    hide Take, Sends;
    OneStep(s, TakeStep);
    if Take(s).delayed.Some? {
      var sends := SendSteps(arrivals);
      RunOn(s, [TakeStep], sends);
      SendsAreSteps(Take(s), arrivals);
      RunOn(s, [TakeStep] + sends, [PostStep]);
      OneStep(RunFrom(s, [TakeStep] + sends), PostStep);
    }
  }

  lemma OneStep(s: State, step: Step)
    ensures RunFrom(s, [step]) == Next(s, step)
  {
    assert [step][..0] == [];
  }

  class NXSensorThread {
    const queue: NXQueue<Message>
    var aeInPrecapture: bool
    var log: seq<Notification>
    ghost var triggers: nat

    constructor ()
      ensures Snapshot() == INITIAL && fresh(queue)
    {
      queue := new NXQueue<Message>();
      aeInPrecapture, log, triggers := false, [], 0;
    }

    ghost function Snapshot(): State
      reads this, queue
    {
      State(queue.Fifo(), aeInPrecapture, None, log, triggers)
    }

    /** sendMessage, called by other threads. */
    method SendMessage(m: Message)
      modifies this`triggers, queue
      ensures Snapshot() == Send(old(Snapshot()), m)
    {
      queue.Queue(m);
      triggers := triggers + if m.Precapture? then 1 else 0;
    }

    /** sendMessageDelayed from the thread itself; `arrivals` come in from elsewhere while it sleeps. */
    method SendMessageDelayed(m: Message, arrivals: seq<Message>)
      requires m.Precapture?
      modifies this`triggers, queue
      ensures Snapshot() == Post(Sends(old(Snapshot()).(delayed := Some(m)), arrivals))
    {
      assert arrivals[..|arrivals|] == arrivals;
      for i := 0 to |arrivals|
        invariant aeInPrecapture == old(aeInPrecapture) && log == old(log)
        invariant Snapshot().(delayed := Some(m)) == Sends(old(Snapshot()).(delayed := Some(m)), arrivals[..i])
      {
        assert arrivals[..i + 1][..i] == arrivals[..i];
        SendMessage(arrivals[i]);
      }
      queue.Queue(m);
    }

    /** processMessage */
    method ProcessMessage(msg: Message, arrivals: seq<Message>)
      modifies this, queue
      ensures var before := old(Snapshot()).(queue := [msg] + old(queue.Fifo()));
              Snapshot() == if Take(before).delayed.Some? then Post(Sends(Take(before), arrivals)) else Take(before)
    {
      ghost var before := Snapshot().(queue := [msg] + queue.Fifo());
      assert before.queue[1..] == queue.Fifo();
      match msg
      case AutoFocus(id) =>
        log := log + [AfFocusedLocked(id)];
      case CancelAutoFocus(id) =>
        log := log + [AfInactive(id)];
      case Precapture(id) =>
        if !aeInPrecapture {
          aeInPrecapture := true;
          log := log + [AePrecapture(id), AePrecaptureWb(id)];
          SendMessageDelayed(Precapture(id), arrivals);
        } else {
          aeInPrecapture := false;
          log := log + [AeConverged(id), AwbConverged(id)];
        }
      case OtherMessage =>
    }

    /** threadLoop, once the queue is not empty. */
    method ThreadLoop(arrivals: seq<Message>)
      requires queue.Fifo() != []
      modifies this, queue
      ensures var s := Take(old(Snapshot()));
              Snapshot() == if s.delayed.Some? then Post(Sends(s, arrivals)) else s
    {
      ghost var fifo := queue.Fifo();
      var msg := queue.Dequeue();
      assert [msg] + queue.Fifo() == fifo;
      ProcessMessage(msg, arrivals);
    }

    /** Any messages and turns: together they are one run of the protocol's steps. */
    method Session(es: seq<Event>)
      modifies this, queue
      ensures Snapshot() == RunFrom(old(Snapshot()), AllSteps(old(Snapshot()), es))
      ensures old(Snapshot()) == INITIAL ==> Snapshot() == Run(AllSteps(INITIAL, es)) && Protocol(Snapshot())
    {
      hide RunFrom, AllSteps, StepsOf, Protocol;
      ghost var s := Snapshot();
      NoSteps(s);
      assert es[..|es|] == es;
      for i := 0 to |es|
        invariant Snapshot() == RunFrom(s, AllSteps(s, es[..i]))
      {
        MoreSteps(s, es[..i], es[i]);
        assert es[..i + 1] == es[..i] + [es[i]];
        match es[i]
        case Sending(m) =>
          SendIsStep(Snapshot(), m);
          SendMessage(m);
        case Turn(arrivals) =>
          var empty := queue.IsEmpty();
          if empty {
            NoTurn(Snapshot(), arrivals);
          } else {
            TurnIsSteps(Snapshot(), arrivals);
            ThreadLoop(arrivals);
          }
      }
      RunKeepsProtocol(AllSteps(s, es));
    }
  }

  lemma NoSteps(s: State)
    ensures RunFrom(s, AllSteps(s, [])) == s
  {
  }

  lemma MoreSteps(s: State, es: seq<Event>, e: Event)
    ensures var t := RunFrom(s, AllSteps(s, es)); RunFrom(s, AllSteps(s, es + [e])) == RunFrom(t, StepsOf(t, e))
  {
    hide StepsOf;
    assert (es + [e])[..|es|] == es;
    RunOn(s, AllSteps(s, es), StepsOf(RunFrom(s, AllSteps(s, es)), e));
  }

  lemma SendIsStep(s: State, m: Message)
    ensures RunFrom(s, StepsOf(s, Sending(m))) == Send(s, m)
  {
    OneStep(s, SendStep(m));
  }

  lemma NoTurn(s: State, arrivals: seq<Message>)
    requires s.queue == []
    ensures RunFrom(s, StepsOf(s, Turn(arrivals))) == s
  {
  }
}

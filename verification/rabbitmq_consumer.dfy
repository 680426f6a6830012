/** The queue consumer (infrastructure/messaging/rabbitmq_consumer.go): the
    topology it declares when built, and the loop that acknowledges or requeues
    each delivery according to the handler's outcome. The broker itself is not
    modelled: each broker call's success is an input, and so is the order in
    which cancellation, channel closure and deliveries arrive. */
module Consumer {
  import opened Wrappers

  /** Defaults of RABBITMQ_DLQ_TTL (milliseconds) and RABBITMQ_PREFETCH_COUNT. */
  const DefaultDlqTtl: int := 30000
  const DefaultPrefetchCount: int := 1

  const DlxSuffix: string := "-dlx"
  const DlqSuffix: string := "-dlq"

  function DlxName(queue: string): string { queue + DlxSuffix }
  function DlqName(queue: string): string { queue + DlqSuffix }

  datatype QueueArgs =
    | NoArgs
    | DeadLettering(deadLetterExchange: string, deadLetterRoutingKey: string, messageTtl: int)

  /** One broker call made while building the consumer. */
  datatype Action =
    | Dial
    | OpenChannel
    | DeclareExchange(exchange: string, kind: string, durable: bool, autoDelete: bool, internal: bool)
    | DeclareQueue(queue: string, durable: bool, autoDelete: bool, exclusive: bool, args: QueueArgs)
    | Bind(queue: string, routingKey: string, exchange: string)
    | SetQos(prefetchCount: int, prefetchSize: int, global: bool)

  datatype SetupStep =
    | DialStep | ChannelStep | DeclareDlxStep | DeclareDlqStep | BindDlqStep
    | DeclareQueueStep | BindQueueStep | QosStep

  datatype SetupError =
    | ConnectFailed | OpenChannelFailed | DeclareDlxFailed | DeclareDlqFailed | BindDlqFailed
    | DeclareQueueFailed | BindQueueFailed | QosFailed

  datatype PlannedCall = PlannedCall(step: SetupStep, action: Action)

  /** A built consumer remembers only the queue it reads. */
  datatype ConsumerHandle = ConsumerHandle(queue: string)

  /** The broker calls made, in order, and the outcome. */
  datatype Setup = Setup(result: Result<ConsumerHandle, SetupError>, calls: seq<Action>)

  function ErrorFor(step: SetupStep): SetupError
  {
    match step
    case DialStep => ConnectFailed
    case ChannelStep => OpenChannelFailed
    case DeclareDlxStep => DeclareDlxFailed
    case DeclareDlqStep => DeclareDlqFailed
    case BindDlqStep => BindDlqFailed
    case DeclareQueueStep => DeclareQueueFailed
    case BindQueueStep => BindQueueFailed
    case QosStep => QosFailed
  }

  /** Every broker call `NewRabbitMQConsumer` makes, in program order. */
  function Plan(exchange: string, queue: string, dlqTtl: int, prefetchCount: int): (plan: seq<PlannedCall>)
    ensures |plan| == 8
    ensures forall i, j :: 0 <= i < j < |plan| ==> plan[i].step != plan[j].step
  {
    [ PlannedCall(DialStep, Dial),
      PlannedCall(ChannelStep, OpenChannel),
      PlannedCall(DeclareDlxStep, DeclareExchange(DlxName(queue), "direct", true, false, false)),
      PlannedCall(DeclareDlqStep, DeclareQueue(DlqName(queue), true, false, false, NoArgs)),
      PlannedCall(BindDlqStep, Bind(DlqName(queue), DlqName(queue), DlxName(queue))),
      PlannedCall(DeclareQueueStep,
                  DeclareQueue(queue, true, false, false, DeadLettering(DlxName(queue), DlqName(queue), dlqTtl))),
      PlannedCall(BindQueueStep, Bind(queue, "", exchange)),
      PlannedCall(QosStep, SetQos(prefetchCount, 0, false)) ]
  }

  /** Position of the call that fails: the first one whose step is `failAt`,
      or the length of the plan when none is. */
  function FailIndex(plan: seq<PlannedCall>, failAt: Option<SetupStep>): (k: nat)
    ensures k <= |plan|
    ensures forall i :: 0 <= i < k ==> Some(plan[i].step) != failAt
    ensures k < |plan| ==> Some(plan[k].step) == failAt
  {
    if plan == [] || Some(plan[0].step) == failAt then 0 else 1 + FailIndex(plan[1..], failAt)
  }

  /** Makes the planned calls in order until the one named by `failAt` fails;
      that call is made, and none after it. */
  function RunPlan(plan: seq<PlannedCall>, failAt: Option<SetupStep>): (r: (Option<SetupError>, seq<Action>))
    ensures var k := FailIndex(plan, failAt);
            && (k == |plan| ==> r.0.None? && |r.1| == |plan|)
            && (k < |plan| ==> r.0 == Some(ErrorFor(plan[k].step)) && |r.1| == k + 1)
            && forall i :: 0 <= i < |r.1| ==> r.1[i] == plan[i].action
  {
    if plan == [] then (None, [])
    else if Some(plan[0].step) == failAt then (Some(ErrorFor(plan[0].step)), [plan[0].action])
    else
      var rest := RunPlan(plan[1..], failAt);
      (rest.0, [plan[0].action] + rest.1)
  }

  function StepIndex(step: SetupStep): (k: nat)
    ensures k < 8
  {
    match step
    case DialStep => 0 case ChannelStep => 1 case DeclareDlxStep => 2 case DeclareDlqStep => 3
    case BindDlqStep => 4 case DeclareQueueStep => 5 case BindQueueStep => 6 case QosStep => 7
  }

  /** `NewRabbitMQConsumer`. `failAt` names the broker call that fails, if any:
      construction stops there with that call's error, and no later call is made. */
  function NewRabbitMQConsumer(exchange: string, queue: string, dlqTtl: int, prefetchCount: int,
                               failAt: Option<SetupStep>): (s: Setup)
    ensures s.result.Ok? <==> failAt.None?
    ensures s.result.Ok? ==> s.result.value == ConsumerHandle(queue) && |s.calls| == 8
    ensures failAt.Some? ==>
              && s.result == Err(ErrorFor(failAt.value))
              && 1 <= |s.calls| <= 8
              && Plan(exchange, queue, dlqTtl, prefetchCount)[|s.calls| - 1].step == failAt.value
    ensures forall i :: 0 <= i < |s.calls| ==> s.calls[i] == Plan(exchange, queue, dlqTtl, prefetchCount)[i].action
  {
    var plan := Plan(exchange, queue, dlqTtl, prefetchCount);
    var run := RunPlan(plan, failAt);
    if failAt.Some? then
      assert plan[StepIndex(failAt.value)].step == failAt.value;
      Setup(Err(run.0.value), run.1)
    else
      Setup(Ok(ConsumerHandle(queue)), run.1)
  }

  /** A message the main queue dead-letters (expired or rejected) reaches the DLQ:
      the queue's dead-letter exchange and key name a declared exchange and a
      binding of the DLQ on that key, all made before the main queue exists. */
  lemma DeadLettersReachDlq(exchange: string, queue: string, dlqTtl: int, prefetchCount: int)
    ensures var plan := Plan(exchange, queue, dlqTtl, prefetchCount);
            exists q, b, x :: 0 <= x < b < q < |plan|
              && plan[q].action.DeclareQueue? && plan[q].action.queue == queue
              && plan[q].action.args.DeadLettering?
              && plan[q].action.args.messageTtl == dlqTtl
              && plan[x].action == DeclareExchange(plan[q].action.args.deadLetterExchange, "direct", true, false, false)
              && plan[b].action == Bind(DlqName(queue), plan[q].action.args.deadLetterRoutingKey,
                                        plan[q].action.args.deadLetterExchange)
  {
    var plan := Plan(exchange, queue, dlqTtl, prefetchCount);
    var q, b, x := 5, 4, 2;
    assert 0 <= x < b < q < |plan|
           && plan[q].action.DeclareQueue? && plan[q].action.queue == queue
           && plan[q].action.args.DeadLettering?
           && plan[q].action.args.messageTtl == dlqTtl
           && plan[x].action == DeclareExchange(plan[q].action.args.deadLetterExchange, "direct", true, false, false)
           && plan[b].action == Bind(DlqName(queue), plan[q].action.args.deadLetterRoutingKey,
                                     plan[q].action.args.deadLetterExchange);
  }

  /** The dead-letter exchange, the DLQ and the main queue have three different
      names, and two consumers on different queues get different DLQs. */
  lemma TopologyNamesDistinct(queue: string, other: string)
    ensures DlxName(queue) != DlqName(queue)
    ensures DlqName(queue) != queue && DlxName(queue) != queue
    ensures queue != other ==> DlqName(queue) != DlqName(other) && DlxName(queue) != DlxName(other)
  {
    var n := |queue|;
    assert DlxName(queue)[n + 3] == 'x' && DlqName(queue)[n + 3] == 'q';
    if queue != other && |queue| == |other| {
      var i :| 0 <= i < n && queue[i] != other[i];
      assert DlqName(queue)[i] == queue[i] && DlqName(other)[i] == other[i];
      assert DlxName(queue)[i] == queue[i] && DlxName(other)[i] == other[i];
    }
  }

  /** What the delivery channel yields next, as `Consume`'s select observes it. */
  datatype Event =
    | Cancelled
    | ChannelClosed
    | Deliver(tag: nat, handlerOk: bool)

  /** A settlement sent back to the broker for one delivery. */
  datatype Settlement =
    | Ack(tag: nat, multiple: bool)
    | Nack(tag: nat, multiple: bool, requeue: bool)

  datatype ConsumeError = RegisterFailed | ContextCanceled | ChannelClosedError

  /** `exit` is None when the trace ends with the loop still waiting. */
  datatype ConsumeRun = ConsumeRun(exit: Option<ConsumeError>, settlements: seq<Settlement>)

  /** The settlement `Consume` sends for a delivery. */
  function Settle(tag: nat, handlerOk: bool): (s: Settlement)
    ensures s.tag == tag && !s.multiple
    ensures s.Ack? <==> handlerOk
    ensures s.Nack? ==> s.requeue
  {
    if handlerOk then Ack(tag, false) else Nack(tag, false, true)
  }

  /** Number of deliveries before the first cancellation or closure. */
  function StopIndex(trace: seq<Event>): (k: nat)
    ensures k <= |trace|
    ensures forall i :: 0 <= i < k ==> trace[i].Deliver?
    ensures k < |trace| ==> !trace[k].Deliver?
  {
    if trace == [] || !trace[0].Deliver? then 0 else 1 + StopIndex(trace[1..])
  }

  /** The receive loop after registration. */
  function Loop(trace: seq<Event>): ConsumeRun
  {
    if trace == [] then ConsumeRun(None, [])
    else match trace[0]
      case Cancelled => ConsumeRun(Some(ContextCanceled), [])
      case ChannelClosed => ConsumeRun(Some(ChannelClosedError), [])
      case Deliver(tag, ok) =>
        var rest := Loop(trace[1..]);
        ConsumeRun(rest.exit, [Settle(tag, ok)] + rest.settlements)
  }

  /** Every delivery before the loop stops is settled once, in delivery order,
      by the handler's outcome; the loop stops at the first cancellation or
      closure with the matching error. */
  predicate SettlesInOrder(trace: seq<Event>, r: ConsumeRun)
  {
    && |r.settlements| == StopIndex(trace)
    && (forall i :: 0 <= i < |r.settlements| ==> r.settlements[i] == Settle(trace[i].tag, trace[i].handlerOk))
    && (r.exit.None? <==> StopIndex(trace) == |trace|)
    && (r.exit == Some(ContextCanceled) <==> StopIndex(trace) < |trace| && trace[StopIndex(trace)] == Cancelled)
    && (r.exit == Some(ChannelClosedError) <==> StopIndex(trace) < |trace| && trace[StopIndex(trace)] == ChannelClosed)
  }

  lemma {:induction false} LoopSettlesInOrder(trace: seq<Event>)
    ensures SettlesInOrder(trace, Loop(trace))
    decreases |trace|
  {
    if trace != [] && trace[0].Deliver? {
      var rest := trace[1..];
      LoopSettlesInOrder(rest);
      var r := Loop(trace);
      assert r.settlements == [Settle(trace[0].tag, trace[0].handlerOk)] + Loop(rest).settlements;
      forall i | 1 <= i < |r.settlements|
        ensures r.settlements[i] == Settle(trace[i].tag, trace[i].handlerOk)
      {
        assert r.settlements[i] == Loop(rest).settlements[i - 1] && rest[i - 1] == trace[i];
      }
    }
  }

  /** `Consume`: register for deliveries, then handle them one at a time. */
  function Consume(registerOk: bool, trace: seq<Event>): (r: ConsumeRun)
    ensures !registerOk ==> r == ConsumeRun(Some(RegisterFailed), [])
    ensures registerOk ==> SettlesInOrder(trace, r)
  {
    if !registerOk then ConsumeRun(Some(RegisterFailed), [])
    else LoopSettlesInOrder(trace); Loop(trace)
  }

  /** Nothing after the loop returns is handled or settled. */
  lemma {:induction false} NothingAfterStop(trace: seq<Event>, later: seq<Event>)
    requires StopIndex(trace) < |trace|
    ensures Loop(trace + later) == Loop(trace)
    decreases |trace|
  {
    assert (trace + later)[0] == trace[0];
    if trace[0].Deliver? {
      assert (trace + later)[1..] == trace[1..] + later;
      NothingAfterStop(trace[1..], later);
    }
  }

  lemma LoopCons(e: Event, t: seq<Event>)
    requires e.Deliver?
    ensures Loop([e] + t) == ConsumeRun(Loop(t).exit, [Settle(e.tag, e.handlerOk)] + Loop(t).settlements)
  {
    assert ([e] + t)[1..] == t;
  }

  /** Settling a prefix of the deliveries and then the rest settles them all:
      the loop keeps no state between messages. */
  lemma {:induction false} LoopSplits(first: seq<Event>, rest: seq<Event>)
    requires forall i :: 0 <= i < |first| ==> first[i].Deliver?
    ensures Loop(first + rest).settlements == Loop(first).settlements + Loop(rest).settlements
    ensures Loop(first + rest).exit == Loop(rest).exit
    decreases |first|
  {
    if first == [] {
      assert first + rest == rest;
    } else {
      var a, t := first[0], first[1..];
      LoopSplits(t, rest);
      calc {
        Loop(first + rest);
        { assert first + rest == [a] + (t + rest); }
        Loop([a] + (t + rest));
        { LoopCons(a, t + rest); }
        ConsumeRun(Loop(t + rest).exit, [Settle(a.tag, a.handlerOk)] + Loop(t + rest).settlements);
        ConsumeRun(Loop(rest).exit, [Settle(a.tag, a.handlerOk)] + (Loop(t).settlements + Loop(rest).settlements));
      }
      calc {
        Loop(first);
        { assert first == [a] + t; }
        Loop([a] + t);
        { LoopCons(a, t); }
        ConsumeRun(Loop(t).exit, [Settle(a.tag, a.handlerOk)] + Loop(t).settlements);
      }
    }
  }
}

/**
 * FIFO behaviour of FifoQueueBase over whole runs of push and pop calls made by one producer
 * and one consumer, established by comparison with a plain bounded queue of values.
 */
module FifoOrder {
  import opened Wrappers
  import opened Semaphores
  import opened FifoQueueBase

  /**
   * One call on the queue: a copy push, a move push or a pop (which carries the caller's
   * output object). `interrupted` says whether the caller's wait is ended from outside.
   */
  datatype Op<T> =
    | PushOp(value: T, interrupted: bool)
    | PushMoveOp(value: T, interrupted: bool)
    | PopOp(output: T, interrupted: bool)

  /** What one call reported: a push taken, a popped value, or a nonzero error code. */
  datatype Reply<T> = Accepted | Delivered(value: T) | Refused(code: int)

  /** The queue after a run of calls and what each call reported, in call order. */
  datatype Trace<T> = Trace(queue: Queue<T>, replies: seq<Reply<T>>)

  /** A bounded FIFO of plain values: the behaviour the ring buffer is meant to have. */
  datatype Bounded<T> = Bounded(items: seq<T>, capacity: nat)

  /** A run of the reference queue and what each call reported. */
  datatype ReferenceTrace<T> = ReferenceTrace(state: Bounded<T>, replies: seq<Reply<T>>)

  /** One call on the ring buffer. */
  function Step<T>(q: Queue<T>, op: Op<T>): (r: (Queue<T>, Reply<T>))
    requires Valid(q)
    ensures Valid(r.0) && Capacity(r.0) == Capacity(q)
    ensures r.1.Refused? ==> r.0 == q
    ensures r.1.Refused? ==> r.1.code == Code(if op.interrupted then Interrupted else WouldBlock)
  {
    match op
    case PushOp(v, interrupted) =>
      var o := Push(q, v, interrupted);
      (o.queue, if o.code == 0 then Accepted else Refused(o.code))
    case PushMoveOp(v, interrupted) =>
      var o := PushMove(q, v, interrupted);
      (o.queue, if o.code == 0 then Accepted else Refused(o.code))
    case PopOp(output, interrupted) =>
      var o := Pop(q, output, interrupted);
      (o.queue, if o.code == 0 then Delivered(o.caller.value) else Refused(o.code))
  }

  /** A sequence of calls on the ring buffer. */
  function Run<T>(q: Queue<T>, ops: seq<Op<T>>): (t: Trace<T>)
    requires Valid(q)
    ensures Valid(t.queue) && Capacity(t.queue) == Capacity(q)
    ensures |t.replies| == |ops|
    decreases |ops|
  {
    if |ops| == 0 then Trace(q, [])
    else
      var (q1, reply) := Step(q, ops[0]);
      var t := Run(q1, ops[1..]);
      Trace(t.queue, [reply] + t.replies)
  }

  /**
   * One call on the reference queue: an interrupted call is refused and changes nothing; a
   * push (copy or move) appends when there is room, a pop removes the first item; otherwise
   * the call would block, which is reported as WouldBlock.
   */
  function ReferenceStep<T>(b: Bounded<T>, op: Op<T>): (Bounded<T>, Reply<T>)
  {
    if op.interrupted then (b, Refused(Code(Interrupted)))
    else
      match op
      case PopOp(_, _) =>
        if |b.items| > 0 then (b.(items := b.items[1..]), Delivered(b.items[0]))
        else (b, Refused(Code(WouldBlock)))
      case _ =>
        if |b.items| < b.capacity then (b.(items := b.items + [op.value]), Accepted)
        else (b, Refused(Code(WouldBlock)))
  }

  /** A sequence of calls on the reference queue. */
  function ReferenceRun<T>(b: Bounded<T>, ops: seq<Op<T>>): (t: ReferenceTrace<T>)
    ensures |t.replies| == |ops|
    ensures t.state.capacity == b.capacity
    decreases |ops|
  {
    if |ops| == 0 then ReferenceTrace(b, [])
    else
      var (b1, reply) := ReferenceStep(b, ops[0]);
      var t := ReferenceRun(b1, ops[1..]);
      ReferenceTrace(t.state, [reply] + t.replies)
  }

  /** The reference queue a ring buffer stands for: its contents, oldest first, and its capacity. */
  function Abstraction<T>(q: Queue<T>): Bounded<T>
    requires Valid(q)
  {
    Bounded(Contents(q), Capacity(q))
  }

  /** Pushes of `vs`, in order. */
  function Pushes<T>(vs: seq<T>): (ops: seq<Op<T>>)
    ensures |ops| == |vs|
    ensures forall i :: 0 <= i < |vs| ==> ops[i] == PushOp(vs[i], false)
  {
    seq(|vs|, i requires 0 <= i < |vs| => PushOp(vs[i], false))
  }

  /** Pops into the output objects `outs`, in order. */
  function Pops<T>(outs: seq<T>): (ops: seq<Op<T>>)
    ensures |ops| == |outs|
    ensures forall i :: 0 <= i < |outs| ==> ops[i] == PopOp(outs[i], false)
  {
    seq(|outs|, i requires 0 <= i < |outs| => PopOp(outs[i], false))
  }

  /** A push of vs[i] immediately followed by a pop into outs[i], for each i in turn. */
  function Cycles<T>(vs: seq<T>, outs: seq<T>): (ops: seq<Op<T>>)
    requires |vs| == |outs|
    ensures |ops| == 2 * |vs|
    decreases |vs|
  {
    if |vs| == 0 then []
    else [PushOp(vs[0], false), PopOp(outs[0], false)] + Cycles(vs[1..], outs[1..])
  }

  /** `n` accepted pushes. */
  function Accepts<T>(n: nat): (rs: seq<Reply<T>>)
  {
    seq(n, _ => Accepted)
  }

  /** The replies of pops that deliver `vs`, in order. */
  function Deliveries<T>(vs: seq<T>): (rs: seq<Reply<T>>)
  {
    seq(|vs|, i requires 0 <= i < |vs| => Delivered(vs[i]))
  }

  /** The replies of Cycles(vs, _) when nothing blocks: each push accepted, then its value delivered. */
  function CycleReplies<T>(vs: seq<T>): (rs: seq<Reply<T>>)
    ensures |rs| == 2 * |vs|
    decreases |vs|
  {
    if |vs| == 0 then [] else [Accepted, Delivered(vs[0])] + CycleReplies(vs[1..])
  }

  // ----- refinement -----

  /** One call on the ring buffer does what the same call does on the reference queue. */
  lemma StepMatchesReference<T>(q: Queue<T>, op: Op<T>)
    requires Valid(q)
    ensures Abstraction(Step(q, op).0) == ReferenceStep(Abstraction(q), op).0
    ensures Step(q, op).1 == ReferenceStep(Abstraction(q), op).1
  {
  }

  /** Any run of calls on the ring buffer does what the same run does on the reference queue. */
  lemma {:induction false} RunMatchesReference<T>(q: Queue<T>, ops: seq<Op<T>>)
    requires Valid(q)
    ensures Abstraction(Run(q, ops).queue) == ReferenceRun(Abstraction(q), ops).state
    ensures Run(q, ops).replies == ReferenceRun(Abstraction(q), ops).replies
    decreases |ops|
  {
    if |ops| > 0 {
      StepMatchesReference(q, ops[0]);
      RunMatchesReference(Step(q, ops[0]).0, ops[1..]);
    }
  }

  // ----- the reference queue -----

  /** Running two call sequences back to back is running their concatenation. */
  lemma {:induction false} ReferenceRunAppend<T>(b: Bounded<T>, ops1: seq<Op<T>>, ops2: seq<Op<T>>)
    ensures var t1 := ReferenceRun(b, ops1);
      var t2 := ReferenceRun(t1.state, ops2);
      ReferenceRun(b, ops1 + ops2) == ReferenceTrace(t2.state, t1.replies + t2.replies)
    decreases |ops1|
  {
    if |ops1| > 0 {
      assert (ops1 + ops2)[0] == ops1[0];
      assert (ops1 + ops2)[1..] == ops1[1..] + ops2;
      ReferenceRunAppend(ReferenceStep(b, ops1[0]).0, ops1[1..], ops2);
    } else {
      assert ops1 + ops2 == ops2;
    }
  }

  /** Pushes into a queue with room for them are all accepted and appended in order. */
  lemma {:induction false} ReferencePushes<T>(b: Bounded<T>, vs: seq<T>)
    requires |b.items| + |vs| <= b.capacity
    ensures ReferenceRun(b, Pushes(vs)) == ReferenceTrace(b.(items := b.items + vs), Accepts(|vs|))
    decreases |vs|
  {
    if |vs| > 0 {
      var b1 := b.(items := b.items + [vs[0]]);
      assert Pushes(vs)[1..] == Pushes(vs[1..]);
      ReferencePushes(b1, vs[1..]);
      assert b1.items + vs[1..] == b.items + vs;
      assert [Accepted] + Accepts<T>(|vs| - 1) == Accepts<T>(|vs|);
    } else {
      assert b.items + vs == b.items;
    }
  }

  /** Pops from a queue holding at least as many items deliver its first items, oldest first. */
  lemma {:induction false} ReferencePops<T>(b: Bounded<T>, outs: seq<T>)
    requires |outs| <= |b.items|
    ensures ReferenceRun(b, Pops(outs))
         == ReferenceTrace(b.(items := b.items[|outs|..]), Deliveries(b.items[..|outs|]))
    decreases |outs|
  {
    if |outs| > 0 {
      var b1 := b.(items := b.items[1..]);
      assert Pops(outs)[1..] == Pops(outs[1..]);
      ReferencePops(b1, outs[1..]);
      assert b1.items[|outs| - 1..] == b.items[|outs|..];
      assert [Delivered(b.items[0])] + Deliveries(b1.items[..|outs| - 1]) == Deliveries(b.items[..|outs|]);
    }
  }

  /** Alternating push and pop on an empty queue hands every value straight back. */
  lemma {:induction false} ReferenceCycles<T>(b: Bounded<T>, vs: seq<T>, outs: seq<T>)
    requires |vs| == |outs|
    requires b.items == [] && b.capacity >= 1
    ensures ReferenceRun(b, Cycles(vs, outs)) == ReferenceTrace(b, CycleReplies(vs))
    decreases |vs|
  {
    if |vs| > 0 {
      var ops := Cycles(vs, outs);
      var rest := Cycles(vs[1..], outs[1..]);
      assert ops[0] == PushOp(vs[0], false);
      assert ops[1..][0] == PopOp(outs[0], false);
      assert ops[1..][1..] == rest;
      var b1 := b.(items := [vs[0]]);
      assert b.items + [vs[0]] == [vs[0]];
      assert ReferenceStep(b, ops[0]) == (b1, Accepted);
      assert b1.(items := b1.items[1..]) == b;
      assert ReferenceStep(b1, ops[1..][0]) == (b, Delivered(vs[0]));
      ReferenceCycles(b, vs[1..], outs[1..]);
      assert ReferenceRun(b1, ops[1..]) == ReferenceTrace(b, [Delivered(vs[0])] + CycleReplies(vs[1..]));
    }
  }

  // ----- FIFO order of the ring buffer -----

  /**
   * Pushing vs into a queue with room for them and then popping everything delivers the
   * elements already queued followed by vs, in push order, wherever the cursors start.
   */
  lemma PushAllThenPopAll<T>(q: Queue<T>, vs: seq<T>, outs: seq<T>)
    requires Valid(q)
    requires |Contents(q)| + |vs| <= Capacity(q)
    requires |outs| == |Contents(q)| + |vs|
    ensures Run(q, Pushes(vs) + Pops(outs)).replies == Accepts(|vs|) + Deliveries(Contents(q) + vs)
    ensures Contents(Run(q, Pushes(vs) + Pops(outs)).queue) == []
  {
    var b := Abstraction(q);
    RunMatchesReference(q, Pushes(vs) + Pops(outs));
    ReferenceRunAppend(b, Pushes(vs), Pops(outs));
    ReferencePushes(b, vs);
    ReferencePops(b.(items := b.items + vs), outs);
    assert (b.items + vs)[..|outs|] == Contents(q) + vs;
  }

  /**
   * Any number of push-then-pop rounds on an empty queue, however many times the cursors wrap
   * around, delivers each pushed value once and in order.
   */
  lemma WrapAround<T>(q: Queue<T>, vs: seq<T>, outs: seq<T>)
    requires Valid(q) && Contents(q) == []
    requires |vs| == |outs|
    ensures Run(q, Cycles(vs, outs)).replies == CycleReplies(vs)
    ensures Contents(Run(q, Cycles(vs, outs)).queue) == []
  {
    RunMatchesReference(q, Cycles(vs, outs));
    ReferenceCycles(Abstraction(q), vs, outs);
  }

  /** The calls of the capacity-three scenario below: push 1, 2, 3, 4, pop, push 4, pop three times. */
  function ScenarioOps(): seq<Op<int>>
  {
    Pushes([1, 2, 3]) + [PushOp(4, false), PopOp(0, false), PushOp(4, false)] + Pops([0, 0, 0])
  }

  /** On a full queue of 1, 2, 3: a push would block, a pop yields 1, and the push then gets in. */
  lemma ReferenceRefillWhenFull()
    ensures ReferenceRun(Bounded([1, 2, 3], 3), [PushOp(4, false), PopOp(0, false), PushOp(4, false)])
         == ReferenceTrace(Bounded([2, 3, 4], 3), [Refused(Code(WouldBlock)), Delivered(1), Accepted])
  {
    var mid := [PushOp(4, false), PopOp(0, false), PushOp(4, false)];
    var full := Bounded([1, 2, 3], 3);
    assert mid[1..] == [PopOp(0, false), PushOp(4, false)] && mid[1..][1..] == [PushOp(4, false)];
    assert ReferenceStep(full, mid[0]) == (full, Refused(Code(WouldBlock)));
    assert ReferenceStep(full, mid[1..][0]) == (Bounded([2, 3], 3), Delivered(1));
    assert [2, 3] + [4] == [2, 3, 4];
    assert ReferenceStep(Bounded([2, 3], 3), mid[1..][1..][0]) == (Bounded([2, 3, 4], 3), Accepted);
  }

  /** What the reference queue of capacity three reports for ScenarioOps. */
  lemma ReferenceScenario()
    ensures ReferenceRun(Bounded([], 3), ScenarioOps()).replies
         == [Accepted, Accepted, Accepted, Refused(Code(WouldBlock)), Delivered(1),
             Accepted, Delivered(2), Delivered(3), Delivered(4)]
  {
    var mid := [PushOp(4, false), PopOp(0, false), PushOp(4, false)];
    var full := Bounded([1, 2, 3], 3);
    var drained := Bounded([2, 3, 4], 3);
    ReferenceRunAppend(Bounded([], 3), Pushes([1, 2, 3]) + mid, Pops([0, 0, 0]));
    ReferenceRunAppend(Bounded([], 3), Pushes([1, 2, 3]), mid);
    assert ReferenceRun(Bounded([], 3), Pushes([1, 2, 3])) == ReferenceTrace(full, Accepts(3)) by {
      ReferencePushes(Bounded([], 3), [1, 2, 3]);
      assert [] + [1, 2, 3] == [1, 2, 3];
    }
    ReferenceRefillWhenFull();
    assert ReferenceRun(drained, Pops([0, 0, 0])) == ReferenceTrace(Bounded([], 3), Deliveries([2, 3, 4])) by {
      ReferencePops(drained, [0, 0, 0]);
    }
    var a: seq<Reply<int>> := Accepts(3);
    var b: seq<Reply<int>> := [Refused(Code(WouldBlock)), Delivered(1), Accepted];
    var c: seq<Reply<int>> := Deliveries([2, 3, 4]);
    assert a == [Accepted, Accepted, Accepted];
    assert c == [Delivered(2), Delivered(3), Delivered(4)];
    assert ReferenceRun(Bounded([], 3), Pushes([1, 2, 3]) + mid).replies == a + b;
    assert ReferenceRun(Bounded([], 3), ScenarioOps()).replies == a + b + c;
  }

  /**
   * A queue of three integers: pushes of 1, 2 and 3 are taken, a fourth push would block, a pop
   * yields 1, after which the push of 4 is taken and draining yields 2, 3 and 4.
   */
  lemma CapacityThreeScenario()
    ensures Run(Construct<int>(0, 3), ScenarioOps()).replies
         == [Accepted, Accepted, Accepted, Refused(Code(WouldBlock)), Delivered(1),
             Accepted, Delivered(2), Delivered(3), Delivered(4)]
  {
    var q := Construct<int>(0, 3);
    RunMatchesReference(q, ScenarioOps());
    assert Abstraction(q) == Bounded([], 3);
    ReferenceScenario();
  }
}

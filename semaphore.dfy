/**
 * The "poor man's semaphore" of `run.mjs` that keeps at most six API
 * requests in flight: `lock` takes a free slot or queues the caller,
 * `unlock` hands the slot to the oldest queued caller or frees it.
 *
 * A queued caller is represented by a ticket (the promise resolver the
 * source pushes); a ticket handed out by `Unlock` is a caller that now
 * holds a slot.
 */
module RequestLimit {
  import opened Common

  /** The initial value of `available`. */
  const Slots: nat := 6

  /**
   * The semaphore as a value: `available`, the `waiting` queue, and the
   * number of callers currently holding a slot (which the source does not
   * store).
   */
  datatype SemState = SemState(available: int, waiting: seq<nat>, holders: nat)

  /** Slots are conserved, and nobody waits while a slot is free. */
  predicate Inv(s: SemState) {
    && 0 <= s.available <= Slots
    && s.available + s.holders == Slots
    && (|s.waiting| > 0 ==> s.available == 0)
  }

  const Initial: SemState := SemState(Slots, [], 0)

  /** `lock()`: take a free slot, or queue `ticket`. */
  function LockStep(s: SemState, ticket: nat): SemState {
    if s.available > 0 then SemState(s.available - 1, s.waiting, s.holders + 1)
    else SemState(s.available, s.waiting + [ticket], s.holders)
  }

  /**
   * `unlock()` by a holder: the slot passes to the oldest waiter, who is
   * returned, or becomes free again.
   */
  function UnlockStep(s: SemState): (SemState, Option<nat>)
    requires s.holders > 0
  {
    if |s.waiting| > 0 then (SemState(s.available, s.waiting[1..], s.holders), Some(s.waiting[0]))
    else (SemState(s.available + 1, s.waiting, s.holders - 1), None)
  }

  /** One call made on the semaphore: `Lock(ticket)` or `Unlock`. */
  datatype Op = Lock(ticket: nat) | Unlock

  /** What one call, or a sequence of calls, produces. */
  datatype Trace = Trace(final: SemState, queued: seq<nat>, woken: seq<nat>)

  /**
   * One call: the new state, the ticket that had to queue, and the ticket
   * that was woken. An `Unlock` with no holder is a call the source never
   * makes (`unlock` only runs in the `finally` of a `lock`ed request); it
   * is ignored here.
   */
  function Step(s: SemState, op: Op): Trace {
    match op
    case Lock(ticket) =>
      Trace(LockStep(s, ticket), if s.available > 0 then [] else [ticket], [])
    case Unlock =>
      if s.holders == 0 then Trace(s, [], [])
      else
        var u := UnlockStep(s);
        Trace(u.0, [], if u.1.Some? then [u.1.value] else [])
  }

  lemma StepKeepsLimitAndOrder(s: SemState, op: Op)
    requires Inv(s)
    ensures var t := Step(s, op);
      Inv(t.final) && t.woken + t.final.waiting == s.waiting + t.queued
  {
    match op
    case Lock(ticket) =>
      assert [] + LockStep(s, ticket).waiting == LockStep(s, ticket).waiting;
    case Unlock =>
      if s.holders > 0 && |s.waiting| > 0 {
        assert [s.waiting[0]] + s.waiting[1..] == s.waiting;
      }
  }

  /** Runs `ops` from `s`. */
  function Run(s: SemState, ops: seq<Op>): (t: Trace)
    decreases |ops|
  {
    if ops == [] then Trace(s, [], [])
    else
      var first := Step(s, ops[0]);
      var rest := Run(first.final, ops[1..]);
      Trace(rest.final, first.queued + rest.queued, first.woken + rest.woken)
  }

  lemma QueueAlgebra(w1: seq<nat>, w2: seq<nat>, q1: seq<nat>, q2: seq<nat>, s0: seq<nat>, s1: seq<nat>, s2: seq<nat>)
    requires w1 + s1 == s0 + q1 && w2 + s2 == s1 + q2
    ensures (w1 + w2) + s2 == s0 + (q1 + q2)
  {
    calc {
      (w1 + w2) + s2;
      w1 + (w2 + s2);
      w1 + (s1 + q2);
      (w1 + s1) + q2;
      (s0 + q1) + q2;
    }
  }

  /**
   * Whatever the calls, no more than six callers ever hold a slot, and
   * waiters are woken strictly in arrival order: the woken tickets followed
   * by those still waiting are exactly the earlier queue followed by every
   * ticket that had to queue.
   */
  lemma {:induction false} RunKeepsLimitAndOrder(s: SemState, ops: seq<Op>)
    requires Inv(s)
    ensures var t := Run(s, ops);
      && Inv(t.final)
      && t.final.holders <= Slots
      && t.woken + t.final.waiting == s.waiting + t.queued
    decreases |ops|
  {
    if ops == [] {
      assert [] + s.waiting == s.waiting + [];
    } else {
      var first := Step(s, ops[0]);
      StepKeepsLimitAndOrder(s, ops[0]);
      RunKeepsLimitAndOrder(first.final, ops[1..]);
      var rest := Run(first.final, ops[1..]);
      QueueAlgebra(first.woken, rest.woken, first.queued, rest.queued, s.waiting, first.final.waiting, rest.final.waiting);
    }
  }

  /** The semaphore as the source keeps it: two module-level variables. */
  class Semaphore {
    var available: int
    var waiting: seq<nat>
    ghost var holders: nat

    ghost function State(): SemState
      reads this
    {
      SemState(available, waiting, holders)
    }

    ghost predicate Valid()
      reads this
    {
      Inv(State())
    }

    constructor()
      ensures Valid() && State() == Initial
    {
      available := Slots;
      waiting := [];
      holders := 0;
    }

    /** `lock()`: returns whether the caller got a slot at once. */
    method Lock(ticket: nat) returns (acquired: bool)
      requires Valid()
      modifies this
      ensures Valid()
      ensures State() == LockStep(old(State()), ticket)
      ensures acquired <==> old(available) > 0
    {
      if available > 0 {
        available := available - 1;
        holders := holders + 1;
        acquired := true;
      } else {
        waiting := waiting + [ticket];
        acquired := false;
      }
    }

    /** `unlock()`: returns the waiter that now holds the released slot, if any. */
    method Unlock() returns (woken: Option<nat>)
      requires Valid() && holders > 0
      modifies this
      ensures Valid()
      ensures (State(), woken) == UnlockStep(old(State()))
      ensures woken.Some? <==> |old(waiting)| > 0
    {
      if |waiting| > 0 {
        woken := Some(waiting[0]);
        waiting := waiting[1..];
      } else {
        available := available + 1;
        holders := holders - 1;
        woken := None;
      }
    }
  }
}

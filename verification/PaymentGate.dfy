/** `payment_impl::get_payurl`: one payment script at a time per order. Each stretch of the coroutine that
    runs under the mutex is one step; the script, the 50 ms timer and the callers are the environment. */
module PaymentGate {

  /** The `n`-th call of `get_payurl` for an order. */
  datatype Caller = Caller(order: string, n: nat)

  datatype Phase = Waiting | Running | Gone

  datatype State = State(callers: map<Caller, Phase>, awaiting: set<string>)

  /** Enter: a call starts; Wake: its 50 ms timer fires; Finish: its script ends, well or not;
      TearDown: it is destroyed while waiting. */
  datatype Event =
    | Enter(c: Caller, script: string)
    | Wake(c: Caller)
    | Finish(c: Caller)
    | TearDown(c: Caller)

  const START := State(map[], {})

  predicate In(s: State, c: Caller, p: Phase) {
    c in s.callers && s.callers[c] == p
  }

  /** Test and insert under one lock. */
  function Admit(s: State, c: Caller): State {
    if c.order !in s.awaiting
    then State(s.callers[c := Running], s.awaiting + {c.order})
    else State(s.callers[c := Waiting], s.awaiting)
  }

  /** The scope guard. */
  function Leave(s: State, c: Caller): State {
    State(s.callers[c := Gone], s.awaiting - {c.order})
  }

  /** Events that cannot happen in `s` change nothing. */
  function Step(s: State, e: Event): State {
    match e
    case Enter(c, script) =>
      if c in s.callers then s
      else if script == "" then s.(callers := s.callers[c := Gone])
      else Admit(s, c)
    case Wake(c) => if In(s, c, Waiting) then Admit(s, c) else s
    case Finish(c) => if In(s, c, Running) then Leave(s, c) else s
    case TearDown(c) => if In(s, c, Waiting) then Leave(s, c) else s
  }

  function Run(log: seq<Event>): State {
    if log == [] then START else Step(Run(log[..|log| - 1]), log[|log| - 1])
  }

  // ---- the service object ----

  datatype Outcome = NoPaymentScriptSupplied | MustWait | RunsScript

  class PaymentImpl {
    var awaitingOrders: set<string>
    ghost var callers: map<Caller, Phase>

    ghost function Model(): State
      reads this
    {
      State(callers, awaitingOrders)
    }

    constructor ()
      ensures Model() == START
    {
      awaitingOrders, callers := {}, map[];
    }

    method TryInsert(c: Caller) returns (inserted: bool)
      modifies this
      ensures Model() == Admit(old(Model()), c)
      ensures inserted == In(Model(), c, Running)
    {
      if c.order !in awaitingOrders {
        awaitingOrders := awaitingOrders + {c.order};
        callers := callers[c := Running];
        inserted := true;
      } else {
        callers := callers[c := Waiting];
        inserted := false;
      }
    }

    method Call(c: Caller, script: string) returns (r: Outcome)
      requires c !in callers
      modifies this
      ensures Model() == Step(old(Model()), Enter(c, script))
      ensures r.NoPaymentScriptSupplied? <==> script == ""
      ensures r.RunsScript? <==> In(Model(), c, Running)
      ensures r.MustWait? <==> In(Model(), c, Waiting)
    {
      if script == "" {
        callers := callers[c := Gone];
        return NoPaymentScriptSupplied;
      }
      var inserted := TryInsert(c);
      r := if inserted then RunsScript else MustWait;
    }

    method Retry(c: Caller) returns (r: Outcome)
      requires In(Model(), c, Waiting)
      modifies this
      ensures Model() == Step(old(Model()), Wake(c))
      ensures r == if In(Model(), c, Running) then RunsScript else MustWait
    {
      var inserted := TryInsert(c);
      r := if inserted then RunsScript else MustWait;
    }

    /** The scope guard of a call that has taken it, running or waiting. */
    method ScopedExit(c: Caller)
      requires In(Model(), c, Running) || In(Model(), c, Waiting)
      modifies this
      ensures Model() == Step(old(Model()), if old(In(Model(), c, Running)) then Finish(c) else TearDown(c))
    {
      awaitingOrders := awaitingOrders - {c.order};
      callers := callers[c := Gone];
    }
  }

  // ---- exclusion ----

  ghost predicate RunsFor(s: State, order: string) {
    exists c :: In(s, c, Running) && c.order == order
  }

  /** `awaiting` is exactly the set of orders with a running script, and no order has two. */
  ghost predicate Exclusive(s: State) {
    && (forall o :: o in s.awaiting <==> RunsFor(s, o))
    && (forall c, d :: In(s, c, Running) && In(s, d, Running) && c.order == d.order ==> c == d)
  }

  /** A call is destroyed while it waits for an order that is being served. */
  predicate Harmful(s: State, e: Event) {
    e.TearDown? && In(s, e.c, Waiting) && e.c.order in s.awaiting
  }

  lemma AdmitKeeps(s: State, c: Caller)
    requires Exclusive(s) && !In(s, c, Running)
    ensures Exclusive(Admit(s, c))
    ensures In(Admit(s, c), c, Running) <==> !RunsFor(s, c.order)
  {
    var t := Admit(s, c);
    assert forall d :: d != c ==> (In(t, d, Running) <==> In(s, d, Running));
    if c.order !in s.awaiting {
      assert In(t, c, Running);
    }
    forall o
      ensures o in t.awaiting <==> RunsFor(t, o)
    {
      if d :| In(s, d, Running) && d.order == o {
        assert In(t, d, Running);
      }
    }
  }

  lemma LeaveKeepsExactly(s: State, c: Caller)
    requires Exclusive(s) && c in s.callers
    ensures Exclusive(Leave(s, c)) <==> In(s, c, Running) || c.order !in s.awaiting
  {
    var t := Leave(s, c);
    assert forall d :: In(t, d, Running) <==> d != c && In(s, d, Running);
    if In(s, c, Running) || c.order !in s.awaiting {
      forall o
        ensures o in t.awaiting <==> RunsFor(t, o)
      {
        if d :| In(s, d, Running) && d.order == o && d != c {
          assert In(t, d, Running);
        }
      }
    } else {
      var d :| In(s, d, Running) && d.order == c.order;
      assert In(t, d, Running) && RunsFor(t, c.order);
    }
  }

  lemma StepKeepsExactly(s: State, e: Event)
    requires Exclusive(s)
    ensures Exclusive(Step(s, e)) <==> !Harmful(s, e)
  {
    match e
    case Enter(c, script) =>
      if c !in s.callers {
        if script == "" {
          var t := Step(s, e);
          assert forall d :: In(t, d, Running) <==> In(s, d, Running);
          assert forall o :: RunsFor(t, o) <==> RunsFor(s, o);
        } else {
          AdmitKeeps(s, c);
        }
      }
    case Wake(c) => if In(s, c, Waiting) { AdmitKeeps(s, c); }
    case Finish(c) => if In(s, c, Running) { LeaveKeepsExactly(s, c); }
    case TearDown(c) => if In(s, c, Waiting) { LeaveKeepsExactly(s, c); }
  }

  /** Exclusive after the run and at every moment before. */
  ghost predicate ExclusiveThroughout(log: seq<Event>) {
    Exclusive(Run(log)) && (log == [] || ExclusiveThroughout(log[..|log| - 1]))
  }

  /** No call is ever destroyed while it waits for an order that is being served. */
  predicate NeverHarmful(log: seq<Event>) {
    log == [] || (NeverHarmful(log[..|log| - 1]) && !Harmful(Run(log[..|log| - 1]), log[|log| - 1]))
  }

  /** In every run, at every moment `awaiting` is the set of orders with a running script and each has
      one script, if and only if no call is ever destroyed while waiting for an order being served. */
  lemma {:induction false} ExclusionExactly(log: seq<Event>)
    ensures ExclusiveThroughout(log) <==> NeverHarmful(log)
  {
    hide Harmful, Step;
    if log != [] {
      var n := |log| - 1;
      ExclusionExactly(log[..n]);
      if ExclusiveThroughout(log[..n]) {
        StepKeepsExactly(Run(log[..n]), log[n]);
      }
    }
  }

  /** With no call destroyed while waiting, every run is exclusive. */
  lemma {:induction false} UndisturbedRunsAreExclusive(log: seq<Event>)
    requires forall i :: 0 <= i < |log| ==> !log[i].TearDown?
    ensures ExclusiveThroughout(log) && NeverHarmful(log)
  {
    hide Step;
    if log != [] {
      UndisturbedRunsAreExclusive(log[..|log| - 1]);
    }
    ExclusionExactly(log);
  }

  /** Afterwards the next call for that order is let in beside the running script. */
  lemma HarmLetsASecondScriptIn(s: State, c: Caller, next: Caller, script: string)
    requires Exclusive(s) && Harmful(s, TearDown(c))
    requires next !in s.callers && next.order == c.order && script != ""
    ensures var t := Step(Step(s, TearDown(c)), Enter(next, script));
      exists d :: d != next && d.order == next.order && In(t, d, Running) && In(t, next, Running)
  {
    var d :| In(s, d, Running) && d.order == c.order;
    var t := Step(Step(s, TearDown(c)), Enter(next, script));
    assert In(t, d, Running) && In(t, next, Running);
  }

  /** Such a run exists: three calls for one order, the second destroyed while the first runs. */
  lemma TwoScriptsForOneOrder(order: string)
    ensures exists log: seq<Event> :: In(Run(log), Caller(order, 0), Running) && In(Run(log), Caller(order, 2), Running)
  {
    var c0, c1, c2 := Caller(order, 0), Caller(order, 1), Caller(order, 2);
    var l1 := [Enter(c0, "s")];
    var l2 := l1 + [Enter(c1, "s")];
    var l3 := l2 + [TearDown(c1)];
    var l4 := l3 + [Enter(c2, "s")];
    assert l1[..0] == [] && l2[..1] == l1 && l3[..2] == l2 && l4[..3] == l3;
    assert Run(l1) == State(map[c0 := Running], {order});
    assert Run(l2) == State(map[c0 := Running, c1 := Waiting], {order});
    assert Run(l3) == State(map[c0 := Running, c1 := Gone], {});
    assert In(Run(l4), c0, Running) && In(Run(l4), c2, Running);
  }

  /** Whoever asks, first or after a wait, gets in exactly when no script for the order is running. */
  lemma AdmittedExactlyWhenFree(log: seq<Event>, e: Event)
    requires NeverHarmful(log)
    requires match e
      case Enter(c, script) => c !in Run(log).callers && script != ""
      case Wake(c) => In(Run(log), c, Waiting)
      case _ => false
    ensures In(Step(Run(log), e), e.c, Running) <==> !RunsFor(Run(log), e.c.order)
    ensures In(Step(Run(log), e), e.c, Waiting) <==> RunsFor(Run(log), e.c.order)
  {
    ExclusionExactly(log);
    AdmitKeeps(Run(log), e.c);
  }

  // ---- orders do not interfere ----

  /** What concerns one order. */
  ghost function Only(s: State, order: string): State {
    State(map c | c in s.callers && c.order == order :: s.callers[c], s.awaiting * {order})
  }

  function EventsOf(log: seq<Event>, order: string): seq<Event> {
    if log == [] then []
    else
      var rest := EventsOf(log[..|log| - 1], order);
      if log[|log| - 1].c.order == order then rest + [log[|log| - 1]] else rest
  }

  lemma StepOfSameOrder(s: State, e: Event)
    ensures Step(Only(s, e.c.order), e) == Only(Step(s, e), e.c.order)
  {
    var t := Only(s, e.c.order);
    assert forall p :: In(t, e.c, p) <==> In(s, e.c, p);
  }

  lemma StepOfOtherOrder(s: State, e: Event, order: string)
    requires e.c.order != order
    ensures Only(Step(s, e), order) == Only(s, order)
  {
  }

  /** Whatever else goes on, each order is served as if its own calls were the only ones: calls for
      other orders never hold it up, let it in or take its place. */
  lemma {:induction false} OrdersDoNotInterfere(log: seq<Event>, order: string)
    ensures Only(Run(log), order) == Run(EventsOf(log, order))
  {
    if log != [] {
      var before, e := log[..|log| - 1], log[|log| - 1];
      OrdersDoNotInterfere(before, order);
      if e.c.order == order {
        StepOfSameOrder(Run(before), e);
        var own := EventsOf(before, order);
        assert (own + [e])[..|own|] == own;
      } else {
        StepOfOtherOrder(Run(before), e, order);
      }
    }
  }

  // ---- the life of a call ----

  /** A call that is gone stays gone, and one that runs its script runs on or is gone. */
  lemma {:induction false} PhasesOnlyAdvance(before: seq<Event>, after: seq<Event>, c: Caller)
    ensures c in Run(before).callers ==> c in Run(before + after).callers
    ensures In(Run(before), c, Gone) ==> In(Run(before + after), c, Gone)
    ensures In(Run(before), c, Running) ==> In(Run(before + after), c, Running) || In(Run(before + after), c, Gone)
  {
    if after == [] {
      assert before + after == before;
    } else {
      PhasesOnlyAdvance(before, after[..|after| - 1], c);
      assert (before + after)[..|before + after| - 1] == before + after[..|after| - 1];
    }
  }

  /** When a script ends its call is over, and the next caller for the order that wakes gets in. */
  lemma FinishLetsTheNextIn(log: seq<Event>, c: Caller, next: Caller)
    requires NeverHarmful(log) && In(Run(log), c, Running) && In(Run(log), next, Waiting) && next.order == c.order
    ensures In(Step(Run(log), Finish(c)), c, Gone)
    ensures In(Step(Step(Run(log), Finish(c)), Wake(next)), next, Running)
  {
    ExclusionExactly(log);
    LeaveKeepsExactly(Run(log), c);
    AdmitKeeps(Step(Run(log), Finish(c)), next);
  }

  /** A call without a script takes no place and frees none. */
  lemma NoScriptNoChange(s: State, c: Caller)
    requires c !in s.callers
    ensures Step(s, Enter(c, "")).awaiting == s.awaiting && In(Step(s, Enter(c, "")), c, Gone)
  {
  }
}

/** The connect race without its counters: what the flag, the countdown and the rejection count of
    ConnectRace amount to, said of the attempts alone. */
module ConnectOutcomes {
  import opened ConnectRace

  /** What can be seen of a race from outside. */
  datatype Simple = Simple(attempts: seq<Attempt>, calls: seq<Outcome>, moved: seq<nat>)

  function Seen(s: Race): Simple {
    Simple(s.attempts, s.calls, s.moved)
  }

  predicate All(xs: seq<Attempt>, kinds: set<Attempt>) {
    forall i :: 0 <= i < |xs| ==> xs[i] in kinds
  }

  /** Attempt `i` becomes `x`, and the handler is called if that decides the race: at the first
      success, at a rejection after which all attempts are lost, at a failure after which all have failed. */
  function Becomes(s: Simple, i: nat, x: Attempt): Simple
    requires i < |s.attempts|
  {
    var xs := s.attempts[i := x];
    match x
    case Won => Simple(xs, s.calls + [Success(i)], s.moved + [i])
    case Rejected => Simple(xs, s.calls + (if All(xs, {Failed, Rejected}) then [NotFound] else []), s.moved)
    case Failed => Simple(xs, s.calls + (if All(xs, {Failed}) then [Error(i)] else []), s.moved)
    case _ => Simple(xs, s.calls, s.moved)
  }

  function SimpleStep(c: Config, s: Simple, e: Event): Simple
    requires |c.accept| == |s.attempts|
  {
    if e.i >= |s.attempts| then s
    else
      match (e, s.attempts[e.i])
      case (Fire(i), Delayed) =>
        Becomes(s, i, if Won in s.attempts then Skipped else if c.accept[i] then Connecting else Rejected)
      case (Complete(i, ok), Connecting) =>
        Becomes(s, i, if !ok then Failed else if Won in s.attempts then Late else Won)
      case _ => s
  }

  function SimpleLaunch(c: Config): Simple
    requires c.Valid()
  {
    var both := (exists j :: 0 <= j < |c.v4| && c.v4[j]) && (exists j :: 0 <= j < |c.v4| && !c.v4[j]);
    var xs := seq(|c.v4|, i requires 0 <= i < |c.v4| =>
      if both && c.v4[i] then Delayed else if c.accept[i] then Connecting else Rejected);
    Simple(xs, if xs == [] then [NoData] else if All(xs, {Rejected}) then [NotFound] else [], [])
  }

  function SimpleRun(c: Config, events: seq<Event>): (s: Simple)
    requires c.Valid()
    ensures |s.attempts| == |c.accept|
  {
    if events == [] then SimpleLaunch(c)
    else SimpleStep(c, SimpleRun(c, events[..|events| - 1]), events[|events| - 1])
  }

  /** After the launch an attempt is delayed exactly if it is to an IPv4 address and some address is
      not; otherwise it is connecting or rejected as the condition says. */
  lemma LaunchedExactly(c: Config, i: nat)
    requires c.Valid() && i < |c.v4|
    ensures |Launch(c).attempts| == |c.v4|
    ensures Launch(c).attempts[i] ==
      if c.v4[i] && exists j :: 0 <= j < |c.v4| && !c.v4[j] then Delayed
      else if c.accept[i] then Connecting else Rejected
  {
    hide Launch;
    LaunchKeepsInv(c);
    BothFamilies(c);
    assert Launch(c).attempts[i] == Launched(c, i);
  }

  lemma BothFamilies(c: Config)
    ensures c.HappyEyeballs() <==>
      (exists j :: 0 <= j < |c.v4| && c.v4[j]) && (exists j :: 0 <= j < |c.v4| && !c.v4[j])
  {
    if j :| 0 <= j < |c.v4| && c.v4[j] {
      assert true in c.v4;
    }
    if j :| 0 <= j < |c.v4| && !c.v4[j] {
      assert false in c.v4;
    }
  }

  lemma LaunchIsSimple(c: Config)
    requires c.Valid()
    ensures Seen(Launch(c)) == SimpleLaunch(c)
  {
    hide Launch;
    if |c.v4| == 0 {
      NobodyLaunched(c);
    } else {
      LaunchKeepsInv(c);
      var s, t := Launch(c), SimpleLaunch(c);
      forall i | 0 <= i < |c.v4|
        ensures s.attempts[i] == t.attempts[i]
      {
        LaunchedExactly(c, i);
      }
      assert s.attempts == t.attempts;
      LaunchCalls(c);
    }
  }

  lemma NobodyLaunched(c: Config)
    requires c.Valid() && |c.v4| == 0
    ensures Seen(Launch(c)) == Simple([], [NoData], [])
  {
  }

  lemma LaunchCalls(c: Config)
    requires c.Valid() && |c.v4| > 0
    ensures var s := Launch(c); s.calls == (if All(s.attempts, {Rejected}) then [NotFound] else []) && s.moved == []
  {
    hide Launch, Count;
    var s := Launch(c);
    LaunchKeepsInv(c);
    assert forall i :: 0 <= i < |s.attempts| ==> s.attempts[i] == Launched(c, i);
    CountFull(s.attempts, {Rejected});
    CountEmpty(s.attempts, {Failed});
  }

  lemma WinnerMeansFlag(s: Race)
    requires Inv(s)
    ensures s.flag <==> Won in s.attempts
  {
  }

  /** The counters say exactly whether all attempts are lost, and whether all have failed. */
  lemma CountersMean(s: Race)
    requires Inv(s) && !s.flag
    ensures s.reject == s.num <==> All(s.attempts, {Failed, Rejected})
    ensures s.num == 0 <==> All(s.attempts, {Failed})
  {
    hide Count;
    CountFull(s.attempts, {Failed} + {Rejected});
    CountSplit(s.attempts, {Failed}, {Rejected});
    CountFull(s.attempts, {Failed});
    assert {Failed} + {Rejected} == {Failed, Rejected};
  }

  /** Each event does to what can be seen exactly what it does in the race without counters. */
  lemma StepIsSimple(c: Config, s: Race, e: Event)
    requires c.Valid() && Inv(s) && |s.attempts| == |c.v4|
    ensures Seen(Step(c, s, e)) == SimpleStep(c, Seen(s), e)
  {
    hide Inv, All;
    StepKeepsInv(c, s, e);
    WinnerMeansFlag(s);
    if e.i < |s.attempts| && s.attempts[e.i] == Delayed && e.Fire? && !s.flag {
      if !c.accept[e.i] {
        CountersMean(Step(c, s, e));
      }
    } else if e.i < |s.attempts| && s.attempts[e.i] == Connecting && e.Complete? && !e.ok {
      FailIsSimple(c, s, e.i);
    }
  }

  lemma FailIsSimple(c: Config, s: Race, i: nat)
    requires c.Valid() && Inv(s) && |s.attempts| == |c.v4| && i < |c.v4| && s.attempts[i] == Connecting
    ensures Step(c, s, Complete(i, false)).calls
         == s.calls + (if All(s.attempts[i := Failed], {Failed}) then [Error(i)] else [])
  {
    hide Inv;
    var t := Step(c, s, Complete(i, false));
    StepKeepsInv(c, s, Complete(i, false));
    assert s.calls + [] == s.calls;
    if s.flag {
      WinnerMeansFlag(t);
    } else {
      CountersMean(t);
    }
  }

  /** In every run what can be seen is exactly the run without counters. */
  lemma {:induction false} RunIsSimple(c: Config, events: seq<Event>)
    requires c.Valid()
    ensures Seen(Run(c, events)) == SimpleRun(c, events)
  {
    hide Step, SimpleStep, Launch, SimpleLaunch, Inv;
    if events == [] {
      LaunchIsSimple(c);
    } else {
      var before, e := events[..|events| - 1], events[|events| - 1];
      RunIsSimple(c, before);
      if |c.v4| > 0 {
        RunKeepsInv(c, before);
        StepIsSimple(c, Run(c, before), e);
      } else {
        NoEndpointNoStep(c, Run(c, before), e);
      }
    }
  }

  lemma NoEndpointNoStep(c: Config, s: Race, e: Event)
    requires c.Valid() && |c.v4| == |s.attempts| == 0
    ensures Step(c, s, e) == s && SimpleStep(c, Seen(s), e) == Seen(s)
  {
  }

  /** Event `k` is the completion that makes attempt `i` fail. */
  ghost predicate FailsAt(c: Config, events: seq<Event>, k: nat, i: nat)
    requires c.Valid()
  {
    && k < |events| && events[k] == Complete(i, false) && i < |c.v4|
    && Run(c, events[..k]).attempts[i] == Connecting
  }

  ghost predicate LastToFail(c: Config, events: seq<Event>, k: nat, i: nat)
    requires c.Valid()
  {
    FailsAt(c, events, k, i) && forall j: nat, i': nat :: k < j ==> !FailsAt(c, events, j, i')
  }

  /** A reported error is that of the last attempt to fail. */
  lemma {:induction false} ErrorIsTheLast(c: Config, events: seq<Event>, i: nat)
    requires c.Valid() && |c.v4| > 0 && Run(c, events).calls == [Error(i)]
    ensures exists k: nat :: LastToFail(c, events, k, i)
  {
    hide Inv, Step, Launch, Run;
    if events == [] {
      NoErrorYet(c, i);
    } else {
      var n := |events| - 1;
      var before := events[..n];
      var m := Run(c, before);
      RunKeepsInv(c, before);
      LastEvent(c, events, i);
      if m.calls == [Error(i)] {
        ErrorIsTheLast(c, before, i);
        var k: nat :| LastToFail(c, before, k, i);
        ErrorMeansAllFailed(m, i);
        LastStays(c, events, k, i);
      } else {
        assert events[..n] == before;
        assert FailsAt(c, events, n, i);
        assert LastToFail(c, events, n, i);
      }
    }
  }

  lemma NoErrorYet(c: Config, i: nat)
    requires c.Valid() && |c.v4| > 0
    ensures Run(c, []).calls != [Error(i)]
  {
    LaunchIsSimple(c);
  }

  /** An error is reported by the event before it, or by this event, a failure. */
  lemma {:induction false} LastEvent(c: Config, events: seq<Event>, i: nat)
    requires c.Valid() && events != [] && Run(c, events).calls == [Error(i)] && Inv(Run(c, events[..|events| - 1]))
    ensures var m, e := Run(c, events[..|events| - 1]), events[|events| - 1];
      m.calls == [Error(i)] || (e == Complete(i, false) && i < |c.v4| && m.attempts[i] == Connecting)
  {
    hide Inv, Step, All;
    var m, e := Run(c, events[..|events| - 1]), events[|events| - 1];
    var t := SimpleStep(c, Seen(m), e);
    StepIsSimple(c, m, e);
    assert t.calls == [Error(i)];
    if m.calls != [] {
      assert t.calls[..|m.calls|] == m.calls;
    }
  }

  lemma ErrorMeansAllFailed(s: Race, i: nat)
    requires Inv(s) && s.calls == [Error(i)]
    ensures All(s.attempts, {Failed})
  {
    hide Count;
    CountFull(s.attempts, {Failed});
  }

  lemma LastStays(c: Config, events: seq<Event>, k: nat, i: nat)
    requires c.Valid() && events != [] && LastToFail(c, events[..|events| - 1], k, i)
    requires All(Run(c, events[..|events| - 1]).attempts, {Failed})
    ensures LastToFail(c, events, k, i)
  {
    hide Run;
    var n := |events| - 1;
    FailsInPrefix(c, events, n, k, i);
    forall j: nat, i': nat | k < j
      ensures !FailsAt(c, events, j, i')
    {
      if j < n {
        FailsInPrefix(c, events, n, j, i');
      }
    }
  }

  lemma FailsInPrefix(c: Config, events: seq<Event>, n: nat, k: nat, i: nat)
    requires c.Valid() && k < n <= |events|
    ensures FailsAt(c, events[..n], k, i) == FailsAt(c, events, k, i)
  {
    assert events[..n][..k] == events[..k];
  }
}

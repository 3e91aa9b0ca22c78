/** `asio_util::async_connect`: one attempt per endpoint, racing; completion handlers and timers are
    atomic steps that may come in any order. */
module ConnectRace {

  /** What is fixed before the race: each endpoint's address family, and what the connect
      condition says about it. */
  datatype Config = Config(v4: seq<bool>, accept: seq<bool>) {
    ghost predicate Valid() {
      |v4| == |accept|
    }

    /** Both families are present, so IPv4 attempts are delayed. */
    predicate HappyEyeballs() {
      true in v4 && false in v4
    }
  }

  datatype Attempt =
    | Idle        // not yet reached by the launching loop
    | Delayed     // waiting for the 200 ms timer
    | Skipped     // the timer found the race already won
    | Rejected    // refused by the connect condition
    | Connecting
    | Failed
    | Won         // the first to connect
    | Late        // connected after the winner

  /** A call of the user's handler. */
  datatype Outcome = NoData | NotFound | Success(i: nat) | Error(i: nat)

  datatype Race = Race(
    attempts: seq<Attempt>, flag: bool, num: int, reject: nat,
    calls: seq<Outcome>,   // handler calls so far
    moved: seq<nat>)    // attempts whose socket was moved into the caller's stream

  datatype Event = Fire(i: nat) | Complete(i: nat, ok: bool)

  /** One connector: asks the condition, then starts connecting. */
  function TryConnect(c: Config, s: Race, i: nat): Race
    requires i < |c.accept| && i < |s.attempts|
  {
    if !c.accept[i] then
      var t := s.(reject := s.reject + 1, attempts := s.attempts[i := Rejected]);
      if t.reject == t.num then t.(calls := t.calls + [NotFound]) else t
    else
      s.(attempts := s.attempts[i := Connecting])
  }

  /** The launching loop, from endpoint `i` on. */
  function LaunchFrom(c: Config, s: Race, i: nat): Race
    requires c.Valid() && i <= |c.v4| == |s.attempts|
    decreases |c.v4| - i
  {
    if i == |c.v4| then s
    else if c.HappyEyeballs() && c.v4[i] then
      LaunchFrom(c, s.(attempts := s.attempts[i := Delayed]), i + 1)
    else
      LaunchFrom(c, TryConnect(c, s, i), i + 1)
  }

  function Start(c: Config): Race {
    Race(seq(|c.v4|, _ => Idle), false, |c.v4|, 0, [], [])
  }

  function Launch(c: Config): Race
    requires c.Valid()
  {
    if |c.v4| == 0 then Start(c).(calls := [NoData]) else LaunchFrom(c, Start(c), 0)
  }

  function Step(c: Config, s: Race, e: Event): Race
    requires c.Valid() && |s.attempts| == |c.v4|
  {
    if e.i >= |s.attempts| then s
    else
      match e
      case Fire(i) =>
        if s.attempts[i] != Delayed then s
        else if s.flag then s.(attempts := s.attempts[i := Skipped])
        else TryConnect(c, s, i)
      case Complete(i, ok) =>
        if s.attempts[i] != Connecting then s
        else if ok then
          if s.flag then s.(attempts := s.attempts[i := Late])
          else
            s.(flag := true, attempts := s.attempts[i := Won], moved := s.moved + [i],
               num := s.num - 1, calls := s.calls + [Success(i)])
        else
          var t := s.(num := s.num - 1, attempts := s.attempts[i := Failed]);
          if t.flag || t.num != 0 then t else t.(calls := t.calls + [Error(i)])
  }

  function Run(c: Config, events: seq<Event>): (s: Race)
    requires c.Valid()
    ensures |s.attempts| == |c.v4|
  {
    if events == [] then LaunchSize(c); Launch(c)
    else Step(c, Run(c, events[..|events| - 1]), events[|events| - 1])
  }

  lemma LaunchSize(c: Config)
    requires c.Valid()
    ensures |Launch(c).attempts| == |c.v4|
  {
    LaunchFromSize(c, Start(c), 0);
  }

  lemma {:induction false} LaunchFromSize(c: Config, s: Race, i: nat)
    requires c.Valid() && i <= |c.v4| == |s.attempts|
    ensures |LaunchFrom(c, s, i).attempts| == |c.v4|
    decreases |c.v4| - i
  {
    if i < |c.v4| {
      LaunchFromSize(c, if c.HappyEyeballs() && c.v4[i] then s.(attempts := s.attempts[i := Delayed])
                        else TryConnect(c, s, i), i + 1);
    }
  }

  /** Every timer has fired and every started attempt has completed. */
  ghost predicate Quiescent(s: Race) {
    forall i :: 0 <= i < |s.attempts| ==> s.attempts[i] !in {Idle, Delayed, Connecting}
  }

  // ---- the shared context and its callbacks ----

  class ConnectContext {
    const config: Config
    var flag: bool
    var num: int
    var reject: nat
    ghost var attempts: seq<Attempt>
    ghost var calls: seq<Outcome>
    ghost var moved: seq<nat>

    ghost function Model(): Race
      reads this
    {
      Race(attempts, flag, num, reject, calls, moved)
    }

    constructor (config: Config)
      requires config.Valid()
      ensures this.config == config && Model() == Start(config)
    {
      this.config, flag, num, reject := config, false, |config.v4|, 0;
      attempts, calls, moved := Start(config).attempts, [], [];
    }

    /** Starts the race: no_data without endpoints, else every connector in turn, at once or on a timer. */
    method DoAsyncConnect()
      requires config.Valid() && Model() == Start(config)
      modifies this
      ensures Model() == Launch(config)
    {
      if num == 0 {
        calls := calls + [NoData];
        return;
      }
      var hasA, hasAaaa := false, false;
      for i := 0 to |config.v4|
        invariant hasA == (true in config.v4[..i]) && hasAaaa == (false in config.v4[..i])
      {
        hasA, hasAaaa := hasA || config.v4[i], hasAaaa || !config.v4[i];
      }
      assert config.v4[..|config.v4|] == config.v4;
      var useHappyEyeball := hasA && hasAaaa;
      for i := 0 to |config.v4|
        invariant |attempts| == |config.v4| && LaunchFrom(config, Model(), i) == Launch(config)
      {
        if useHappyEyeball && config.v4[i] {
          attempts := attempts[i := Delayed];
        } else {
          Connector(i);
        }
      }
    }

    method Connector(i: nat)
      requires i < |config.accept| && i < |attempts|
      modifies this
      ensures Model() == TryConnect(config, old(Model()), i)
    {
      if !config.accept[i] {
        reject := reject + 1;
        attempts := attempts[i := Rejected];
        if reject == num {
          calls := calls + [NotFound];
        }
        return;
      }
      attempts := attempts[i := Connecting];
    }

    /** The 200 ms timer of attempt `i` fires. */
    method OnTimer(i: nat)
      requires config.Valid() && |attempts| == |config.v4| && i < |attempts| && attempts[i] == Delayed
      modifies this
      ensures Model() == Step(config, old(Model()), Fire(i))
    {
      if flag {
        attempts := attempts[i := Skipped];
        return;
      }
      Connector(i);
    }

    /** The completion handler of attempt `i`. */
    method OnConnect(i: nat, ok: bool)
      requires config.Valid() && |attempts| == |config.v4| && i < |attempts| && attempts[i] == Connecting
      modifies this
      ensures Model() == Step(config, old(Model()), Complete(i, ok))
    {
      if ok {
        var before := flag;
        flag := true;
        if before {
          attempts := attempts[i := Late];
          return;
        }
        moved := moved + [i];
      }
      attempts := attempts[i := if ok then Won else Failed];
      num := num - 1;
      var isLast := num == 0;
      if !ok {
        if flag || !isLast {
          return;
        }
      }
      calls := calls + [if ok then Success(i) else Error(i)];
    }
  }

  // ---- counting attempts ----

  function Count(xs: seq<Attempt>, kinds: set<Attempt>): (n: nat)
    ensures n <= |xs|
  {
    if xs == [] then 0 else Count(xs[..|xs| - 1], kinds) + (if xs[|xs| - 1] in kinds then 1 else 0)
  }

  lemma {:induction false} CountUpdate(xs: seq<Attempt>, i: nat, x: Attempt, kinds: set<Attempt>)
    requires i < |xs|
    ensures Count(xs[i := x], kinds)
         == Count(xs, kinds) - (if xs[i] in kinds then 1 else 0) + (if x in kinds then 1 else 0)
  {
    var n := |xs| - 1;
    if i == n {
      assert xs[i := x][..n] == xs[..n];
    } else {
      CountUpdate(xs[..n], i, x, kinds);
      assert xs[i := x][..n] == xs[..n][i := x];
    }
  }

  lemma {:induction false} CountFull(xs: seq<Attempt>, kinds: set<Attempt>)
    ensures Count(xs, kinds) == |xs| <==> forall i :: 0 <= i < |xs| ==> xs[i] in kinds
  {
    if xs != [] {
      var n := |xs| - 1;
      CountFull(xs[..n], kinds);
      assert forall i :: 0 <= i < n ==> xs[..n][i] == xs[i];
    }
  }

  lemma {:induction false} CountEmpty(xs: seq<Attempt>, kinds: set<Attempt>)
    ensures Count(xs, kinds) == 0 <==> forall i :: 0 <= i < |xs| ==> xs[i] !in kinds
  {
    if xs != [] {
      var n := |xs| - 1;
      CountEmpty(xs[..n], kinds);
      assert forall i :: 0 <= i < n ==> xs[..n][i] == xs[i];
    }
  }

  lemma {:induction false} CountSplit(xs: seq<Attempt>, a: set<Attempt>, b: set<Attempt>)
    requires a !! b
    ensures Count(xs, a + b) == Count(xs, a) + Count(xs, b)
  {
    if xs != [] {
      CountSplit(xs[..|xs| - 1], a, b);
    }
  }

  // ---- the invariant ----

  function Failures(s: Race): nat { Count(s.attempts, {Failed}) }

  function Rejections(s: Race): nat { Count(s.attempts, {Rejected}) }

  /** Every attempt has ended badly. */
  ghost predicate AllLost(s: Race) {
    Failures(s) + Rejections(s) == |s.attempts|
  }

  ghost predicate Inv(s: Race) {
    && s.attempts != []
    && s.num == |s.attempts| - Failures(s) - (if s.flag then 1 else 0)
    && s.reject == Rejections(s)
    && (forall i :: 0 <= i < |s.attempts| && s.attempts[i] == Won ==> s.flag && s.moved == [i])
    && (forall i :: 0 <= i < |s.attempts| && s.attempts[i] in {Late, Skipped} ==> s.flag)
    && (if s.flag then
          |s.moved| == 1 && s.calls == [Success(s.moved[0])]
          && s.moved[0] < |s.attempts| && s.attempts[s.moved[0]] == Won
        else
          s.moved == [] && LostCalls(s))
  }

  /** Without a winner the handler is called only when everything is lost: with the last error if
      every attempt failed, with not_found if every attempt was rejected. */
  ghost predicate LostCalls(s: Race) {
    && (s.calls == [] || (AllLost(s) && |s.calls| == 1))
    && (Failures(s) == |s.attempts| ==> |s.calls| == 1 && s.calls[0].Error?)
    && (Rejections(s) == |s.attempts| ==> s.calls == [NotFound])
    && (|s.calls| == 1 ==> if Rejections(s) == 0 then s.calls[0].Error? else s.calls[0] == NotFound)
  }

  lemma CountsAfter(s: Race, i: nat, x: Attempt)
    requires i < |s.attempts| && s.attempts[i] !in {Failed, Rejected}
    ensures var t := s.(attempts := s.attempts[i := x]);
            && Failures(t) == Failures(s) + (if x == Failed then 1 else 0)
            && Rejections(t) == Rejections(s) + (if x == Rejected then 1 else 0)
            && Failures(s) + Rejections(s) < |s.attempts|
            && Failures(t) + Rejections(t) <= |s.attempts|
  {
    CountUpdate(s.attempts, i, x, {Failed});
    CountUpdate(s.attempts, i, x, {Rejected});
    CountUpdate(s.attempts, i, x, {Failed} + {Rejected});
    CountSplit(s.attempts, {Failed}, {Rejected});
    CountFull(s.attempts, {Failed} + {Rejected});
  }

  lemma TryConnectKeepsInv(c: Config, s: Race, i: nat)
    requires c.Valid() && Inv(s) && |s.attempts| == |c.v4| && i < |c.v4|
    requires !s.flag && s.attempts[i] in {Idle, Delayed}
    ensures Inv(TryConnect(c, s, i))
  {
    hide Count;
    CountsAfter(s, i, if c.accept[i] then Connecting else Rejected);
  }

  lemma DelayKeepsInv(s: Race, i: nat, x: Attempt)
    requires Inv(s) && i < |s.attempts| && s.attempts[i] in {Idle, Delayed, Connecting}
    requires x == Delayed || (x in {Skipped, Late} && s.flag)
    ensures Inv(s.(attempts := s.attempts[i := x]))
  {
    hide Count;
    CountsAfter(s, i, x);
  }

  lemma FailKeepsInv(c: Config, s: Race, i: nat)
    requires c.Valid() && Inv(s) && |s.attempts| == |c.v4| && i < |c.v4| && s.attempts[i] == Connecting
    ensures Inv(Step(c, s, Complete(i, false)))
  {
    hide Count;
    CountsAfter(s, i, Failed);
  }

  lemma WinKeepsInv(c: Config, s: Race, i: nat)
    requires c.Valid() && Inv(s) && |s.attempts| == |c.v4| && i < |c.v4| && s.attempts[i] == Connecting
    requires !s.flag
    ensures Inv(Step(c, s, Complete(i, true)))
  {
    hide Count;
    CountsAfter(s, i, Won);
  }

  lemma StepKeepsInv(c: Config, s: Race, e: Event)
    requires c.Valid() && Inv(s) && |s.attempts| == |c.v4|
    ensures Inv(Step(c, s, e))
  {
    hide Inv;
    if e.i < |s.attempts| {
      match e
      case Fire(i) =>
        if s.attempts[i] == Delayed {
          if s.flag {
            DelayKeepsInv(s, i, Skipped);
          } else {
            TryConnectKeepsInv(c, s, i);
          }
        }
      case Complete(i, ok) =>
        if s.attempts[i] == Connecting {
          if !ok {
            FailKeepsInv(c, s, i);
          } else if s.flag {
            DelayKeepsInv(s, i, Late);
          } else {
            WinKeepsInv(c, s, i);
          }
        }
    }
  }

  /** After the launch each attempt is delayed, connecting or rejected, as its family and the
      condition say. */
  function Launched(c: Config, i: nat): Attempt
    requires c.Valid() && i < |c.v4|
  {
    if c.HappyEyeballs() && c.v4[i] then Delayed else Begun(c, i)
  }

  function Begun(c: Config, i: nat): Attempt
    requires i < |c.accept|
  {
    if c.accept[i] then Connecting else Rejected
  }

  lemma {:induction false} LaunchFromKeepsInv(c: Config, s: Race, i: nat)
    requires c.Valid() && Inv(s) && !s.flag && i <= |c.v4| == |s.attempts|
    requires forall j :: 0 <= j < i ==> s.attempts[j] == Launched(c, j)
    requires forall j :: i <= j < |c.v4| ==> s.attempts[j] == Idle
    ensures var t := LaunchFrom(c, s, i);
            && Inv(t) && !t.flag && |t.attempts| == |c.v4|
            && forall j :: 0 <= j < |c.v4| ==> t.attempts[j] == Launched(c, j)
    decreases |c.v4| - i
  {
    hide Inv;
    if i < |c.v4| {
      if c.HappyEyeballs() && c.v4[i] {
        DelayKeepsInv(s, i, Delayed);
        LaunchFromKeepsInv(c, s.(attempts := s.attempts[i := Delayed]), i + 1);
      } else {
        TryConnectKeepsInv(c, s, i);
        LaunchFromKeepsInv(c, TryConnect(c, s, i), i + 1);
      }
    }
  }

  lemma LaunchKeepsInv(c: Config)
    requires c.Valid() && |c.v4| > 0
    ensures Inv(Launch(c)) && !Launch(c).flag
    ensures |Launch(c).attempts| == |c.v4| && forall i :: 0 <= i < |c.v4| ==> Launch(c).attempts[i] == Launched(c, i)
  {
    CountEmpty(Start(c).attempts, {Failed});
    CountEmpty(Start(c).attempts, {Rejected});
    LaunchFromKeepsInv(c, Start(c), 0);
  }

  lemma {:induction false} RunKeepsInv(c: Config, events: seq<Event>)
    requires c.Valid() && |c.v4| > 0
    ensures Inv(Run(c, events))
  {
    if events == [] {
      LaunchKeepsInv(c);
    } else {
      RunKeepsInv(c, events[..|events| - 1]);
      StepKeepsInv(c, Run(c, events[..|events| - 1]), events[|events| - 1]);
    }
  }

  // ---- the theorems ----

  /** Event `k` is the completion that makes attempt `i` succeed. */
  ghost predicate SucceedsAt(c: Config, events: seq<Event>, k: nat, i: nat)
    requires c.Valid()
  {
    && k < |events| && events[k] == Complete(i, true) && i < |c.v4|
    && Run(c, events[..k]).attempts[i] == Connecting
  }

  /** In every run the handler is called at most once and the caller's stream assigned at most once;
      a success is reported exactly when the stream was assigned, for the same attempt, and that
      attempt is the first of all to succeed. */
  lemma HandlerCalledAtMostOnce(c: Config, events: seq<Event>)
    requires c.Valid()
    ensures var s := Run(c, events);
            && |s.calls| <= 1 && |s.moved| <= 1
            && (forall i: nat :: s.calls == [Success(i)] <==> s.moved == [i])
            && (forall i: nat :: s.moved == [i] ==> exists k: nat :: SucceedsAt(c, events, k, i) && NoneBefore(c, events, k))
            && (s.moved == [] ==> NoneBefore(c, events, |events|))
  {
    hide Inv, Launch, Step;
    if |c.v4| == 0 {
      NoEndpoints(c, events);
    } else {
      RunKeepsInv(c, events);
      InvBounds(Run(c, events));
      FirstSuccessWins(c, events);
    }
  }

  ghost predicate NoneBefore(c: Config, events: seq<Event>, k: nat)
    requires c.Valid()
  {
    forall j: nat, i: nat :: j < k ==> !SucceedsAt(c, events, j, i)
  }

  lemma InvBounds(s: Race)
    requires Inv(s)
    ensures |s.calls| <= 1 && |s.moved| <= 1 && (s.flag <==> s.moved != [])
    ensures forall i: nat :: s.calls == [Success(i)] <==> s.moved == [i]
  {
  }

  lemma {:induction false} FirstSuccessWins(c: Config, events: seq<Event>)
    requires c.Valid() && |c.v4| > 0
    ensures var s := Run(c, events);
            && (s.moved == [] ==> NoneBefore(c, events, |events|))
            && (forall i: nat :: s.moved == [i] ==> exists k: nat :: SucceedsAt(c, events, k, i) && NoneBefore(c, events, k))
  {
    if events == [] {
      LaunchKeepsInv(c);
    } else {
      var n := |events| - 1;
      var init, m, s := events[..n], Run(c, events[..n]), Run(c, events);
      FirstSuccessWins(c, init);
      RunKeepsInv(c, init);
      InvBounds(m);
      MovedAfter(c, m, events[n]);
      SuccessesOfPrefix(c, events, n);
      if m.moved != [] {
        var k: nat :| SucceedsAt(c, init, k, m.moved[0]) && NoneBefore(c, init, k);
        assert SucceedsAt(c, events, k, m.moved[0]) && NoneBefore(c, events, k);
      } else if s.moved != [] {
        assert SucceedsAt(c, events, n, s.moved[0]) && NoneBefore(c, events, n);
      }
    }
  }

  lemma MovedAfter(c: Config, m: Race, e: Event)
    requires c.Valid() && Inv(m) && |m.attempts| == |c.v4|
    ensures var s := Step(c, m, e);
            var wins := e.Complete? && e.ok && e.i < |c.v4| && m.attempts[e.i] == Connecting;
            s.moved == if wins && m.moved == [] then [e.i] else m.moved
  {
  }

  lemma SuccessesOfPrefix(c: Config, events: seq<Event>, n: nat)
    requires c.Valid() && n <= |events|
    ensures forall k: nat, i: nat :: k < n ==> (SucceedsAt(c, events[..n], k, i) <==> SucceedsAt(c, events, k, i))
  {
    forall k: nat, i: nat | k < n
      ensures SucceedsAt(c, events[..n], k, i) <==> SucceedsAt(c, events, k, i)
    {
      assert events[..n][..k] == events[..k];
    }
  }

  /** With no endpoint the handler gets exactly one no_data, whatever follows. */
  lemma {:induction false} NoEndpoints(c: Config, events: seq<Event>)
    requires c.Valid() && |c.v4| == 0
    ensures Run(c, events).calls == [NoData] && Run(c, events).moved == []
  {
    if events != [] {
      NoEndpoints(c, events[..|events| - 1]);
    }
  }

  /** Only the connectors decide between connecting and rejecting, so the condition shows. */
  lemma {:induction false} ConditionDecides(c: Config, events: seq<Event>)
    requires c.Valid() && |c.v4| > 0
    ensures forall i :: 0 <= i < |c.v4| ==>
      match Run(c, events).attempts[i]
      case Rejected => !c.accept[i]
      case Connecting => c.accept[i]
      case Failed => c.accept[i]
      case Won => c.accept[i]
      case Late => c.accept[i]
      case Idle => false
      case _ => true
  {
    if events == [] {
      LaunchKeepsInv(c);
    } else {
      ConditionDecides(c, events[..|events| - 1]);
    }
  }

  /** A run has finished exactly when no event can change anything any more. */
  lemma QuiescentMeansFinished(c: Config, events: seq<Event>)
    requires c.Valid() && |c.v4| > 0
    ensures Quiescent(Run(c, events)) <==> forall e :: Step(c, Run(c, events), e) == Run(c, events)
  {
    var s := Run(c, events);
    hide Run;
    ConditionDecides(c, events);
    if !Quiescent(s) {
      var i :| 0 <= i < |s.attempts| && s.attempts[i] in {Idle, Delayed, Connecting};
      var e := if s.attempts[i] == Delayed then Fire(i) else Complete(i, false);
      assert Step(c, s, e).attempts[i] != s.attempts[i];
    }
  }

  ghost predicate Uniform(c: Config) {
    (forall i :: 0 <= i < |c.accept| ==> c.accept[i]) || (forall i :: 0 <= i < |c.accept| ==> !c.accept[i])
  }

  /** If the condition accepts every endpoint, a finished run has called the handler exactly once:
      with the success of the winner, or with an error if and only if all N attempts failed. */
  lemma AcceptAllCompletesOnce(c: Config, events: seq<Event>)
    requires c.Valid() && |c.v4| > 0 && (forall i :: 0 <= i < |c.v4| ==> c.accept[i])
    requires Quiescent(Run(c, events))
    ensures var s := Run(c, events);
            && |s.calls| == 1 && (s.calls[0].Success? || s.calls[0].Error?)
            && (s.calls[0].Error? <==> forall i :: 0 <= i < |c.v4| ==> s.attempts[i] == Failed)
  {
    var s := Run(c, events);
    hide Run, Count;
    RunKeepsInv(c, events);
    ConditionDecides(c, events);
    CountEmpty(s.attempts, {Rejected});
    CountFull(s.attempts, {Failed});
  }

  /** If it rejects every endpoint, a finished run has called the handler exactly once, with not_found. */
  lemma RejectAllCompletesOnce(c: Config, events: seq<Event>)
    requires c.Valid() && |c.v4| > 0 && (forall i :: 0 <= i < |c.v4| ==> !c.accept[i])
    requires Quiescent(Run(c, events))
    ensures Run(c, events).calls == [NotFound] && Run(c, events).moved == []
  {
    var s := Run(c, events);
    hide Run, Count;
    RunKeepsInv(c, events);
    ConditionDecides(c, events);
    CountFull(s.attempts, {Rejected});
    FlagMeansWinner(s);
  }

  lemma FlagMeansWinner(s: Race)
    requires Inv(s)
    ensures s.flag ==> exists i :: 0 <= i < |s.attempts| && s.attempts[i] == Won
  {
  }

  /** Every finished run calls the handler exactly once if and only if the condition treats all
      endpoints alike. Otherwise there is a finished run, with every timer fired before the accepted
      attempts fail, in which the handler is never called. */
  lemma ExactlyOnceIffUniform(c: Config)
    requires c.Valid()
    ensures Uniform(c) <==> forall events :: Quiescent(Run(c, events)) ==> |Run(c, events).calls| == 1
  {
    if Uniform(c) {
      forall events | Quiescent(Run(c, events))
        ensures |Run(c, events).calls| == 1
      {
        if |c.v4| == 0 {
          NoEndpoints(c, events);
        } else if forall i :: 0 <= i < |c.accept| ==> c.accept[i] {
          AcceptAllCompletesOnce(c, events);
        } else {
          RejectAllCompletesOnce(c, events);
        }
      }
    } else {
      var events := SilentRun(c);
    }
  }

  /** The first `k` timers, in order. */
  function Fires(k: nat): seq<Event> {
    seq(k, i requires 0 <= i < k => Fire(i))
  }

  function Failing(k: nat): seq<Event> {
    seq(k, i requires 0 <= i < k => Complete(i, false))
  }

  /** After the first `k` timers those attempts have begun, and none of the others changed. */
  ghost predicate Fired(c: Config, s: Race, k: nat)
    requires c.Valid()
  {
    && !s.flag && |s.attempts| == |c.v4|
    && forall i :: 0 <= i < |c.v4| ==> s.attempts[i] == if i < k then Begun(c, i) else Launched(c, i)
  }

  lemma FireStep(c: Config, s: Race, k: nat)
    requires c.Valid() && k < |c.v4| && Fired(c, s, k)
    ensures Fired(c, Step(c, s, Fire(k)), k + 1)
  {
  }

  lemma {:induction false} AfterFires(c: Config, k: nat)
    requires c.Valid() && 0 < |c.v4| && k <= |c.v4|
    ensures Fired(c, Run(c, Fires(k)), k)
  {
    if k == 0 {
      LaunchKeepsInv(c);
    } else {
      hide Fired, Step;
      AfterFires(c, k - 1);
      assert Fires(k)[..k - 1] == Fires(k - 1);
      FireStep(c, Run(c, Fires(k - 1)), k - 1);
    }
  }

  /** After the first `k` attempts have failed too, the handler has still not been called. */
  ghost predicate FailedSilently(c: Config, s: Race, k: nat)
    requires c.Valid()
  {
    && s.calls == [] && !s.flag && |s.attempts| == |c.v4|
    && forall i :: 0 <= i < |c.v4| ==> s.attempts[i] == if i < k && c.accept[i] then Failed else Begun(c, i)
  }

  lemma FailStep(c: Config, s: Race, k: nat)
    requires c.Valid() && !Uniform(c) && k < |c.v4| && FailedSilently(c, s, k) && Inv(s)
    ensures FailedSilently(c, Step(c, s, Complete(k, false)), k + 1)
  {
    hide Inv, Uniform;
    StepKeepsInv(c, s, Complete(k, false));
    var t := Step(c, s, Complete(k, false));
    assert forall i :: 0 <= i < |c.v4| && !c.accept[i] ==> t.attempts[i] == Rejected;
    SomeRejected(c, t);
  }

  lemma {:induction false} AfterFailing(c: Config, k: nat)
    requires c.Valid() && !Uniform(c) && k <= |c.v4|
    ensures FailedSilently(c, Run(c, Fires(|c.v4|) + Failing(k)), k)
  {
    hide Step, Launch, Inv;
    var n := |c.v4|;
    var events := Fires(n) + Failing(k);
    if k == 0 {
      AfterFires(c, n);
      assert events == Fires(n);
      NotAllLost(c, Run(c, events));
    } else {
      hide FailedSilently, Uniform;
      AfterFailing(c, k - 1);
      assert events[..|events| - 1] == Fires(n) + Failing(k - 1);
      RunKeepsInv(c, Fires(n) + Failing(k - 1));
      FailStep(c, Run(c, Fires(n) + Failing(k - 1)), k - 1);
    }
  }

  lemma NotAllLost(c: Config, s: Race)
    requires c.Valid() && !Uniform(c) && |s.attempts| == |c.v4| && s == Run(c, Fires(|c.v4|))
    requires !s.flag && forall i :: 0 <= i < |c.v4| ==> s.attempts[i] == Begun(c, i)
    ensures s.calls == []
  {
    hide Count, Run;
    RunKeepsInv(c, Fires(|c.v4|));
    CountEmpty(s.attempts, {Failed});
    CountFull(s.attempts, {Rejected});
    var i :| 0 <= i < |c.accept| && c.accept[i];
    assert s.attempts[i] == Connecting;
  }

  lemma SomeRejected(c: Config, s: Race)
    requires c.Valid() && !Uniform(c) && |s.attempts| == |c.v4| && Inv(s) && !s.flag
    requires forall i :: 0 <= i < |c.v4| && !c.accept[i] ==> s.attempts[i] == Rejected
    ensures s.num != 0
  {
    CountFull(s.attempts, {Failed});
  }

  lemma SilentRun(c: Config) returns (events: seq<Event>)
    requires c.Valid() && !Uniform(c)
    ensures Quiescent(Run(c, events)) && Run(c, events).calls == []
  {
    events := Fires(|c.v4|) + Failing(|c.v4|);
    AfterFailing(c, |c.v4|);
  }

  // ---- every race comes to an end ----

  /** How many more events an attempt can take part in. */
  function Pending(a: Attempt): nat {
    match a
    case Delayed => 2
    case Connecting => 1
    case _ => 0
  }

  function Potential(xs: seq<Attempt>): (n: nat)
    ensures n <= 2 * |xs|
  {
    if xs == [] then 0 else Potential(xs[..|xs| - 1]) + Pending(xs[|xs| - 1])
  }

  lemma {:induction false} PotentialUpdate(xs: seq<Attempt>, i: nat, x: Attempt)
    requires i < |xs|
    ensures Potential(xs[i := x]) == Potential(xs) - Pending(xs[i]) + Pending(x)
  {
    var n := |xs| - 1;
    if i == n {
      assert xs[i := x][..n] == xs[..n];
    } else {
      PotentialUpdate(xs[..n], i, x);
      assert xs[i := x][..n] == xs[..n][i := x];
    }
  }

  /** An event that changes anything uses up some of what is pending. */
  lemma EffectiveStepsUseUp(c: Config, s: Race, e: Event)
    requires c.Valid() && |s.attempts| == |c.v4|
    ensures Step(c, s, e) != s ==> Potential(Step(c, s, e).attempts) < Potential(s.attempts)
  {
    hide Potential;
    if e.i < |s.attempts| {
      PotentialUpdate(s.attempts, e.i, Step(c, s, e).attempts[e.i]);
    }
  }

  /** The number of events of a run that changed the race. */
  function Effective(c: Config, events: seq<Event>): nat
    requires c.Valid()
  {
    if events == [] then 0
    else
      var before := events[..|events| - 1];
      Effective(c, before) + (if Run(c, events) == Run(c, before) then 0 else 1)
  }

  /** In every run at most two events per endpoint change anything. */
  lemma {:induction false} EffectiveEventsAreFew(c: Config, events: seq<Event>)
    requires c.Valid()
    ensures Effective(c, events) + Potential(Run(c, events).attempts) <= 2 * |c.v4|
  {
    hide Step, Launch;
    if events != [] {
      var before, e := events[..|events| - 1], events[|events| - 1];
      EffectiveEventsAreFew(c, before);
      EffectiveStepsUseUp(c, Run(c, before), e);
    }
  }

  /** Every run can be continued to a finished one, whichever way each attempt ends. */
  lemma {:induction false} RunsCanFinish(c: Config, events: seq<Event>, ok: nat -> bool) returns (more: seq<Event>)
    requires c.Valid()
    ensures Quiescent(Run(c, events + more))
    ensures forall k :: 0 <= k < |more| && more[k].Complete? ==> more[k].ok == ok(more[k].i)
    decreases Potential(Run(c, events).attempts)
  {
    hide Step, Launch, Potential;
    var s := Run(c, events);
    if Quiescent(s) {
      more := [];
      assert events + more == events;
    } else {
      ConditionDecides(c, events);
      var i: nat :| i < |s.attempts| && s.attempts[i] in {Idle, Delayed, Connecting};
      var e := if s.attempts[i] == Delayed then Fire(i) else Complete(i, ok(i));
      NextEventCounts(c, s, e);
      EffectiveStepsUseUp(c, s, e);
      assert (events + [e])[..|events|] == events;
      var rest := RunsCanFinish(c, events + [e], ok);
      more := [e] + rest;
      assert events + more == (events + [e]) + rest;
    }
  }

  lemma NextEventCounts(c: Config, s: Race, e: Event)
    requires c.Valid() && |s.attempts| == |c.v4| && e.i < |s.attempts|
    requires s.attempts[e.i] == if e.Fire? then Delayed else Connecting
    ensures Step(c, s, e) != s
  {
    assert Step(c, s, e).attempts[e.i] != s.attempts[e.i];
  }
}

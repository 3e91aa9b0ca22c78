/** Applying to become a merchant: any number of `user_apply_merchant` requests, each made of four
    separate database operations, interleaved with the administrators' approvals and denials. */
module MerchantApplications {
  import opened Wrappers

  type User = nat
  type RequestId = nat

  datatype ApproveState = Waiting | Approved | Denied

  /** A row of the application table; its id is its position. */
  datatype Application = Application(applicant: User, seqNo: nat, state: ApproveState)

  /** How far a request has come, with the local variables it carries. */
  datatype Request =
    | Arrived(user: User)
    | NotMerchant(user: User)
    | Numbered(user: User, seqNo: nat)
    | Checked(user: User, seqNo: nat)
    | Replied(user: User, accepted: bool)

  datatype System = System(apps: seq<Application>, merchants: set<User>, requests: map<RequestId, Request>)

  /** Each event is one atomic database operation; one that does not fit the state does nothing. */
  datatype Event =
    | Arrive(r: RequestId, user: User)
    | LoadMerchant(r: RequestId)
    | ReadMaxSeq(r: RequestId)
    | FindWaiting(r: RequestId)
    | Insert(r: RequestId)
    | Approve(id: nat)
    | Deny(id: nat)

  /** select max(seq) where applicant = u */
  function MaxSeq(apps: seq<Application>, u: User): Option<nat> {
    if apps == [] then None
    else
      var rest, last := MaxSeq(apps[..|apps| - 1], u), apps[|apps| - 1];
      if last.applicant != u then rest
      else if rest.None? || rest.value < last.seqNo then Some(last.seqNo) else rest
  }

  predicate HasWaiting(apps: seq<Application>, u: User) {
    exists i :: 0 <= i < |apps| && apps[i].applicant == u && apps[i].state == Waiting
  }

  /** What the unique index on (applicant, seq) looks up. */
  predicate HasNumber(apps: seq<Application>, u: User, n: nat) {
    exists i :: 0 <= i < |apps| && apps[i].applicant == u && apps[i].seqNo == n
  }

  function Step(s: System, e: Event): System {
    match e
    case Arrive(r, u) =>
      if r in s.requests then s else s.(requests := s.requests[r := Arrived(u)])
    case Approve(id) =>
      if id < |s.apps| && s.apps[id].state == Waiting then
        var u := s.apps[id].applicant;
        // a duplicate merchant key rolls the whole transaction back
        if u in s.merchants then s
        else s.(apps := s.apps[id := s.apps[id].(state := Approved)], merchants := s.merchants + {u})
      else s
    case Deny(id) =>
      if id < |s.apps| && s.apps[id].state == Waiting then
        s.(apps := s.apps[id := s.apps[id].(state := Denied)])
      else s
    case _ => if e.r in s.requests then Advance(s, e, s.requests[e.r]) else s
  }

  /** The next database operation of request `e.r`, which has come as far as `q`. */
  function Advance(s: System, e: Event, q: Request): System
    requires e.LoadMerchant? || e.ReadMaxSeq? || e.FindWaiting? || e.Insert?
  {
    match (e, q)
    case (LoadMerchant(r), Arrived(u)) =>
      s.(requests := s.requests[r := if u in s.merchants then Replied(u, false) else NotMerchant(u)])
    case (ReadMaxSeq(r), NotMerchant(u)) =>
      var max := MaxSeq(s.apps, u);
      s.(requests := s.requests[r := Numbered(u, if max.None? then 0 else max.value + 1)])
    case (FindWaiting(r), Numbered(u, n)) =>
      s.(requests := s.requests[r := if HasWaiting(s.apps, u) then Replied(u, false) else Checked(u, n)])
    case (Insert(r), Checked(u, n)) =>
      if HasNumber(s.apps, u, n) then s.(requests := s.requests[r := Replied(u, false)])
      else s.(apps := s.apps + [Application(u, n, Waiting)], requests := s.requests[r := Replied(u, true)])
    case _ => s
  }

  function Run(s: System, events: seq<Event>): System {
    if events == [] then s else Step(Run(s, events[..|events| - 1]), events[|events| - 1])
  }

  // ---- the handlers' database operations ----

  class MerchantDatabase {
    var apps: seq<Application>
    var merchants: set<User>
    ghost var requests: map<RequestId, Request>

    ghost function Model(): System
      reads this
    {
      System(apps, merchants, requests)
    }

    /** Is the user a merchant already? Then the request ends with an error. */
    method LoadMerchant(ghost r: RequestId, uid: User) returns (found: bool)
      requires r in requests && requests[r] == Arrived(uid)
      modifies this
      ensures Model() == Step(old(Model()), Event.LoadMerchant(r))
      ensures found == (uid in merchants) && found == Model().requests[r].Replied?
    {
      found := uid in merchants;
      requests := requests[r := if found then Replied(uid, false) else NotMerchant(uid)];
    }

    /** The number the request will use. */
    method LoadNextSeq(ghost r: RequestId, uid: User) returns (seqNo: nat)
      requires r in requests && requests[r] == NotMerchant(uid)
      modifies this
      ensures Model() == Step(old(Model()), ReadMaxSeq(r))
      ensures Model().requests[r] == Numbered(uid, seqNo)
    {
      var maxSeq := MaxSeq(apps, uid);
      if maxSeq.Some? {
        seqNo := maxSeq.value + 1;
      } else {
        seqNo := 0;
      }
      requests := requests[r := Numbered(uid, seqNo)];
    }

    /** Has the user an application waiting? Then the request ends with an error. */
    method LoadWaiting(ghost r: RequestId, uid: User, ghost seqNo: nat) returns (found: bool)
      requires r in requests && requests[r] == Numbered(uid, seqNo)
      modifies this
      ensures Model() == Step(old(Model()), FindWaiting(r))
      ensures found == Model().requests[r].Replied?
      ensures found <==> exists i :: 0 <= i < |apps| && apps[i].applicant == uid && apps[i].state == Waiting
    {
      found := false;
      for i := 0 to |apps|
        invariant found <==> exists j :: 0 <= j < i && apps[j].applicant == uid && apps[j].state == Waiting
        invariant Model() == old(Model())
      {
        found := found || (apps[i].applicant == uid && apps[i].state == Waiting);
      }
      requests := requests[r := if found then Replied(uid, false) else Checked(uid, seqNo)];
    }

    /** Fails, changing no row, if the unique index has the number already. */
    method AddApplication(ghost r: RequestId, uid: User, seqNo: nat) returns (ok: bool)
      requires r in requests && requests[r] == Checked(uid, seqNo)
      modifies this
      ensures Model() == Step(old(Model()), Insert(r))
      ensures Model().requests[r] == Replied(uid, ok)
      ensures ok <==> forall i :: 0 <= i < |old(apps)| ==> old(apps)[i].applicant != uid || old(apps)[i].seqNo != seqNo
      ensures apps == if ok then old(apps) + [Application(uid, seqNo, Waiting)] else old(apps)
    {
      ok := !HasNumber(apps, uid, seqNo);
      if ok {
        apps := apps + [Application(uid, seqNo, Waiting)];
      }
      requests := requests[r := Replied(uid, ok)];
    }

    /** One transaction: update the row, then persist the merchant; a duplicate key undoes the update. */
    method ApproveMerchant(applyId: nat) returns (succeed: bool)
      modifies this
      ensures Model() == Step(old(Model()), Approve(applyId))
      ensures succeed <==>
        old(applyId < |apps| && apps[applyId].state == Waiting && apps[applyId].applicant !in merchants)
      ensures if succeed then
          && apps == old(apps)[applyId := old(apps)[applyId].(state := Approved)]
          && merchants == old(merchants) + {old(apps)[applyId].applicant}
        else apps == old(apps) && merchants == old(merchants)
    {
      if applyId >= |apps| || apps[applyId].state != Waiting {
        return false;
      }
      var savepoint := apps;
      var uid := apps[applyId].applicant;
      apps := apps[applyId := apps[applyId].(state := Approved)];
      if uid in merchants {
        apps := savepoint;
        return false;
      }
      merchants := merchants + {uid};
      return true;
    }

    /** Every row that the query finds is updated; the query names one id. */
    method DenyApplicant(applyId: nat)
      modifies this
      ensures Model() == Step(old(Model()), Deny(applyId))
      ensures |apps| == |old(apps)| && merchants == old(merchants)
      ensures forall i :: 0 <= i < |apps| ==>
        apps[i] == if i == applyId && old(apps)[i].state == Waiting then old(apps)[i].(state := Denied) else old(apps)[i]
    {
      var rows := apps;
      for i := 0 to |rows|
        invariant |apps| == |rows| && merchants == old(merchants) && requests == old(requests)
        invariant forall j :: i <= j < |rows| ==> apps[j] == rows[j]
        invariant forall j :: 0 <= j < i ==>
          apps[j] == if j == applyId && rows[j].state == Waiting then rows[j].(state := Denied) else rows[j]
      {
        if i == applyId && rows[i].state == Waiting {
          apps := apps[i := rows[i].(state := Denied)];
        }
      }
      assert apps == Step(old(Model()), Deny(applyId)).apps;
    }
  }

  ghost predicate Initial(s: System) {
    s.apps == [] && s.requests == map[]
  }

  // ---- the inductive invariant ----

  function Count(apps: seq<Application>, u: User): nat {
    if apps == [] then 0
    else Count(apps[..|apps| - 1], u) + (if apps[|apps| - 1].applicant == u then 1 else 0)
  }

  /** In the order of insertion, each user's applications are numbered 0, 1, 2, ... */
  ghost predicate NumberedInOrder(apps: seq<Application>) {
    forall i :: 0 <= i < |apps| ==> apps[i].seqNo == Count(apps[..i], apps[i].applicant)
  }

  ghost predicate AtMostOneWaiting(apps: seq<Application>) {
    forall i, j :: 0 <= i < j < |apps| && apps[i].state == Waiting && apps[j].state == Waiting ==>
      apps[i].applicant != apps[j].applicant
  }

  ghost predicate AtMostOneApproved(apps: seq<Application>) {
    forall i, j :: 0 <= i < j < |apps| && apps[i].state == Approved && apps[j].state == Approved ==>
      apps[i].applicant != apps[j].applicant
  }

  ghost predicate ApprovedAreMerchants(s: System) {
    forall i :: 0 <= i < |s.apps| && s.apps[i].state == Approved ==> s.apps[i].applicant in s.merchants
  }

  /** A request's number was the next free one when it was read. If it still is, then nothing has
      been inserted for the user since, so a check made after the reading is still good. */
  ghost predicate RequestOk(apps: seq<Application>, q: Request) {
    match q
    case Numbered(u, n) => n <= Count(apps, u)
    case Checked(u, n) => n <= Count(apps, u) && (n == Count(apps, u) ==> !HasWaiting(apps, u))
    case _ => true
  }

  function Accepted(s: System): set<RequestId> {
    set r | r in s.requests && s.requests[r].Replied? && s.requests[r].accepted
  }

  ghost predicate Inv(s: System) {
    && NumberedInOrder(s.apps)
    && AtMostOneWaiting(s.apps)
    && AtMostOneApproved(s.apps)
    && ApprovedAreMerchants(s)
    && (forall r :: r in s.requests ==> RequestOk(s.apps, s.requests[r]))
    && |Accepted(s)| == |s.apps|
  }

  // ---- counting and numbering ----

  lemma {:induction false} CountGrows(apps: seq<Application>, u: User, i: nat)
    requires i <= |apps|
    ensures Count(apps[..i], u) <= Count(apps, u)
  {
    if i == |apps| {
      assert apps[..i] == apps;
    } else {
      CountGrows(apps[..|apps| - 1], u, i);
      assert apps[..|apps| - 1][..i] == apps[..i];
    }
  }

  /** The numbers in use are exactly those below the count. */
  lemma {:induction false} NumbersAreGapless(apps: seq<Application>, u: User, n: nat)
    requires NumberedInOrder(apps)
    ensures HasNumber(apps, u, n) <==> n < Count(apps, u)
  {
    if apps != [] {
      var init, last := apps[..|apps| - 1], apps[|apps| - 1];
      InitInOrder(apps);
      NumbersAreGapless(init, u, n);
      HasNumberStep(apps, u, n);
      assert last.seqNo == Count(init, last.applicant);
    }
  }

  lemma HasNumberStep(apps: seq<Application>, u: User, n: nat)
    requires apps != []
    ensures var last := apps[|apps| - 1];
            HasNumber(apps, u, n) <==> HasNumber(apps[..|apps| - 1], u, n) || (last.applicant == u && last.seqNo == n)
  {
    var init := apps[..|apps| - 1];
    assert forall i :: 0 <= i < |init| ==> init[i] == apps[i];
    if HasNumber(init, u, n) {
      var i :| 0 <= i < |init| && init[i].applicant == u && init[i].seqNo == n;
      assert apps[i].applicant == u;
    }
  }

  lemma InitInOrder(apps: seq<Application>)
    requires NumberedInOrder(apps) && apps != []
    ensures NumberedInOrder(apps[..|apps| - 1])
  {
    var init := apps[..|apps| - 1];
    forall i | 0 <= i < |init|
      ensures init[i].seqNo == Count(init[..i], init[i].applicant)
    {
      assert init[..i] == apps[..i];
    }
  }

  /** What the handler computes from max(seq) is the first number not in use. */
  lemma {:induction false} MaxSeqIsLast(apps: seq<Application>, u: User)
    requires NumberedInOrder(apps)
    ensures MaxSeq(apps, u) == if Count(apps, u) == 0 then None else Some(Count(apps, u) - 1)
  {
    if apps != [] {
      InitInOrder(apps);
      MaxSeqIsLast(apps[..|apps| - 1], u);
    }
  }

  lemma {:induction false} CountIgnoresState(a: seq<Application>, b: seq<Application>, u: User)
    requires |a| == |b| && forall i :: 0 <= i < |a| ==> a[i].applicant == b[i].applicant
    ensures Count(a, u) == Count(b, u)
  {
    if a != [] {
      CountIgnoresState(a[..|a| - 1], b[..|b| - 1], u);
    }
  }

  // ---- each event keeps the invariant ----

  lemma DecideKeepsInv(s: System, id: nat, state: ApproveState, merchants: set<User>)
    requires Inv(s) && id < |s.apps| && s.apps[id].state == Waiting && state != Waiting
    requires merchants >= s.merchants
    requires state == Approved ==> s.apps[id].applicant !in s.merchants && s.apps[id].applicant in merchants
    ensures Inv(s.(apps := s.apps[id := s.apps[id].(state := state)], merchants := merchants))
  {
    hide Count, MaxSeq, HasNumber;
    var apps := s.apps[id := s.apps[id].(state := state)];
    forall u: User, i | 0 <= i <= |apps|
      ensures Count(apps[..i], u) == Count(s.apps[..i], u)
    {
      CountIgnoresState(apps[..i], s.apps[..i], u);
    }
    assert apps[..|apps|] == apps && s.apps[..|apps|] == s.apps;
    assert Accepted(s.(apps := apps, merchants := merchants)) == Accepted(s);
  }

  lemma InsertKeepsInv(s: System, r: RequestId)
    requires Inv(s) && r in s.requests && s.requests[r].Checked?
    ensures Inv(Step(s, Insert(r)))
  {
    hide Count, MaxSeq, HasWaiting, HasNumber, NumberedInOrder, AtMostOneWaiting, AtMostOneApproved;
    var q, t := s.requests[r], Step(s, Insert(r));
    NumbersAreGapless(s.apps, q.user, q.seqNo);
    if q.seqNo < Count(s.apps, q.user) {
      assert Accepted(t) == Accepted(s);
    } else {
      InsertedRow(s.apps, q.user, q.seqNo);
      forall p | p in t.requests
        ensures RequestOk(t.apps, t.requests[p])
      {
        if p != r {
          RequestSurvivesInsert(s.apps, q.user, q.seqNo, s.requests[p]);
        }
      }
      assert Accepted(t) == Accepted(s) + {r};
    }
  }

  lemma InsertedRow(apps: seq<Application>, u: User, n: nat)
    requires NumberedInOrder(apps) && AtMostOneWaiting(apps) && AtMostOneApproved(apps)
    requires n == Count(apps, u) && !HasWaiting(apps, u)
    ensures var more := apps + [Application(u, n, Waiting)];
            NumberedInOrder(more) && AtMostOneWaiting(more) && AtMostOneApproved(more)
  {
    var more := apps + [Application(u, n, Waiting)];
    forall i | 0 <= i < |more|
      ensures more[i].seqNo == Count(more[..i], more[i].applicant)
    {
      assert more[..i] == if i < |apps| then apps[..i] else apps;
    }
  }

  lemma RequestSurvivesInsert(apps: seq<Application>, u: User, n: nat, q: Request)
    requires RequestOk(apps, q)
    ensures RequestOk(apps + [Application(u, n, Waiting)], q)
  {
    var more := apps + [Application(u, n, Waiting)];
    assert more[..|more| - 1] == apps;
    if q.Checked? && q.seqNo == Count(more, q.user) {
      assert forall i :: 0 <= i < |apps| ==> more[i] == apps[i];
    }
  }

  lemma StepKeepsInv(s: System, e: Event)
    requires Inv(s)
    ensures Inv(Step(s, e))
  {
    hide Count, HasNumber, NumberedInOrder, AtMostOneWaiting, AtMostOneApproved;
    match e
    case Approve(id) =>
      if id < |s.apps| && s.apps[id].state == Waiting && s.apps[id].applicant !in s.merchants {
        DecideKeepsInv(s, id, Approved, s.merchants + {s.apps[id].applicant});
      }
    case Deny(id) =>
      if id < |s.apps| && s.apps[id].state == Waiting {
        DecideKeepsInv(s, id, Denied, s.merchants);
      }
    case Insert(r) =>
      if r in s.requests && s.requests[r].Checked? {
        InsertKeepsInv(s, r);
      }
    case ReadMaxSeq(r) =>
      if r in s.requests && s.requests[r].NotMerchant? {
        MaxSeqIsLast(s.apps, s.requests[r].user);
      }
      assert Accepted(Step(s, e)) == Accepted(s);
    case _ =>
      assert Accepted(Step(s, e)) == Accepted(s);
  }

  // ---- the theorems, over every run ----

  lemma {:induction false} RunKeepsInv(s: System, events: seq<Event>)
    requires Initial(s)
    ensures Inv(Run(s, events))
  {
    if events == [] {
      assert Accepted(s) == {};
    } else {
      RunKeepsInv(s, events[..|events| - 1]);
      StepKeepsInv(Run(s, events[..|events| - 1]), events[|events| - 1]);
    }
  }

  /** However the requests and the administrators interleave, no user ever has two waiting
      applications, each user's sequence numbers are distinct and are exactly 0 up to the largest,
      and the rows are as many as the requests that were told they succeeded. */
  lemma ApplicationsStayOrderly(s: System, events: seq<Event>, u: User)
    requires Initial(s)
    ensures var t := Run(s, events);
            && AtMostOneWaiting(t.apps)
            && (forall n: nat :: HasNumber(t.apps, u, n) <==> MaxSeq(t.apps, u).Some? && n <= MaxSeq(t.apps, u).value)
            && (forall i, j :: 0 <= i < j < |t.apps| && t.apps[i].applicant == t.apps[j].applicant ==>
                  t.apps[i].seqNo < t.apps[j].seqNo)
            && |Accepted(t)| == |t.apps|
  {
    hide Count, MaxSeq, HasNumber, Run, RequestOk;
    var t := Run(s, events);
    RunKeepsInv(s, events);
    MaxSeqIsLast(t.apps, u);
    forall n: nat
      ensures HasNumber(t.apps, u, n) <==> n < Count(t.apps, u)
    {
      NumbersAreGapless(t.apps, u, n);
    }
    forall i, j | 0 <= i < j < |t.apps| && t.apps[i].applicant == t.apps[j].applicant
      ensures t.apps[i].seqNo < t.apps[j].seqNo
    {
      LaterIsLarger(t.apps, i, j);
    }
  }

  lemma LaterIsLarger(apps: seq<Application>, i: nat, j: nat)
    requires NumberedInOrder(apps) && i < j < |apps| && apps[i].applicant == apps[j].applicant
    ensures apps[i].seqNo < apps[j].seqNo
  {
    var u := apps[i].applicant;
    CountGrows(apps[..j], u, i + 1);
    assert apps[..j][..i + 1] == apps[..i + 1];
    CountNext(apps, u, i);
  }

  lemma CountNext(apps: seq<Application>, u: User, i: nat)
    requires i < |apps| && apps[i].applicant == u
    ensures Count(apps[..i + 1], u) == Count(apps[..i], u) + 1
  {
    assert apps[..i + 1][..i] == apps[..i];
  }

  /** What one step may do to the rows: keep them all, decide a waiting one, append a waiting one;
      and it creates a merchant exactly when it approves an application of that user. */
  ghost predicate Lawful(s: System, t: System) {
    && |s.apps| <= |t.apps|
    && (forall i :: 0 <= i < |s.apps| ==> t.apps[i] == s.apps[i] || t.apps[i] == s.apps[i].(state := t.apps[i].state))
    && (forall i :: 0 <= i < |s.apps| && s.apps[i].state != Waiting ==> t.apps[i] == s.apps[i])
    && (forall i :: |s.apps| <= i < |t.apps| ==> t.apps[i].state == Waiting)
    && s.merchants <= t.merchants
    && (forall u: User :: u in t.merchants - s.merchants <==> NewlyApproved(s, t, u))
  }

  ghost predicate NewlyApproved(s: System, t: System, u: User) {
    exists i :: 0 <= i < |s.apps| && i < |t.apps| && s.apps[i].applicant == u
             && s.apps[i].state == Waiting && t.apps[i].state == Approved
  }

  lemma StepIsLawful(s: System, e: Event)
    requires Inv(s)
    ensures Lawful(s, Step(s, e))
  {
    hide Count, MaxSeq, HasNumber, HasWaiting, Inv;
    if e.Approve? && Step(s, e) != s {
      assert Step(s, e).apps[e.id].state == Approved;
    }
  }

  /** Over any run an application leaves `waiting` at most once, and rows are never lost. */
  lemma {:induction false} DecisionsAreFinal(s: System, before: seq<Event>, after: seq<Event>, id: nat)
    requires Initial(s) && id < |Run(s, before).apps|
    ensures var a := Run(s, before).apps[id];
            var t := Run(s, before + after);
            && id < |t.apps|
            && t.apps[id] == a.(state := t.apps[id].state)
            && (a.state != Waiting ==> t.apps[id] == a)
  {
    hide Inv, Step, NewlyApproved;
    if after == [] {
      assert before + after == before;
    } else {
      var init := after[..|after| - 1];
      DecisionsAreFinal(s, before, init, id);
      RunKeepsInv(s, before + init);
      StepIsLawful(Run(s, before + init), after[|after| - 1]);
      assert (before + after)[..|before + after| - 1] == before + init;
    }
  }

  /** Over any run a user has at most one approved application, and the merchants are those there
      from the start and the users with an approved application. */
  lemma {:induction false} MerchantsAreApproved(s: System, events: seq<Event>, u: User)
    requires Initial(s)
    ensures var t := Run(s, events);
            && AtMostOneApproved(t.apps)
            && (u in t.merchants <==>
                  u in s.merchants || exists i :: 0 <= i < |t.apps| && t.apps[i].applicant == u && t.apps[i].state == Approved)
            && (u in s.merchants ==> forall i :: 0 <= i < |t.apps| && t.apps[i].applicant == u ==> t.apps[i].state != Approved)
  {
    hide Count, MaxSeq, HasNumber, HasWaiting, NumberedInOrder, AtMostOneWaiting, RequestOk, Accepted, Step;
    RunKeepsInv(s, events);
    if events != [] {
      var m := Run(s, events[..|events| - 1]);
      var t := Run(s, events);
      MerchantsAreApproved(s, events[..|events| - 1], u);
      RunKeepsInv(s, events[..|events| - 1]);
      StepIsLawful(m, events[|events| - 1]);
      assert u in t.merchants - m.merchants <==> NewlyApproved(m, t, u);
      if u in m.merchants && u !in s.merchants {
        var i :| 0 <= i < |m.apps| && m.apps[i].applicant == u && m.apps[i].state == Approved;
        assert t.apps[i] == m.apps[i];
      }
    }
  }

  /** A request that runs alone, for a user who is no merchant and has nothing waiting, is accepted. */
  lemma UndisturbedRequestIsAccepted(s: System, r: RequestId, u: User)
    requires Inv(s) && r !in s.requests && u !in s.merchants && !HasWaiting(s.apps, u)
    ensures var t := Step(Step(Step(Step(Step(s, Arrive(r, u)), LoadMerchant(r)), ReadMaxSeq(r)), FindWaiting(r)), Insert(r));
            t.requests[r] == Replied(u, true) && t.apps == s.apps + [Application(u, Count(s.apps, u), Waiting)]
  {
    MaxSeqIsLast(s.apps, u);
    NumbersAreGapless(s.apps, u, Count(s.apps, u));
  }

  // ---- what each operation does ----

  /** Row `id` of `t` is the one of `s` decided as given, and all else is as in `s`. */
  ghost predicate OnlyDecided(s: System, t: System, id: nat, state: ApproveState, merchants: set<User>) {
    && |t.apps| == |s.apps| && t.requests == s.requests && t.merchants == merchants
    && forall i :: 0 <= i < |s.apps| ==>
         t.apps[i] == if i == id then Application(s.apps[i].applicant, s.apps[i].seqNo, state) else s.apps[i]
  }

  /** Approving approves a waiting application of a user who is no merchant, makes that user a
      merchant, and does nothing else; in every other case nothing changes. */
  lemma ApproveExactly(s: System, id: nat)
    ensures var t := Step(s, Approve(id));
            if id < |s.apps| && s.apps[id].state == Waiting && s.apps[id].applicant !in s.merchants
            then OnlyDecided(s, t, id, Approved, s.merchants + {s.apps[id].applicant})
            else t == s
  {
  }

  /** Denying denies a waiting application and does nothing else. */
  lemma DenyExactly(s: System, id: nat)
    ensures var t := Step(s, Deny(id));
            if id < |s.apps| && s.apps[id].state == Waiting
            then OnlyDecided(s, t, id, Denied, s.merchants) else t == s
  {
  }

  /** In every run, of all the decided applications none goes back: an approval that meets a waiting
      application of a user who is no merchant lasts. */
  lemma ApprovalLasts(s: System, before: seq<Event>, id: nat, after: seq<Event>)
    requires Initial(s)
    requires var m := Run(s, before);
             id < |m.apps| && m.apps[id].state == Waiting && m.apps[id].applicant !in m.merchants
    ensures var t := Run(s, before + [Approve(id)] + after);
            id < |t.apps| && t.apps[id] == Run(s, before).apps[id].(state := Approved)
            && t.apps[id].applicant in t.merchants
  {
    hide Step, Inv, Lawful;
    var m := Run(s, before);
    assert (before + [Approve(id)])[..|before|] == before;
    ApproveExactly(m, id);
    DecisionsAreFinal(s, before + [Approve(id)], after, id);
    MerchantsAreApproved(s, before + [Approve(id)] + after, m.apps[id].applicant);
  }

  /** A request is refused exactly when, at its three looks at the database, the user is a merchant,
      has an application waiting, or has one of the number it read; else its row is inserted. */
  lemma RequestsExactly(s: System, r: RequestId, u: User, n: nat)
    requires r in s.requests
    ensures s.requests[r] == Arrived(u) ==>
      Step(s, LoadMerchant(r)) == s.(requests := s.requests[r := if u in s.merchants then Replied(u, false) else NotMerchant(u)])
    ensures s.requests[r] == Numbered(u, n) ==>
      Step(s, FindWaiting(r)) == s.(requests := s.requests[r :=
        if exists i :: 0 <= i < |s.apps| && s.apps[i].applicant == u && s.apps[i].state == Waiting
        then Replied(u, false) else Checked(u, n)])
    ensures s.requests[r] == Checked(u, n) ==>
      Step(s, Insert(r)) ==
        if exists i :: 0 <= i < |s.apps| && s.apps[i].applicant == u && s.apps[i].seqNo == n
        then s.(requests := s.requests[r := Replied(u, false)])
        else System(s.apps + [Application(u, n, Waiting)], s.merchants, s.requests[r := Replied(u, true)])
  {
    assert HasWaiting(s.apps, u) <==> exists i :: 0 <= i < |s.apps| && s.apps[i].applicant == u && s.apps[i].state == Waiting;
    assert HasNumber(s.apps, u, n) <==> exists i :: 0 <= i < |s.apps| && s.apps[i].applicant == u && s.apps[i].seqNo == n;
  }
}

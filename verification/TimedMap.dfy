/** `utility::timedmap`: entries indexed by key and by insertion time, purged by a timer. Times are in
    milliseconds; the clock is a parameter. */
module TimedMaps {
  import opened Wrappers
  import opened Slices

  datatype Item<K, V> = Item(key: K, value: V, time: int)

  /** The order of the insertion-time index. */
  ghost predicate Sorted<K, V>(items: seq<Item<K, V>>) {
    forall i, j :: 0 <= i < j < |items| ==> items[i].time <= items[j].time
  }

  /** What the unique key index enforces. */
  ghost predicate UniqueKeys<K, V>(items: seq<Item<K, V>>) {
    forall i, j :: 0 <= i < j < |items| ==> items[i].key != items[j].key
  }

  function Find<K(==), V>(items: seq<Item<K, V>>, k: K): (r: Option<Item<K, V>>)
    ensures r.Some? ==> r.value in items && r.value.key == k
    ensures r.None? ==> forall i :: 0 <= i < |items| ==> items[i].key != k
  {
    if items == [] then None
    else if items[0].key == k then Some(items[0]) else Find(items[1..], k)
  }

  /** The first position whose time is later than `t`. */
  function UpperBound<K, V>(items: seq<Item<K, V>>, t: int): (i: nat)
    ensures i <= |items|
    ensures forall j :: 0 <= j < i ==> items[j].time <= t
    ensures i < |items| ==> items[i].time > t
  {
    if items == [] || items[0].time > t then 0 else 1 + UpperBound(items[1..], t)
  }

  /** Insertion, refused if the key is taken. */
  function Inserted<K(==), V>(items: seq<Item<K, V>>, x: Item<K, V>): seq<Item<K, V>> {
    if Find(items, x.key).Some? then items
    else
      var i := UpperBound(items, x.time);
      items[..i] + [x] + items[i..]
  }

  /** What a purge at cut-off time `t` leaves. */
  function Purged<K, V>(items: seq<Item<K, V>>, t: int): seq<Item<K, V>> {
    items[UpperBound(items, t)..]
  }

  const IDLE_DELAY := 30000

  /** How long the purger sleeps after that purge. */
  function Delay<K, V>(items: seq<Item<K, V>>, t: int): int {
    var n := UpperBound(items, t);
    if n == 0 then IDLE_DELAY else items[n - 1].time - t
  }

  class TimedMap<K(==), V> {
    const lifetime: int
    var stor: seq<Item<K, V>>

    ghost predicate Valid()
      reads this
    {
      Sorted(stor) && UniqueKeys(stor)
    }

    constructor (lifetime: int)
      ensures Valid() && stor == [] && this.lifetime == lifetime
    {
      this.lifetime, stor := lifetime, [];
    }

    /** The value of the one item with that key, if there is one. */
    method Get(k: K) returns (r: Option<V>)
      requires Valid()
      ensures r.Some? <==> exists x :: x in stor && x.key == k
      ensures forall x :: x in stor && x.key == k ==> r == Some(x.value)
    {
      hide Find, Sorted, UniqueKeys;
      var found := Find(stor, k);
      r := if found.Some? then Some(found.value.value) else None;
      forall x | x in stor && x.key == k
        ensures found == Some(x)
      {
        FindUnique(stor, x);
      }
    }

    method Put(k: K, v: V, now: int)
      requires Valid()
      modifies this
      ensures Valid() && stor == Inserted(old(stor), Item(k, v, now))
    {
      InsertedKeepsOrder(stor, Item(k, v, now));
      stor := Inserted(stor, Item(k, v, now));
    }

    /** One pass of the purger; returns how long it sleeps. */
    method Purge(now: int) returns (diff: int)
      requires Valid()
      modifies this
      ensures Valid()
      ensures stor == Purged(old(stor), now - lifetime)
      ensures diff == Delay(old(stor), now - lifetime)
    {
      hide Sorted, UniqueKeys;
      PurgedExactly(stor, now - lifetime);
      var purgeTime := now - lifetime;
      diff := IDLE_DELAY;
      var lastToErase := UpperBound(stor, purgeTime);
      ghost var items := stor;
      var erased := 0;
      while erased < lastToErase
        invariant 0 <= erased <= lastToErase
        invariant stor == items[erased..]
        invariant diff == if erased == 0 then IDLE_DELAY else items[erased - 1].time - purgeTime
      {
        diff := stor[0].time - purgeTime;
        DropOfDrop(items, erased, 1);
        stor := stor[1..];
        erased := erased + 1;
      }
    }
  }

  lemma InsertedKeepsOrder<K, V>(items: seq<Item<K, V>>, x: Item<K, V>)
    requires Sorted(items) && UniqueKeys(items)
    ensures Sorted(Inserted(items, x)) && UniqueKeys(Inserted(items, x))
    ensures forall y :: y in Inserted(items, x) <==> y in items || (y == x && Find(items, x.key).None?)
  {
    hide Sorted, UniqueKeys;
    if Find(items, x.key).None? {
      var i := UpperBound(items, x.time);
      LaterAfterBound(items, x.time);
      InsertAtMembers(items, x, i);
      InsertAtKeepsSorted(items, x, i);
      InsertAtKeepsUnique(items, x, i);
    }
  }

  lemma LaterAfterBound<K, V>(items: seq<Item<K, V>>, t: int)
    requires Sorted(items)
    ensures forall j :: UpperBound(items, t) <= j < |items| ==> items[j].time > t
  {
  }

  lemma InsertAtMembers<K, V>(items: seq<Item<K, V>>, x: Item<K, V>, i: nat)
    requires i <= |items|
    ensures forall y :: y in items[..i] + [x] + items[i..] <==> y in items || y == x
  {
    CutJoin(items, i);
  }

  lemma InsertAtKeepsSorted<K, V>(items: seq<Item<K, V>>, x: Item<K, V>, i: nat)
    requires i <= |items| && Sorted(items)
    requires forall j :: 0 <= j < i ==> items[j].time <= x.time
    requires forall j :: i <= j < |items| ==> x.time <= items[j].time
    ensures Sorted(items[..i] + [x] + items[i..])
  {
  }

  lemma InsertAtKeepsUnique<K, V>(items: seq<Item<K, V>>, x: Item<K, V>, i: nat)
    requires i <= |items| && UniqueKeys(items)
    requires forall j :: 0 <= j < |items| ==> items[j].key != x.key
    ensures UniqueKeys(items[..i] + [x] + items[i..])
  {
  }

  lemma DropKeepsOrder<K, V>(items: seq<Item<K, V>>, i: nat)
    requires i <= |items| && Sorted(items) && UniqueKeys(items)
    ensures Sorted(items[i..]) && UniqueKeys(items[i..])
  {
  }

  lemma PurgedExactly<K, V>(items: seq<Item<K, V>>, t: int)
    requires Sorted(items) && UniqueKeys(items)
    ensures Sorted(Purged(items, t)) && UniqueKeys(Purged(items, t))
    ensures forall y :: y in Purged(items, t) <==> y in items && y.time > t
  {
    hide Sorted, UniqueKeys;
    var i := UpperBound(items, t);
    LaterAfterBound(items, t);
    DropKeepsOrder(items, i);
    CutJoin(items, i);
  }

  lemma FindUnique<K, V>(items: seq<Item<K, V>>, x: Item<K, V>)
    requires UniqueKeys(items) && x in items
    ensures Find(items, x.key) == Some(x)
  {
    var i :| 0 <= i < |items| && items[i] == x;
    var r := Find(items, x.key);
    var j :| 0 <= j < |items| && items[j] == r.value;
  }

  // ---- runs ----

  /** Puts and purge passes with the time of each; gets change nothing. */
  datatype Event<K, V> = Put(t: int, k: K, v: V) | Pass(t: int)

  function Apply<K(==), V>(lifetime: int, items: seq<Item<K, V>>, e: Event<K, V>): seq<Item<K, V>> {
    match e
    case Put(t, k, v) => Inserted(items, Item(k, v, t))
    case Pass(t) => Purged(items, t - lifetime)
  }

  function After<K(==), V>(lifetime: int, log: seq<Event<K, V>>): seq<Item<K, V>> {
    if log == [] then [] else Apply(lifetime, After(lifetime, log[..|log| - 1]), log[|log| - 1])
  }

  lemma {:induction false} AfterIsOrderly<K, V>(lifetime: int, log: seq<Event<K, V>>)
    ensures Sorted(After(lifetime, log)) && UniqueKeys(After(lifetime, log))
  {
    if log != [] {
      var items, e := After(lifetime, log[..|log| - 1]), log[|log| - 1];
      AfterIsOrderly(lifetime, log[..|log| - 1]);
      match e
      case Put(t, k, v) => InsertedKeepsOrder(items, Item(k, v, t));
      case Pass(t) => PurgedExactly(items, t - lifetime);
    }
  }

  /** Event `i` put `k` when it was absent, and no pass since has come a lifetime later or more. */
  ghost predicate Stands<K, V>(lifetime: int, log: seq<Event<K, V>>, k: K, i: nat) {
    && i < |log| && log[i].Put? && log[i].k == k
    && Find(After(lifetime, log[..i]), k).None?
    && forall j :: i < j < |log| && log[j].Pass? ==> log[j].t - lifetime < log[i].t
  }

  function Entry<K, V>(e: Event<K, V>): Item<K, V>
    requires e.Put?
  {
    Item(e.k, e.v, e.t)
  }

  /** In every run a key is present exactly when some put of it still stands, and then it holds what
      that put put: the first since the key was last absent. Later puts do not replace it. */
  lemma {:induction false} GetIsFirstPut<K, V>(lifetime: int, log: seq<Event<K, V>>, k: K)
    ensures Find(After(lifetime, log), k).Some? <==> exists i: nat :: Stands(lifetime, log, k, i)
    ensures forall i: nat :: Stands(lifetime, log, k, i) ==> Find(After(lifetime, log), k) == Some(Entry(log[i]))
  {
    hide Find, After, Inserted, Purged, Sorted, UniqueKeys;
    if log == [] {
      NothingStands(lifetime, log, k);
    } else {
      var n := |log| - 1;
      GetIsFirstPut(lifetime, log[..n], k);
      FindStep(lifetime, log, k);
      forall i: nat | Stands(lifetime, log, k, i)
        ensures Find(After(lifetime, log), k) == Some(Entry(log[i]))
      {
        StandsStep(lifetime, log, k, i);
      }
      if Find(After(lifetime, log), k).Some? {
        if Find(After(lifetime, log[..n]), k).None? {
          StandsStep(lifetime, log, k, n);
          assert Stands(lifetime, log, k, n);
        } else {
          var i: nat :| Stands(lifetime, log[..n], k, i);
          StandsStep(lifetime, log, k, i);
          assert Stands(lifetime, log, k, i);
        }
      }
    }
  }

  lemma NothingStands<K, V>(lifetime: int, log: seq<Event<K, V>>, k: K)
    requires log == []
    ensures Find(After(lifetime, log), k).None? && !exists i: nat :: Stands(lifetime, log, k, i)
  {
  }

  lemma FindStep<K, V>(lifetime: int, log: seq<Event<K, V>>, k: K)
    requires log != []
    ensures var r := Find(After(lifetime, log[..|log| - 1]), k);
      Find(After(lifetime, log), k) ==
      match log[|log| - 1]
      case Put(t, k', v) => if k' == k && r.None? then Some(Item(k, v, t)) else r
      case Pass(t) => if r.Some? && r.value.time > t - lifetime then r else None
  {
    hide Find, Inserted, Purged, Sorted, UniqueKeys;
    var items := After(lifetime, log[..|log| - 1]);
    AfterIsOrderly(lifetime, log[..|log| - 1]);
    match log[|log| - 1]
    case Put(t, k', v) => PutFinds(items, Item(k', v, t), k);
    case Pass(t) => PurgeFinds(items, t - lifetime, k);
  }

  lemma StandsStep<K, V>(lifetime: int, log: seq<Event<K, V>>, k: K, i: nat)
    requires i < |log|
    ensures Stands(lifetime, log, k, i) <==>
      if i == |log| - 1 then log[i].Put? && log[i].k == k && Find(After(lifetime, log[..i]), k).None?
      else
        && Stands(lifetime, log[..|log| - 1], k, i)
        && (log[|log| - 1].Pass? ==> log[|log| - 1].t - lifetime < log[i].t)
  {
    hide After, Find;
    var before := log[..|log| - 1];
    if i < |before| {
      assert before[..i] == log[..i];
      assert forall j :: 0 <= j < |before| ==> before[j] == log[j];
    }
  }

  lemma PutFinds<K, V>(items: seq<Item<K, V>>, x: Item<K, V>, k: K)
    requires Sorted(items) && UniqueKeys(items)
    ensures Find(Inserted(items, x), k) == if x.key == k && Find(items, k).None? then Some(x) else Find(items, k)
  {
    InsertedKeepsOrder(items, x);
    if Find(items, k).Some? {
      FindUnique(Inserted(items, x), Find(items, k).value);
    } else if x.key == k {
      FindUnique(Inserted(items, x), x);
    }
  }

  lemma PurgeFinds<K, V>(items: seq<Item<K, V>>, t: int, k: K)
    requires Sorted(items) && UniqueKeys(items)
    ensures Find(Purged(items, t), k)
         == match Find(items, k) case None => None case Some(x) => if x.time > t then Some(x) else None
  {
    PurgedExactly(items, t);
    var r := Find(items, k);
    if r.Some? && r.value.time > t {
      FindUnique(Purged(items, t), r.value);
    } else if Find(Purged(items, t), k).Some? {
      FindUnique(items, Find(Purged(items, t), k).value);
    }
  }

  /** No pass removes an entry younger than the lifetime, and none leaves one at or over it. */
  lemma PassRemovesByAge<K, V>(lifetime: int, log: seq<Event<K, V>>, now: int, x: Item<K, V>)
    requires x in After(lifetime, log)
    ensures x in After(lifetime, log + [Pass(now)]) <==> now - x.time < lifetime
  {
    AfterIsOrderly(lifetime, log);
    PurgedExactly(After(lifetime, log), now - lifetime);
    assert (log + [Pass(now)])[..|log|] == log;
  }

  // ---- how old an entry can be when it is seen ----

  /** When the next pass is due: at the start, then when the timer set by the last pass fires. A
      timer set in the past fires at once. */
  function Due<K(==), V>(lifetime: int, start: int, log: seq<Event<K, V>>): int {
    if log == [] then start
    else
      var before, e := log[..|log| - 1], log[|log| - 1];
      match e
      case Put(_, _, _) => Due(lifetime, start, before)
      case Pass(t) =>
        var d := Delay(After(lifetime, before), t - lifetime);
        t + (if d > 0 then d else 0)
  }

  /** Times never go back, and nothing happens while a pass is overdue. */
  ghost predicate Timely<K, V>(lifetime: int, start: int, log: seq<Event<K, V>>, now: int) {
    && start <= now <= Due(lifetime, start, log)
    && (log == [] || (log[|log| - 1].t <= now && Timely(lifetime, start, log[..|log| - 1], log[|log| - 1].t)))
  }

  /** The last pass was at most 30 s before the next is due, and left only entries younger than the
      lifetime; entries put since are younger still. */
  lemma {:induction false} DueBound<K, V>(lifetime: int, start: int, log: seq<Event<K, V>>, now: int, x: Item<K, V>)
    requires lifetime >= 1 && Timely(lifetime, start, log, now) && x in After(lifetime, log)
    ensures Due(lifetime, start, log) - x.time < lifetime + IDLE_DELAY
  {
    if log != [] {
      var before, e := log[..|log| - 1], log[|log| - 1];
      var items := After(lifetime, before);
      AfterIsOrderly(lifetime, before);
      match e
      case Put(t, k, v) =>
        InsertedKeepsOrder(items, Item(k, v, t));
        if x in items {
          DueBound(lifetime, start, before, t, x);
        } else {
          DueIsSoon(lifetime, start, before, t);
        }
      case Pass(t) =>
        PurgedExactly(items, t - lifetime);
        DelayBound(items, t - lifetime);
    }
  }

  /** After a pass that removed something the purger sleeps until the last item removed was due, a
      time not after now; otherwise it sleeps 30 s. */
  lemma DelayExactly<K, V>(items: seq<Item<K, V>>, t: int)
    requires Sorted(items)
    ensures if exists x :: x in items && x.time <= t then
        && Delay(items, t) <= 0
        && (exists x :: x in items && x.time == Delay(items, t) + t)
        && (forall x :: x in items && x.time <= t ==> x.time <= Delay(items, t) + t)
      else Delay(items, t) == 30000
  {
    var n := UpperBound(items, t);
    LaterAfterBound(items, t);
    if n > 0 {
      assert items[n - 1] in items;
      forall x | x in items && x.time <= t
        ensures x.time <= items[n - 1].time
      {
        var i :| 0 <= i < |items| && items[i] == x;
        assert i <= n - 1;
      }
    }
  }

  /** So after a pass that removed something the next pass is due at once. */
  lemma NextPassAtOnce<K, V>(lifetime: int, start: int, log: seq<Event<K, V>>, now: int)
    ensures var items := After(lifetime, log);
      Due(lifetime, start, log + [Pass(now)])
      == if exists x :: x in items && now - x.time >= lifetime then now else now + 30000
  {
    var items := After(lifetime, log);
    AfterIsOrderly(lifetime, log);
    DelayExactly(items, now - lifetime);
    assert (log + [Pass(now)])[..|log|] == log;
    if x :| x in items && now - x.time >= lifetime {
      assert x.time <= now - lifetime;
    }
    if x :| x in items && x.time <= now - lifetime {
      assert now - x.time >= lifetime;
    }
  }

  lemma DelayBound<K, V>(items: seq<Item<K, V>>, t: int)
    ensures Delay(items, t) <= IDLE_DELAY
  {
  }

  lemma {:induction false} DueIsSoon<K, V>(lifetime: int, start: int, log: seq<Event<K, V>>, now: int)
    requires Timely(lifetime, start, log, now)
    ensures Due(lifetime, start, log) <= now + IDLE_DELAY
  {
    if log != [] {
      var before, e := log[..|log| - 1], log[|log| - 1];
      match e
      case Put(t, _, _) => DueIsSoon(lifetime, start, before, t);
      case Pass(t) => DelayBound(After(lifetime, before), t - lifetime);
    }
  }

  ghost predicate NeverStale<K(!new), V(!new)>(lifetime: int, start: int) {
    forall log: seq<Event<K, V>>, now: int, x: Item<K, V> ::
      Timely(lifetime, start, log, now) && x in After(lifetime, log) ==> now - x.time < lifetime + 30000
  }

  /** If every pass starts when its timer fires, no entry is ever seen at an age of the lifetime plus
      30 s or more; this holds exactly for lifetimes of at least a millisecond. */
  lemma NeverStaleExactly<K(!new), V(!new)>(lifetime: int, start: int, k: K, v: V)
    ensures NeverStale<K, V>(lifetime, start) <==> lifetime >= 1
  {
    if lifetime >= 1 {
      forall log: seq<Event<K, V>>, now: int, x: Item<K, V> | Timely(lifetime, start, log, now) && x in After(lifetime, log)
        ensures now - x.time < lifetime + IDLE_DELAY
      {
        DueBound(lifetime, start, log, now, x);
      }
    } else {
      var one: seq<Event<K, V>> := [Pass(start)];
      var log: seq<Event<K, V>> := [Pass(start), Put(start, k, v)];
      assert one[..0] == [] && log[..1] == one;
      assert After(lifetime, one) == [];
      assert After(lifetime, log) == [Item(k, v, start)];
      assert Due(lifetime, start, one) == start + IDLE_DELAY;
      assert Timely(lifetime, start, one[..0], start) && Timely(lifetime, start, one, start);
      assert Timely(lifetime, start, log, start + IDLE_DELAY);
      assert Item(k, v, start) in After(lifetime, log);
    }
  }
}

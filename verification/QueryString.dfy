/** `util::uri::qs_iterator`: walks over the "key=value" pairs of a query string. */
module QueryString {
  import opened Slices

  type Pair = (string, string)

  /** The first position of `c`, or the size of the string. */
  function IndexOf(s: string, c: char): (i: nat)
    ensures i <= |s|
    ensures i < |s| ==> s[i] == c
    ensures forall j :: 0 <= j < i ==> s[j] != c
  {
    if s == "" || s[0] == c then 0 else 1 + IndexOf(s[1..], c)
  }

  lemma IndexUnique(s: string, c: char, i: nat)
    requires i <= |s| && (i < |s| ==> s[i] == c) && forall j :: 0 <= j < i ==> s[j] != c
    ensures IndexOf(s, c) == i
  {
  }

  // ---- the iterator: its views are pairs of positions in the text ----

  /** The key is the text from `start` to `keyEnd`; the value begins after it and has the size the
      source computes, which is negative if the '&' comes before the '='. */
  datatype Views = Views(start: nat, keyEnd: nat, valueSize: int) {
    function ValueEnd(): int {
      keyEnd + 1 + valueSize
    }

    /** Both views lie inside the text. */
    predicate Inside(text: string) {
      start <= keyEnd && valueSize >= 0 && ValueEnd() <= |text|
    }

    function Text(text: string): Pair
      requires Inside(text)
    {
      (text[start..keyEnd], text[keyEnd + 1..ValueEnd()])
    }

    /** Both views are empty. Views are compared by size first, so nothing outside is read. */
    predicate Empty() {
      keyEnd == start && valueSize == 0
    }
  }

  /** The views of the first pair of what is left of the text at `pos`. */
  function FrontViews(text: string, pos: nat): (v: Views)
    requires pos <= |text| && '=' in text[pos..]
    ensures pos <= v.ValueEnd() <= |text|
  {
    var f: int, e: int := IndexOf(text[pos..], '='), IndexOf(text[pos..], '&');
    Views(pos, pos + f, e - f - 1)
  }

  datatype Value = Nothing | Current(views: Views)

  function ValueAt(text: string, pos: nat): Value
    requires pos <= |text|
  {
    if '=' in text[pos..] then Current(FrontViews(text, pos)) else Nothing
  }

  class QsIterator {
    const text: string
    var pos: nat       // the rest `qs_` begins here
    var value: Value

    ghost predicate Valid()
      reads this
    {
      pos <= |text| && (value.Current? ==> value == ValueAt(text, pos))
    }

    /** Equal to the default-constructed iterator, by the contents of the views. */
    predicate AtEnd()
      reads this
    {
      value.Nothing? || value.views.Empty()
    }

    constructor (query: string)
      ensures Valid() && text == query && pos == 0 && value == ValueAt(query, 0)
    {
      text, pos, value := query, 0, Nothing;
      new;
      MakeValue();
    }

    method MakeValue()
      requires value.Nothing? && pos <= |text|
      modifies this`value
      ensures value == ValueAt(text, pos)
    {
      var qs := text[pos..];
      var f: int := IndexOf(qs, '=');
      if f == |qs| {
        return;
      }
      var e: int := IndexOf(qs, '&');
      value := Current(Views(pos, pos + f, e - f - 1));
    }

    /** Moves past the value and the '&' after it. */
    method Increment()
      requires Valid() && value.Current?
      modifies this`pos, this`value
      ensures Valid()
      ensures var next := old(value.views).ValueEnd() + 1;
              if next >= |text| then value.Nothing? && pos == old(pos)
              else pos == next > old(pos) && value == ValueAt(text, next)
    {
      var second := value.views.ValueEnd() + 1;
      value := Nothing;
      if |text| <= second {
        return;
      }
      pos := second;
      MakeValue();
    }
  }

  /** The views handed out by walking from `pos` to the end. */
  function Walk(text: string, pos: nat): seq<Views>
    requires pos <= |text|
    decreases |text| - pos
  {
    if '=' !in text[pos..] || FrontViews(text, pos).Empty() then []
    else
      var v := FrontViews(text, pos);
      [v] + (if v.ValueEnd() + 1 < |text| then Walk(text, v.ValueEnd() + 1) else [])
  }

  /** The loop from qs_begin to qs_end, over any query. */
  method Collect(query: string) returns (views: seq<Views>)
    ensures views == Walk(query, 0)
  {
    hide IndexOf, FrontViews, Walk;
    var it := new QsIterator(query);
    views := [];
    if it.AtEnd() {
      WalkEnds(query, 0);
    }
    while !it.AtEnd()
      invariant it.Valid() && fresh(it) && it.text == query
      invariant if it.AtEnd() then views == Walk(query, 0) else views + Walk(query, it.pos) == Walk(query, 0)
      decreases |query| - it.pos, if it.value.Current? then 1 else 0
    {
      WalkStep(query, it.pos, views);
      views := views + [it.value.views];
      it.Increment();
      if it.AtEnd() && it.value == ValueAt(query, it.pos) {
        WalkEnds(query, it.pos);
      }
      assert views + [] == views;
    }
  }

  lemma WalkUnfold(text: string, pos: nat)
    requires pos <= |text| && '=' in text[pos..] && !FrontViews(text, pos).Empty()
    ensures var v := FrontViews(text, pos);
            var next := v.ValueEnd() + 1;
            Walk(text, pos) == [v] + (if next < |text| then Walk(text, next) else [])
  {
    hide IndexOf, FrontViews;
  }

  lemma WalkStep(text: string, pos: nat, done: seq<Views>)
    requires pos <= |text| && '=' in text[pos..] && !FrontViews(text, pos).Empty()
    ensures var v := FrontViews(text, pos);
            var next := v.ValueEnd() + 1;
            done + Walk(text, pos) == done + [v] + (if next < |text| then Walk(text, next) else [])
  {
    hide IndexOf, FrontViews, Walk;
    var v := FrontViews(text, pos);
    WalkUnfold(text, pos);
    AppendAssoc(done, [v], if v.ValueEnd() + 1 < |text| then Walk(text, v.ValueEnd() + 1) else []);
  }

  lemma WalkEnds(text: string, pos: nat)
    requires pos <= |text| && ('=' !in text[pos..] || FrontViews(text, pos).Empty())
    ensures Walk(text, pos) == []
  {
    hide IndexOf, FrontViews;
  }

  // ---- which queries are walked inside their text ----

  /** The first '=' comes before the first '&', or there is none. */
  predicate Readable(qs: string) {
    IndexOf(qs, '=') == |qs| || IndexOf(qs, '=') < IndexOf(qs, '&')
  }

  function FrontPair(qs: string): Pair
    requires Readable(qs) && '=' in qs
  {
    var f, e := IndexOf(qs, '='), IndexOf(qs, '&');
    (qs[..f], qs[f + 1..e])
  }

  /** The front is readable, and so is what follows each '&' up to an empty pair. */
  predicate Clean(qs: string) {
    && Readable(qs)
    && ('=' !in qs || FrontPair(qs) == ("", "")
        || (var next := IndexOf(qs, '&') + 1; next < |qs| ==> Clean(qs[next..])))
  }

  /** The pairs of a clean query. */
  function Items(qs: string): seq<Pair>
    requires Clean(qs)
  {
    if '=' !in qs || FrontPair(qs) == ("", "") then []
    else
      var next := IndexOf(qs, '&') + 1;
      [FrontPair(qs)] + (if next < |qs| then Items(qs[next..]) else [])
  }

  ghost predicate AllInside(text: string, vs: seq<Views>) {
    forall i :: 0 <= i < |vs| ==> vs[i].Inside(text)
  }

  function Texts(text: string, vs: seq<Views>): seq<Pair>
    requires AllInside(text, vs)
  {
    if vs == [] then [] else [vs[0].Text(text)] + Texts(text, vs[1..])
  }

  lemma FrontInside(text: string, pos: nat)
    requires pos <= |text| && '=' in text[pos..]
    ensures var v := FrontViews(text, pos);
            && (v.Inside(text) <==> Readable(text[pos..]))
            && (v.Inside(text) ==> v.Text(text) == FrontPair(text[pos..])
                                   && (v.Empty() <==> FrontPair(text[pos..]) == ("", "")))
            && (v.Empty() ==> v.Inside(text))
            && v.ValueEnd() == pos + IndexOf(text[pos..], '&')
  {
    hide IndexOf;
    var qs, f, e := text[pos..], IndexOf(text[pos..], '='), IndexOf(text[pos..], '&');
    assert f != e;
    if f < e {
      TakeOfDrop(text, pos, f);
      SliceOfDrop(text, pos, f + 1, e);
    }
  }

  lemma SliceOfDrop(text: string, pos: nat, i: nat, j: nat)
    requires pos <= |text| && i <= j <= |text| - pos
    ensures text[pos..][i..j] == text[pos + i..pos + j]
  {
  }

  /** For every query: every view handed out lies inside the text if and only if the query is clean,
      and then the views show exactly its pairs. */
  lemma {:induction false} WalkExactly(text: string, pos: nat)
    requires pos <= |text|
    ensures AllInside(text, Walk(text, pos)) <==> Clean(text[pos..])
    ensures Clean(text[pos..]) ==> Texts(text, Walk(text, pos)) == Items(text[pos..])
    decreases |text| - pos
  {
    hide IndexOf, FrontViews, FrontPair, Readable, Walk, Clean, Items, Texts;
    if '=' in text[pos..] {
      FrontInside(text, pos);
      var v := FrontViews(text, pos);
      var next := v.ValueEnd() + 1;
      CleanUnfold(text[pos..]);
      if v.Empty() {
        WalkEnds(text, pos);
        NoViews(text);
      } else {
        WalkUnfold(text, pos);
        if next < |text| {
          WalkExactly(text, next);
          DropOfDrop(text, pos, next - pos);
          InsideCons(text, v, Walk(text, next));
        } else {
          InsideCons(text, v, []);
          NoViews(text);
        }
      }
    } else {
      NoKey(text[pos..]);
      WalkEnds(text, pos);
      NoViews(text);
    }
  }

  lemma NoViews(text: string)
    ensures AllInside(text, []) && Texts(text, []) == []
  {
  }

  lemma CleanUnfold(qs: string)
    requires '=' in qs
    ensures Clean(qs) ==> Readable(qs)
    ensures Readable(qs) && FrontPair(qs) == ("", "") ==> Clean(qs) && Items(qs) == []
    ensures Readable(qs) && FrontPair(qs) != ("", "") ==>
      var next := IndexOf(qs, '&') + 1;
      if next < |qs| then
        (Clean(qs) <==> Clean(qs[next..])) && (Clean(qs) ==> Items(qs) == [FrontPair(qs)] + Items(qs[next..]))
      else Clean(qs) && Items(qs) == [FrontPair(qs)]
  {
    hide IndexOf, FrontPair, Readable;
  }

  lemma NoKey(qs: string)
    requires '=' !in qs
    ensures Readable(qs) && Clean(qs) && Items(qs) == []
  {
  }

  lemma InsideCons(text: string, v: Views, vs: seq<Views>)
    ensures AllInside(text, [v] + vs) <==> v.Inside(text) && AllInside(text, vs)
    ensures AllInside(text, [v] + vs) ==> Texts(text, [v] + vs) == [v.Text(text)] + Texts(text, vs)
  {
    assert ([v] + vs)[0] == v && ([v] + vs)[1..] == vs;
    assert forall i :: 0 <= i < |vs| ==> ([v] + vs)[i + 1] == vs[i];
  }

  /** The walk over "a&b=1" hands out a value of size -3. */
  lemma UncleanQuery()
    ensures !Clean("a&b=1") && Walk("a&b=1", 0) != [] && Walk("a&b=1", 0)[0] == Views(0, 3, -3)
  {
    var q := "a&b=1";
    assert q[0..] == q;
    IndexUnique(q, '=', 3);
    IndexUnique(q, '&', 1);
    assert q[3] == '=';
  }

  // ---- joining and walking ----

  ghost predicate Writable(p: Pair) {
    p.0 != "" && '=' !in p.0 && '&' !in p.0 && '&' !in p.1
  }

  function Join(ps: seq<Pair>): string {
    if ps == [] then ""
    else if |ps| == 1 then ps[0].0 + "=" + ps[0].1
    else ps[0].0 + "=" + ps[0].1 + "&" + Join(ps[1..])
  }

  lemma FrontOfJoin(p: Pair, rest: string)
    requires Writable(p) && (rest == "" || rest[0] == '&')
    ensures var qs := p.0 + "=" + p.1 + rest;
            && IndexOf(qs, '=') == |p.0| && IndexOf(qs, '&') == |p.0| + 1 + |p.1|
            && '=' in qs && Readable(qs) && FrontPair(qs) == p
  {
    var qs := p.0 + "=" + p.1 + rest;
    var f, e := |p.0|, |p.0| + 1 + |p.1|;
    assert qs[f] == '=';
    assert forall j :: 0 <= j < f ==> qs[j] == p.0[j];
    assert forall j :: f < j < e ==> qs[j] == p.1[j - f - 1];
    IndexUnique(qs, '=', f);
    assert e < |qs| ==> qs[e] == rest[0];
    IndexUnique(qs, '&', e);
    assert qs[..f] == p.0 && qs[f + 1..e] == p.1;
  }

  /** Joining any pairs with nonempty keys, keys free of '=' and '&' and values free of '&', and
      walking over the result yields exactly those pairs in order. */
  lemma {:induction false} ItemsOfJoin(ps: seq<Pair>)
    requires forall i :: 0 <= i < |ps| ==> Writable(ps[i])
    ensures Clean(Join(ps)) && Items(Join(ps)) == ps
  {
    hide Items, Clean, Writable;
    if |ps| == 1 {
      ItemsOfLast(ps[0]);
      assert [ps[0]] == ps;
    } else if |ps| > 1 {
      ItemsOfJoin(ps[1..]);
      JoinNonempty(ps[1..]);
      ItemsOfFront(ps[0], Join(ps[1..]));
      assert [ps[0]] + ps[1..] == ps;
    } else {
      NoPairs();
    }
  }

  lemma ItemsOfLast(p: Pair)
    requires Writable(p)
    ensures var qs := p.0 + "=" + p.1;
            Clean(qs) && Items(qs) == [p]
  {
    hide IndexOf, FrontPair;
    FrontOfJoin(p, "");
    assert p.0 + "=" + p.1 + "" == p.0 + "=" + p.1;
  }

  lemma ItemsOfFront(p: Pair, rest: string)
    requires Writable(p) && rest != "" && Clean(rest)
    ensures var qs := p.0 + "=" + p.1 + "&" + rest;
            Clean(qs) && Items(qs) == [p] + Items(rest)
  {
    hide IndexOf, FrontPair;
    FrontOfJoin(p, "&" + rest);
    JoinCut(p, rest);
  }

  lemma JoinCut(p: Pair, rest: string)
    ensures p.0 + "=" + p.1 + "&" + rest == p.0 + "=" + p.1 + ("&" + rest)
    ensures (p.0 + "=" + p.1 + ("&" + rest))[|p.0| + |p.1| + 2..] == rest
  {
  }

  lemma JoinNonempty(ps: seq<Pair>)
    requires ps != []
    ensures Join(ps) != ""
  {
  }

  lemma NoPairs()
    ensures Clean("") && Items("") == []
  {
  }

  /** The walk ends at a pair with nothing in it, whatever follows. */
  lemma EmptyPairEnds(rest: string)
    requires rest == "" || rest[0] == '&'
    ensures Walk("=" + rest, 0) == []
  {
    var q := "=" + rest;
    assert q[0..] == q && q[0] == '=';
    IndexUnique(q, '=', 0);
    if rest != "" {
      assert q[1] == '&';
    }
    IndexUnique(q, '&', 1);
  }

  /** So the walk over the joined text shows exactly the pairs, in order. */
  lemma WalkOfJoin(ps: seq<Pair>)
    requires forall i :: 0 <= i < |ps| ==> Writable(ps[i])
    ensures AllInside(Join(ps), Walk(Join(ps), 0)) && Texts(Join(ps), Walk(Join(ps), 0)) == ps
  {
    ItemsOfJoin(ps);
    WalkExactly(Join(ps), 0);
    assert Join(ps)[0..] == Join(ps);
  }
}

/** The grammar of selection strings, "title:name;" repeated: what an order stores about the options
    chosen, and what the API reads back from it. */
module SelectionGrammar {
  import opened Wrappers

  datatype Chosen = Chosen(option: string, select: string)

  predicate NameChar(c: char) {
    c != '\n' && c != '\r' && c != ':' && c != ';'
  }

  predicate ValueChar(c: char) {
    c != ';' && c != '\n'
  }

  predicate IsName(s: string) {
    s != "" && '\n' !in s && '\r' !in s && ':' !in s && ';' !in s
  }

  predicate IsValue(s: string) {
    s != "" && '\n' !in s && ';' !in s
  }

  predicate WellFormed(p: Chosen) {
    IsName(p.option) && IsValue(p.select)
  }

  // ---- the parser: greedy, no backtracking inside an item ----

  /** How many characters at the front an option name takes. */
  function NameSpan(s: string): (n: nat)
    ensures n <= |s|
    ensures forall i :: 0 <= i < n ==> NameChar(s[i])
    ensures n < |s| ==> !NameChar(s[n])
  {
    if s == "" || !NameChar(s[0]) then 0 else 1 + NameSpan(s[1..])
  }

  function ValueSpan(s: string): (n: nat)
    ensures n <= |s|
    ensures forall i :: 0 <= i < n ==> ValueChar(s[i])
    ensures n < |s| ==> !ValueChar(s[n])
  {
    if s == "" || !ValueChar(s[0]) then 0 else 1 + ValueSpan(s[1..])
  }

  /** One item at the front, and what follows it. */
  function Item(s: string): (r: Option<(Chosen, string)>)
    ensures r.Some? ==> |r.value.1| < |s|
  {
    var n := NameSpan(s);
    if n == 0 || n == |s| || s[n] != ':' then None
    else
      var rest := s[n + 1..];
      var m := ValueSpan(rest);
      if m == 0 || m == |rest| || rest[m] != ';' then None
      else Some((Chosen(s[..n], rest[..m]), rest[m + 1..]))
  }

  /** As many items as there are; whatever follows is not looked at. */
  function Items(s: string): seq<Chosen>
    decreases |s|
  {
    match Item(s)
    case None => []
    case Some((p, rest)) => [p] + Items(rest)
  }

  function Parse(s: string): Option<seq<Chosen>> {
    match Item(s)
    case None => None
    case Some((p, rest)) => Some([p] + Items(rest))
  }

  // ---- the printer ----

  function PrintItem(p: Chosen): string {
    p.option + ":" + p.select + ";"
  }

  function Print(ps: seq<Chosen>): string {
    if ps == [] then "" else PrintItem(ps[0]) + Print(ps[1..])
  }

  lemma {:induction false} PrintAppend(ps: seq<Chosen>, p: Chosen)
    ensures Print(ps + [p]) == Print(ps) + PrintItem(p)
  {
    if ps != [] {
      assert (ps + [p])[1..] == ps[1..] + [p];
      PrintAppend(ps[1..], p);
    } else {
      assert (ps + [p])[1..] == [];
    }
  }

  // ---- what an item is ----

  lemma NameSpanUnique(s: string, n: nat)
    requires n <= |s| && (forall i :: 0 <= i < n ==> NameChar(s[i])) && (n < |s| ==> !NameChar(s[n]))
    ensures NameSpan(s) == n
  {
  }

  lemma ValueSpanUnique(s: string, n: nat)
    requires n <= |s| && (forall i :: 0 <= i < n ==> ValueChar(s[i])) && (n < |s| ==> !ValueChar(s[n]))
    ensures ValueSpan(s) == n
  {
  }

  /** Item inverts PrintItem, whatever follows. */
  lemma ItemOfPrint(p: Chosen, rest: string)
    requires WellFormed(p)
    ensures Item(PrintItem(p) + rest) == Some((p, rest))
  {
    hide NameSpan, ValueSpan;
    var s, n, m := PrintItem(p) + rest, |p.option|, |p.select|;
    ShapeOfPrint(p, rest);
    NameSpanUnique(s, n);
    ValueSpanUnique(s[n + 1..], m);
  }

  lemma ShapeOfPrint(p: Chosen, rest: string)
    ensures var s, n, m := PrintItem(p) + rest, |p.option|, |p.select|;
      && s[..n] == p.option && n < |s| && s[n] == ':' && m < |s[n + 1..]|
      && s[n + 1..][..m] == p.select && s[n + 1..][m] == ';' && s[n + 1..][m + 1..] == rest
      && (forall i :: 0 <= i < n ==> s[i] == p.option[i])
      && (forall i :: 0 <= i < m ==> s[n + 1..][i] == p.select[i])
  {
    var s, n, m := PrintItem(p) + rest, |p.option|, |p.select|;
    assert s[n + 1..] == p.select + ";" + rest;
  }

  /** Whatever Item finds is well formed and was printed there. */
  lemma ItemIsPrinted(s: string)
    requires Item(s).Some?
    ensures var (p, rest) := Item(s).value; WellFormed(p) && s == PrintItem(p) + rest
  {
    hide NameSpan, ValueSpan;
    var n := NameSpan(s);
    var m := ValueSpan(s[n + 1..]);
    TwoCuts(s, n, m);
  }

  lemma TwoCuts(s: string, n: nat, m: nat)
    requires n < |s| && s[n] == ':' && m < |s[n + 1..]| && s[n + 1..][m] == ';'
    ensures s == s[..n] + ":" + s[n + 1..][..m] + ";" + s[n + 1..][m + 1..]
  {
    var rest := s[n + 1..];
    assert rest == rest[..m] + ";" + rest[m + 1..];
    assert s == s[..n] + ":" + rest;
  }

  predicate AllWellFormed(ps: seq<Chosen>) {
    forall i :: 0 <= i < |ps| ==> WellFormed(ps[i])
  }

  // ---- what a parse is ----

  /** The pairs a string stands for: it begins with the printing of `ps`, and no item follows. */
  ghost predicate Spells(s: string, ps: seq<Chosen>) {
    exists rest :: s == Print(ps) + rest && Item(rest).None?
  }

  lemma {:induction false} ItemsArePrinted(s: string)
    ensures AllWellFormed(Items(s)) && Spells(s, Items(s))
    decreases |s|
  {
    hide WellFormed, Item, PrintItem;
    if Item(s).Some? {
      ItemIsPrinted(s);
      var (p, after) := Item(s).value;
      ItemsArePrinted(after);
      SpellsMore(after, p, Items(after));
    } else {
      assert s == Print([]) + s;
    }
  }

  lemma SpellsMore(s: string, p: Chosen, ps: seq<Chosen>)
    requires Spells(s, ps)
    ensures Spells(PrintItem(p) + s, [p] + ps)
  {
    hide Item, PrintItem;
    var rest :| s == Print(ps) + rest && Item(rest).None?;
    PrintCons(p, ps);
    assert PrintItem(p) + s == Print([p] + ps) + rest;
  }

  lemma PrintCons(p: Chosen, ps: seq<Chosen>)
    ensures Print([p] + ps) == PrintItem(p) + Print(ps)
  {
    assert ([p] + ps)[1..] == ps;
  }

  lemma {:induction false} ItemsOfPrint(ps: seq<Chosen>, rest: string)
    requires AllWellFormed(ps) && Item(rest).None?
    ensures Items(Print(ps) + rest) == ps
    decreases |ps|
  {
    hide WellFormed, Item;
    if ps == [] {
      assert Print(ps) + rest == rest;
    } else {
      ItemsOfPrint(ps[1..], rest);
      assert Print(ps) + rest == PrintItem(ps[0]) + (Print(ps[1..]) + rest);
      ItemOfPrint(ps[0], Print(ps[1..]) + rest);
    }
  }

  /** A string parses to `ps` exactly when `ps` is a nonempty list of well-formed pairs that it spells. */
  lemma ParseExactly(s: string, ps: seq<Chosen>)
    ensures Parse(s) == Some(ps) <==> ps != [] && AllWellFormed(ps) && Spells(s, ps)
  {
    ParseIsItems(s);
    ItemsArePrinted(s);
    if AllWellFormed(ps) && Spells(s, ps) {
      var rest :| s == Print(ps) + rest && Item(rest).None?;
      ItemsOfPrint(ps, rest);
    }
  }

  lemma ParseIsItems(s: string)
    ensures Parse(s) == if Items(s) == [] then None else Some(Items(s))
  {
  }

  /** A printed list is read back exactly when it is nonempty and its pairs are well formed: titles
      nonempty and without ':', ';' or line breaks, names nonempty and without ';' or newline. */
  lemma RoundTripExactly(ps: seq<Chosen>)
    ensures Parse(Print(ps)) == Some(ps) <==> ps != [] && AllWellFormed(ps)
  {
    assert Print(ps) == Print(ps) + "" && Item("").None?;
    assert Spells(Print(ps), ps);
    ParseExactly(Print(ps), ps);
  }

  /** What is read is a fixed point: printing it and reading again changes nothing. */
  lemma ReadingIsStable(s: string)
    requires Parse(s).Some?
    ensures Parse(Print(Parse(s).value)) == Parse(s)
  {
    ParseExactly(s, Parse(s).value);
    RoundTripExactly(Parse(s).value);
  }
}

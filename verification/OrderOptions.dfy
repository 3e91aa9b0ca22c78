/** Which option lists are accepted, and that neither price nor selection depends on their order. */
module OrderOptions {
  import opened Wrappers
  import opened SelectionGrammar
  import opened Permutations
  import opened OrderCreation
  import opened OrderGoods
  import OptionDocument

  // ---- titles: what an accepted buyer must have listed ----

  function Title(e: BuyerOption): Option<string> {
    if e.Broken? then None else Some(e.title)
  }

  function Titles(buyer: seq<BuyerOption>): (r: seq<Option<string>>)
    ensures |r| == |buyer| && forall i :: 0 <= i < |buyer| ==> r[i] == Title(buyer[i])
  {
    if buyer == [] then [] else [Title(buyer[0])] + Titles(buyer[1..])
  }

  function ProductTitles(options: seq<ProductOption>): (r: seq<Option<string>>)
    ensures |r| == |options| && forall i :: 0 <= i < |options| ==> r[i] == Some(options[i].title)
  {
    if options == [] then [] else [Some(options[0].title)] + ProductTitles(options[1..])
  }

  // ---- the first entry with a title, when no title is listed twice ----

  lemma FoundIsListed(buyer: seq<BuyerOption>, title: string)
    requires FindEntry(buyer, title).Ok?
    ensures Some(title) in Titles(buyer)
  {
    FindEntryIsEntry(buyer, title);
    var e := FindEntry(buyer, title).value;
    var i :| 0 <= i < |buyer| && buyer[i] == e;
    assert Titles(buyer)[i] == Some(title);
  }

  /** No entry is broken and no title is listed twice. */
  ghost predicate Clear(buyer: seq<BuyerOption>) {
    Distinct(Titles(buyer)) && None !in Titles(buyer)
  }

  lemma {:induction false} FoundExactly(buyer: seq<BuyerOption>, e: BuyerOption)
    requires Clear(buyer) && e in buyer
    ensures e.BuyerOption? && FindEntry(buyer, e.title) == Ok(e)
    decreases |buyer|
  {
    ClearMeans(buyer);
    if buyer[0] != e {
      ClearTail(buyer);
      FoundExactly(buyer[1..], e);
      var i :| 0 <= i < |buyer| && buyer[i] == e;
    }
  }

  lemma ClearMeans(buyer: seq<BuyerOption>)
    requires Clear(buyer)
    ensures forall i :: 0 <= i < |buyer| ==> buyer[i].BuyerOption?
    ensures forall i, j :: 0 <= i < j < |buyer| ==> buyer[i].title != buyer[j].title
  {
    hide Titles;
    forall i | 0 <= i < |buyer|
      ensures buyer[i].BuyerOption? && Titles(buyer)[i] == Some(buyer[i].title)
    {
      assert Titles(buyer)[i] == Title(buyer[i]);
    }
  }

  lemma ClearTail(buyer: seq<BuyerOption>)
    requires Clear(buyer) && buyer != []
    ensures Clear(buyer[1..])
  {
    assert Titles(buyer)[1..] == Titles(buyer[1..]);
  }

  lemma ClearFind(buyer: seq<BuyerOption>, title: string)
    requires Clear(buyer)
    ensures Some(title) in Titles(buyer) <==> FindEntry(buyer, title).Ok?
    ensures FindEntry(buyer, title).Err? ==> FindEntry(buyer, title) == Err(GoodOptionInvalid)
  {
    hide Clear, Titles;
    if Some(title) in Titles(buyer) {
      var i :| 0 <= i < |Titles(buyer)| && Titles(buyer)[i] == Some(title);
      FoundExactly(buyer, buyer[i]);
    } else if FindEntry(buyer, title).Ok? {
      FoundIsListed(buyer, title);
    }
    ClearMeans(buyer);
    UnbrokenFind(buyer, title);
  }

  lemma {:induction false} UnbrokenFind(buyer: seq<BuyerOption>, title: string)
    requires forall i :: 0 <= i < |buyer| ==> buyer[i].BuyerOption?
    ensures FindEntry(buyer, title).Err? ==> FindEntry(buyer, title) == Err(GoodOptionInvalid)
  {
    if buyer != [] {
      UnbrokenFind(buyer[1..], title);
    }
  }

  // ---- what is accepted ----

  lemma {:induction false} PicksAre(buyer: seq<BuyerOption>, options: seq<ProductOption>)
    ensures Picks(buyer, options).Ok? <==> forall i :: 0 <= i < |options| ==> Choice(buyer, options[i]).Ok?
    ensures var r := Picks(buyer, options);
      r.Ok? ==> |r.value| == |options| && forall i :: 0 <= i < |options| ==>
                  Choice(buyer, options[i]).Ok? && r.value[i] == Pick(options[i], Choice(buyer, options[i]).value)
  {
    hide Choice;
    if options != [] {
      PicksAre(buyer, options[..|options| - 1]);
    }
  }

  lemma {:induction false} FindSelectionExactly(selections: seq<Selection>, name: string)
    ensures var r := FindSelection(selections, name);
      && (r.Ok? <==> exists i :: 0 <= i < |selections| && selections[i].name == name)
      && (r.Ok? ==> r.value in selections && r.value.name == name)
      && (r.Err? ==> r == Err(GoodOptionInvalid))
  {
    if selections != [] {
      FindSelectionExactly(selections[1..], name);
      assert forall i :: 0 < i < |selections| ==> selections[i] == selections[1..][i - 1];
    }
  }

  /** The entry names one of the option's selections. */
  ghost predicate Selects(e: BuyerOption, o: ProductOption) {
    && e.BuyerOption? && !e.select.Absent?
    && exists i :: 0 <= i < |o.selections| && o.selections[i].name == SelectText(e).value
  }

  ghost predicate DistinctTitles(p: Product) {
    Distinct(ProductTitles(p.options))
  }

  /** The titles the buyer lists are the product's, each once, in any order. */
  ghost predicate SameTitles(buyer: seq<BuyerOption>, p: Product) {
    multiset(Titles(buyer)) == multiset(ProductTitles(p.options))
  }

  lemma SameTitlesAreClear(buyer: seq<BuyerOption>, p: Product)
    requires DistinctTitles(p) && SameTitles(buyer, p)
    ensures Clear(buyer)
    ensures forall x :: x in Titles(buyer) <==> x in ProductTitles(p.options)
  {
    hide Distinct, Titles, ProductTitles;
    PermutedIsDistinct(ProductTitles(p.options), Titles(buyer));
    MembersOfMultiset(ProductTitles(p.options), Titles(buyer));
    assert None !in ProductTitles(p.options);
  }

  /** As many entries as options, and each option's title listed: no title is missing or listed twice. */
  lemma CountAndLookupsGiveTitles(buyer: seq<BuyerOption>, p: Product)
    requires DistinctTitles(p) && |buyer| == |p.options|
    requires forall i :: 0 <= i < |p.options| ==> Some(p.options[i].title) in Titles(buyer)
    ensures SameTitles(buyer, p)
  {
    forall x | x in ProductTitles(p.options)
      ensures x in Titles(buyer)
    {
      var i :| 0 <= i < |p.options| && ProductTitles(p.options)[i] == x;
    }
    Pigeonhole(ProductTitles(p.options), Titles(buyer));
  }

  lemma ChoiceExactly(buyer: seq<BuyerOption>, o: ProductOption)
    ensures Choice(buyer, o).Ok? <==> FindEntry(buyer, o.title).Ok? && Selects(FindEntry(buyer, o.title).value, o)
    ensures Choice(buyer, o).Ok? ==> Choice(buyer, o).value in o.selections
  {
    FindEntryIsEntry(buyer, o.title);
    var r := FindEntry(buyer, o.title);
    if r.Ok? && !r.value.select.Absent? {
      FindSelectionExactly(o.selections, SelectText(r.value).value);
    }
  }

  /** If the item is accepted, the buyer's titles are a permutation of the product's. */
  lemma AcceptedListsTheTitles(p: Product, buyer: seq<BuyerOption>)
    requires p.options != [] && DistinctTitles(p) && PicksFor(p, buyer).Ok?
    ensures SameTitles(buyer, p) && Clear(buyer)
  {
    hide Choice, Clear, SameTitles, DistinctTitles, Titles;
    PicksAre(buyer, p.options);
    forall i | 0 <= i < |p.options|
      ensures Some(p.options[i].title) in Titles(buyer)
    {
      ChoiceExactly(buyer, p.options[i]);
      FoundIsListed(buyer, p.options[i].title);
    }
    CountAndLookupsGiveTitles(buyer, p);
    SameTitlesAreClear(buyer, p);
  }

  /** An item with options is accepted exactly when the buyer's titles are a permutation of the
      product's and every entry names a selection of its option. */
  lemma AcceptedExactly(p: Product, buyer: seq<BuyerOption>)
    requires p.options != [] && DistinctTitles(p)
    ensures PicksFor(p, buyer).Ok? <==>
      && SameTitles(buyer, p)
      && forall e, o :: e in buyer && o in p.options && Title(e) == Some(o.title) ==> Selects(e, o)
  {
    hide Choice, Clear, SameTitles, DistinctTitles, Titles, Selects;
    PicksAre(buyer, p.options);
    if PicksFor(p, buyer).Ok? {
      AcceptedListsTheTitles(p, buyer);
      forall e, o | e in buyer && o in p.options && Title(e) == Some(o.title)
        ensures Selects(e, o)
      {
        var i :| 0 <= i < |p.options| && p.options[i] == o;
        ChoiceExactly(buyer, p.options[i]);
        FoundExactly(buyer, e);
      }
    } else if SameTitles(buyer, p) {
      SameTitlesAreClear(buyer, p);
      SameTitlesSameCount(buyer, p);
      var i :| 0 <= i < |p.options| && Choice(buyer, p.options[i]).Err?;
      ChoiceExactly(buyer, p.options[i]);
      assert ProductTitles(p.options)[i] == Some(p.options[i].title);
      ClearFind(buyer, p.options[i].title);
      FindEntryIsEntry(buyer, p.options[i].title);
    }
  }

  lemma SameTitlesSameCount(buyer: seq<BuyerOption>, p: Product)
    requires SameTitles(buyer, p)
    ensures |buyer| == |p.options|
  {
    SameSize(Titles(buyer), ProductTitles(p.options));
  }

  // ---- the buyer's order does not matter ----

  lemma {:induction false} PicksAgree(b1: seq<BuyerOption>, b2: seq<BuyerOption>, options: seq<ProductOption>)
    requires forall i :: 0 <= i < |options| ==> Choice(b1, options[i]) == Choice(b2, options[i])
    ensures Picks(b1, options) == Picks(b2, options)
  {
    hide Choice;
    if options != [] {
      PicksAgree(b1, b2, options[..|options| - 1]);
    }
  }

  lemma RearrangedTitle(b1: seq<BuyerOption>, b2: seq<BuyerOption>, title: Option<string>)
    requires multiset(b1) == multiset(b2) && title in Titles(b1)
    ensures title in Titles(b2)
  {
    hide Titles, Title;
    MembersOfMultiset(b1, b2);
    var j :| 0 <= j < |b1| && Titles(b1)[j] == title;
    assert b1[j] in b1;
    var k :| 0 <= k < |b2| && b2[k] == b1[j];
    assert Titles(b2)[k] == Title(b1[j]);
  }

  lemma RearrangedTitles(p: Product, b1: seq<BuyerOption>, b2: seq<BuyerOption>)
    requires DistinctTitles(p) && SameTitles(b1, p) && multiset(b1) == multiset(b2)
    ensures SameTitles(b2, p) && |b1| == |b2| == |p.options|
  {
    hide Titles, DistinctTitles, SameTitles, Clear;
    SameTitlesSameCount(b1, p);
    SameTitlesAreClear(b1, p);
    SameSize(b1, b2);
    forall i | 0 <= i < |p.options|
      ensures Some(p.options[i].title) in Titles(b2)
    {
      assert ProductTitles(p.options)[i] == Some(p.options[i].title);
      RearrangedTitle(b1, b2, Some(p.options[i].title));
    }
    CountAndLookupsGiveTitles(b2, p);
  }

  /** Listing the same entries in another order is accepted alike and picks the same: so the price
      and the selection string are the same. */
  lemma ListingOrderDoesNotMatter(p: Product, b1: seq<BuyerOption>, b2: seq<BuyerOption>)
    requires DistinctTitles(p) && multiset(b1) == multiset(b2)
    ensures PicksFor(p, b1).Ok? ==> PicksFor(p, b2) == PicksFor(p, b1)
    ensures PicksFor(p, b2).Ok? ==> PicksFor(p, b1) == PicksFor(p, b2)
  {
    hide PicksFor;
    if PicksFor(p, b1).Ok? {
      RearrangedPicks(p, b1, b2);
    } else if PicksFor(p, b2).Ok? {
      RearrangedPicks(p, b2, b1);
    }
  }

  lemma RearrangedPicks(p: Product, b1: seq<BuyerOption>, b2: seq<BuyerOption>)
    requires DistinctTitles(p) && multiset(b1) == multiset(b2) && PicksFor(p, b1).Ok?
    ensures PicksFor(p, b2) == PicksFor(p, b1)
  {
    hide DistinctTitles, SameTitles, Clear;
    if p.options != [] {
      AcceptedListsTheTitles(p, b1);
      RearrangedTitles(p, b1, b2);
      SameTitlesAreClear(b2, p);
      PicksAre(b1, p.options);
      forall i | 0 <= i < |p.options|
        ensures Choice(b1, p.options[i]) == Choice(b2, p.options[i])
      {
        SameEntry(b1, b2, p.options[i]);
      }
      PicksAgree(b1, b2, p.options);
    }
  }

  lemma SameEntry(b1: seq<BuyerOption>, b2: seq<BuyerOption>, o: ProductOption)
    requires Clear(b2) && multiset(b1) == multiset(b2) && Choice(b1, o).Ok?
    ensures Choice(b1, o) == Choice(b2, o)
  {
    hide Clear, FindEntry;
    FindEntryIsEntry(b1, o.title);
    var e := FindEntry(b1, o.title).value;
    assert e in multiset(b2);
    FoundExactly(b2, e);
  }

  /** The JSON of every entry is as it should be. */
  predicate WellTyped(buyer: seq<BuyerOption>) {
    forall i :: 0 <= i < |buyer| ==> buyer[i].BuyerOption? && !buyer[i].select.Absent?
  }

  /** Then refusals are alike too. */
  lemma RefusalsDoNotDependOnOrder(p: Product, b1: seq<BuyerOption>, b2: seq<BuyerOption>)
    requires DistinctTitles(p) && multiset(b1) == multiset(b2) && WellTyped(b1)
    ensures PicksFor(p, b1) == PicksFor(p, b2)
  {
    hide DistinctTitles, Picks;
    ListingOrderDoesNotMatter(p, b1, b2);
    SameSize(b1, b2);
    forall i | 0 <= i < |b2|
      ensures b2[i].BuyerOption? && !b2[i].select.Absent?
    {
      assert b2[i] in multiset(b1);
    }
    WellTypedPicks(b1, p.options);
    WellTypedPicks(b2, p.options);
  }

  lemma {:induction false} WellTypedPicks(buyer: seq<BuyerOption>, options: seq<ProductOption>)
    requires WellTyped(buyer)
    ensures Picks(buyer, options).Err? ==> Picks(buyer, options) == Err(GoodOptionInvalid)
  {
    if options != [] {
      var o := options[|options| - 1];
      WellTypedPicks(buyer, options[..|options| - 1]);
      UnbrokenFind(buyer, o.title);
      FindEntryIsEntry(buyer, o.title);
      var r := FindEntry(buyer, o.title);
      if r.Ok? {
        FindSelectionExactly(o.selections, SelectText(r.value).value);
      }
    }
  }

  // ---- exactly when the buyer's order does not matter ----

  predicate HasName(o: ProductOption, name: string) {
    exists i :: 0 <= i < |o.selections| && o.selections[i].name == name
  }

  /** Every option with that title has a selection of that name. */
  predicate Shared(p: Product, title: string, name: string) {
    forall j :: 0 <= j < |p.options| && p.options[j].title == title ==> HasName(p.options[j], name)
  }

  ghost predicate HasShared(p: Product, title: string) {
    exists name :: Shared(p, title, name)
  }

  /** The options that share a title have a selection name in common. */
  ghost predicate Servable(p: Product) {
    forall i :: 0 <= i < |p.options| ==> HasShared(p, p.options[i].title)
  }

  lemma ChoiceOfText(buyer: seq<BuyerOption>, o: ProductOption, e: BuyerOption)
    requires FindEntry(buyer, o.title) == Ok(e) && e.BuyerOption? && e.select.Text?
    ensures Choice(buyer, o).Ok? <==> HasName(o, e.select.s)
  {
    hide FindEntry;
    ChoiceExactly(buyer, o);
  }

  /** One entry per option, naming a selection that all options of its title have. */
  ghost predicate Serves(p: Product, buyer: seq<BuyerOption>) {
    && |buyer| == |p.options|
    && forall i :: 0 <= i < |buyer| ==>
         && buyer[i].BuyerOption? && buyer[i].title == p.options[i].title && buyer[i].select.Text?
         && Shared(p, buyer[i].title, buyer[i].select.s)
  }

  /** Some list is accepted exactly when the options that share a title have a name in common. */
  lemma ServableExactly(p: Product)
    ensures Servable(p) <==> exists buyer :: PicksFor(p, buyer).Ok?
  {
    if Servable(p) {
      var buyer := Server(p, |p.options|);
      ServesIsAccepted(p, buyer);
    }
    if buyer :| PicksFor(p, buyer).Ok? {
      AcceptedIsServable(p, buyer);
    }
  }

  lemma AcceptedIsServable(p: Product, buyer: seq<BuyerOption>)
    requires PicksFor(p, buyer).Ok?
    ensures Servable(p)
  {
    hide FindEntry, Choice, Picks;
    PicksAre(buyer, p.options);
    forall i | 0 <= i < |p.options|
      ensures HasShared(p, p.options[i].title)
    {
      ChoiceExactly(buyer, p.options[i]);
      var e := FindEntry(buyer, p.options[i].title).value;
      var name := SelectText(e).value;
      forall j | 0 <= j < |p.options| && p.options[j].title == p.options[i].title
        ensures HasName(p.options[j], name)
      {
        ChoiceExactly(buyer, p.options[j]);
      }
      assert Shared(p, p.options[i].title, name);
    }
  }

  /** A list of shared names, for the first `n` options. */
  lemma {:induction false} Server(p: Product, n: nat) returns (buyer: seq<BuyerOption>)
    requires Servable(p) && n <= |p.options|
    ensures |buyer| == n && forall i :: 0 <= i < n ==>
      && buyer[i].BuyerOption? && buyer[i].title == p.options[i].title && buyer[i].select.Text?
      && Shared(p, buyer[i].title, buyer[i].select.s)
  {
    hide Shared;
    if n == 0 {
      buyer := [];
    } else {
      var before := Server(p, n - 1);
      var name :| Shared(p, p.options[n - 1].title, name);
      buyer := before + [BuyerOption(p.options[n - 1].title, Text(name))];
    }
  }

  /** The first entry with a title, by its position. */
  lemma {:induction false} FirstEntry(buyer: seq<BuyerOption>, title: string, k: nat)
    requires k < |buyer| && buyer[k].BuyerOption? && buyer[k].title == title
    requires forall i :: 0 <= i < k ==> buyer[i].BuyerOption? && buyer[i].title != title
    ensures FindEntry(buyer, title) == Ok(buyer[k])
  {
    if k != 0 {
      FirstEntry(buyer[1..], title, k - 1);
    }
  }

  lemma FirstPlace(buyer: seq<BuyerOption>, title: string, i: nat) returns (k: nat)
    requires i < |buyer| && (forall j :: 0 <= j < |buyer| ==> buyer[j].BuyerOption?) && buyer[i].title == title
    ensures k <= i && buyer[k].title == title && forall j :: 0 <= j < k ==> buyer[j].title != title
  {
    k := 0;
    while buyer[k].title != title
      invariant k <= i && forall j :: 0 <= j < k ==> buyer[j].title != title
      decreases i - k
    {
      k := k + 1;
    }
  }

  lemma ServesIsAccepted(p: Product, buyer: seq<BuyerOption>)
    requires Serves(p, buyer)
    ensures PicksFor(p, buyer).Ok?
  {
    hide FindEntry, Choice, Picks, Shared;
    PicksAre(buyer, p.options);
    forall i | 0 <= i < |p.options|
      ensures Choice(buyer, p.options[i]).Ok?
    {
      var k := FirstPlace(buyer, p.options[i].title, i);
      FirstEntry(buyer, p.options[i].title, k);
      ChoiceOfText(buyer, p.options[i], buyer[k]);
      SharedHas(p, buyer[k].title, buyer[k].select.s, i);
    }
  }

  lemma SharedHas(p: Product, title: string, name: string, i: nat)
    requires Shared(p, title, name) && i < |p.options| && p.options[i].title == title
    ensures HasName(p.options[i], name)
  {
  }

  /** A name that none of the selections has: it is longer than all of them. */
  lemma {:induction false} UnusedName(selections: seq<Selection>) returns (name: string)
    ensures forall i :: 0 <= i < |selections| ==> |selections[i].name| < |name|
  {
    name := "?";
    if selections != [] {
      var rest := UnusedName(selections[1..]);
      name := rest + selections[0].name + "?";
      assert forall i :: 0 < i < |selections| ==> selections[i] == selections[1..][i - 1];
    }
  }

  /** With a title used twice, a list that is accepted and a rearrangement that is refused: a later
      entry of the title names nothing on sale, and takes the place of the first. */
  lemma RearrangedIsRefused(p: Product) returns (b1: seq<BuyerOption>, b2: seq<BuyerOption>)
    requires !DistinctTitles(p) && Servable(p)
    ensures WellTyped(b1) && WellTyped(b2) && multiset(b1) == multiset(b2)
    ensures PicksFor(p, b1).Ok? && PicksFor(p, b2).Err?
  {
    hide Shared, PicksFor;
    var i, j := RepeatedTitle(p);
    var served := Server(p, |p.options|);
    var title := p.options[i].title;
    var k := FirstPlace(served, title, i);
    var wrong := UnusedName(p.options[k].selections);
    var bad := BuyerOption(title, Text(wrong));
    b1 := served[j := bad];
    b2 := b1[k := bad][j := served[k]];
    SwappedMultiset(b1, k, j);
    assert b1[k] == served[k];
    LaterEntryIgnored(p, served, k, j, bad);
    NotOnSale(p.options[k], wrong);
    WrongFirst(p, b2, k, wrong);
  }

  lemma RepeatedTitle(p: Product) returns (i: nat, j: nat)
    requires !DistinctTitles(p)
    ensures i < j < |p.options| && p.options[i].title == p.options[j].title
  {
    hide ProductTitles;
    i, j :| 0 <= i < j < |p.options| && ProductTitles(p.options)[i] == ProductTitles(p.options)[j];
  }

  lemma SwappedMultiset<T>(s: seq<T>, k: nat, j: nat)
    requires k < j < |s|
    ensures multiset(s[k := s[j]][j := s[k]]) == multiset(s)
  {
  }

  lemma NotOnSale(o: ProductOption, name: string)
    requires forall i :: 0 <= i < |o.selections| ==> |o.selections[i].name| < |name|
    ensures !HasName(o, name)
  {
  }

  lemma LaterEntryIgnored(p: Product, served: seq<BuyerOption>, k: nat, j: nat, bad: BuyerOption)
    requires Serves(p, served) && k < j < |served| && bad.BuyerOption? && served[k].title == served[j].title == bad.title
    ensures PicksFor(p, served[j := bad]).Ok?
  {
    hide FindEntry, Choice, Picks, Shared;
    var b := served[j := bad];
    PicksAre(b, p.options);
    forall i | 0 <= i < |p.options|
      ensures Choice(b, p.options[i]).Ok?
    {
      var f := FirstPlace(served, p.options[i].title, i);
      assert f != j;
      assert b[f] == served[f];
      FirstEntry(b, p.options[i].title, f);
      ChoiceOfText(b, p.options[i], b[f]);
      SharedHas(p, b[f].title, b[f].select.s, i);
    }
  }

  lemma WrongFirst(p: Product, b: seq<BuyerOption>, k: nat, wrong: string)
    requires |b| == |p.options| && k < |b| && b[k] == BuyerOption(p.options[k].title, Text(wrong))
    requires forall i :: 0 <= i < k ==> b[i].BuyerOption? && b[i].title != p.options[k].title
    requires !HasName(p.options[k], wrong)
    ensures PicksFor(p, b).Err?
  {
    hide FindEntry, Choice, Picks;
    PicksAre(b, p.options);
    FirstEntry(b, p.options[k].title, k);
    ChoiceOfText(b, p.options[k], b[k]);
  }

  /** However an accepted list is rearranged, it is accepted and picks the same. */
  ghost predicate OrderIrrelevant(p: Product) {
    forall b1, b2 :: multiset(b1) == multiset(b2) && PicksFor(p, b1).Ok? ==> PicksFor(p, b2) == PicksFor(p, b1)
  }

  /** However a list of the right JSON types is rearranged, its result is the same, accepted or not. */
  ghost predicate OrderIrrelevantToTyped(p: Product) {
    forall b1, b2 :: multiset(b1) == multiset(b2) && WellTyped(b1) ==> PicksFor(p, b1) == PicksFor(p, b2)
  }

  /** For every product: the buyer's order does not matter if and only if no title is used twice, or
      some options that share a title have no selection name in common, so that no list is accepted. */
  lemma OrderIrrelevantExactly(p: Product)
    ensures OrderIrrelevant(p) <==> DistinctTitles(p) || !Servable(p)
    ensures OrderIrrelevantToTyped(p) <==> DistinctTitles(p) || !Servable(p)
  {
    hide PicksFor, DistinctTitles, Servable, WellTyped;
    ServableExactly(p);
    if !DistinctTitles(p) && Servable(p) {
      var b1, b2 := RearrangedIsRefused(p);
    } else {
      forall b1, b2 | multiset(b1) == multiset(b2) && PicksFor(p, b1).Ok?
        ensures PicksFor(p, b2) == PicksFor(p, b1)
      {
        ListingOrderDoesNotMatter(p, b1, b2);
      }
      forall b1, b2 | multiset(b1) == multiset(b2) && WellTyped(b1)
        ensures PicksFor(p, b1) == PicksFor(p, b2)
      {
        if DistinctTitles(p) {
          RefusalsDoNotDependOnOrder(p, b1, b2);
        } else {
          RefusedAlike(p, b1, b2);
        }
      }
    }
  }

  lemma RefusedAlike(p: Product, b1: seq<BuyerOption>, b2: seq<BuyerOption>)
    requires multiset(b1) == multiset(b2) && WellTyped(b1) && PicksFor(p, b1).Err? && PicksFor(p, b2).Err?
    ensures PicksFor(p, b1) == PicksFor(p, b2)
  {
    hide Picks;
    SameSize(b1, b2);
    MembersOfMultiset(b1, b2);
    assert forall i :: 0 <= i < |b2| ==> b2[i] in b2;
    WellTypedPicks(b1, p.options);
    WellTypedPicks(b2, p.options);
  }

  ghost predicate Rearranged(g: GoodsRef, h: GoodsRef) {
    g.GoodsRef? && h.GoodsRef? && g.merchantId == h.merchantId && g.goodsId == h.goodsId
    && multiset(g.options) == multiset(h.options)
  }

  /** Every product has distinct titles, or options that share a title but no name. */
  ghost predicate NoTitleServedTwice(w: World) {
    forall i: nat, id, goodsId, name :: w.getProduct(i, id, goodsId, name).Ok? ==>
      var p := w.getProduct(i, id, goodsId, name).value; DistinctTitles(p) || !Servable(p)
  }

  /** A whole order comes out the same however its buyer lists the options of each good. */
  lemma {:induction false} OrdersDoNotDependOnListing(w: World, goods: seq<GoodsRef>, others: seq<GoodsRef>)
    requires NoTitleServedTwice(w) && |goods| == |others|
    requires forall i :: 0 <= i < |goods| ==> Rearranged(goods[i], others[i])
    ensures Turns(w, goods).Ok? ==> Turns(w, others) == Turns(w, goods)
  {
    hide Turn, Rearranged, NoTitleServedTwice;
    if goods != [] && Turns(w, goods).Ok? {
      var n := |goods| - 1;
      OrdersDoNotDependOnListing(w, goods[..n], others[..n]);
      TurnRearranged(w, n, Turns(w, goods[..n]).value, goods[n], others[n]);
    }
  }

  lemma TurnRearranged(w: World, i: nat, st: State, g: GoodsRef, h: GoodsRef)
    requires NoTitleServedTwice(w) && Rearranged(g, h) && Turn(w, i, st, g).Ok?
    ensures Turn(w, i, st, h) == Turn(w, i, st, g)
  {
    hide PicksFor, DistinctTitles, Servable;
    var cache := Looked(w, i, st.cache, g.merchantId);
    if g.merchantId in cache && cache[g.merchantId].normal {
      var p := w.getProduct(i, g.merchantId, g.goodsId, cache[g.merchantId].name);
      OrderIrrelevantExactly(p.value);
    }
  }

  // ---- which entry, which selection, which refusal ----

  /** The entry found is the first with the title, before any broken one. */
  lemma {:induction false} FindsTheFirst(buyer: seq<BuyerOption>, title: string)
    ensures FindEntry(buyer, title).Ok? <==> exists k :: 0 <= k < |buyer| && IsFirst(buyer, title, k)
    ensures forall k :: 0 <= k < |buyer| && IsFirst(buyer, title, k) ==> FindEntry(buyer, title) == Ok(buyer[k])
  {
    if k :| 0 <= k < |buyer| && IsFirst(buyer, title, k) {
      forall k | 0 <= k < |buyer| && IsFirst(buyer, title, k)
        ensures FindEntry(buyer, title) == Ok(buyer[k])
      {
        FirstEntry(buyer, title, k);
      }
    } else {
      NoFirst(buyer, title);
    }
  }

  predicate IsFirst(buyer: seq<BuyerOption>, title: string, k: nat) {
    && k < |buyer| && buyer[k].BuyerOption? && buyer[k].title == title
    && forall i :: 0 <= i < k ==> buyer[i].BuyerOption? && buyer[i].title != title
  }

  lemma {:induction false} NoFirst(buyer: seq<BuyerOption>, title: string)
    requires !exists k :: 0 <= k < |buyer| && IsFirst(buyer, title, k)
    ensures FindEntry(buyer, title).Err?
  {
    if buyer != [] && buyer[0].BuyerOption? {
      if buyer[0].title == title {
        assert IsFirst(buyer, title, 0);
      }
      if k :| 0 <= k < |buyer[1..]| && IsFirst(buyer[1..], title, k) {
        assert forall i :: 0 < i < k + 1 ==> buyer[i] == buyer[1..][i - 1];
        assert IsFirst(buyer, title, k + 1);
      }
      NoFirst(buyer[1..], title);
    }
  }

  /** The selection found is the first of that name. */
  lemma {:induction false} FirstSelection(selections: seq<Selection>, name: string, k: nat)
    requires k < |selections| && selections[k].name == name && forall i :: 0 <= i < k ==> selections[i].name != name
    ensures FindSelection(selections, name) == Ok(selections[k])
  {
    if k != 0 {
      FirstSelection(selections[1..], name, k - 1);
    }
  }

  /** For each option what is picked is the first selection of the name in the first entry with its title. */
  lemma PickedAsAsked(p: Product, buyer: seq<BuyerOption>, i: nat)
    requires PicksFor(p, buyer).Ok? && i < |p.options|
    ensures var picks := PicksFor(p, buyer).value;
      && |picks| == |p.options| && picks[i].option == p.options[i]
      && exists k, j :: 0 <= k < |buyer| && 0 <= j < |p.options[i].selections|
           && IsFirst(buyer, p.options[i].title, k) && !buyer[k].select.Absent?
           && picks[i].selection == p.options[i].selections[j]
           && p.options[i].selections[j].name == (if buyer[k].select.Text? then buyer[k].select.s else "")
           && forall m :: 0 <= m < j ==> p.options[i].selections[m].name != p.options[i].selections[j].name
  {
    hide Picks, FindEntry, FindSelection, IsFirst;
    var o := p.options[i];
    PicksAre(buyer, p.options);
    FindsTheFirst(buyer, o.title);
    FindEntryIsEntry(buyer, o.title);
    var k :| 0 <= k < |buyer| && IsFirst(buyer, o.title, k);
    var name := SelectText(buyer[k]).value;
    assert FindSelection(o.selections, name).Ok?;
    var j := SelectionPlace(o.selections, name);
    FirstSelection(o.selections, name, j);
  }

  lemma {:induction false} SelectionPlace(selections: seq<Selection>, name: string) returns (j: nat)
    requires FindSelection(selections, name).Ok?
    ensures j < |selections| && selections[j].name == name && forall m :: 0 <= m < j ==> selections[m].name != name
  {
    j := 0;
    if selections[0].name != name {
      var rest := SelectionPlace(selections[1..], name);
      j := rest + 1;
      assert forall m :: 0 < m < j ==> selections[m] == selections[1..][m - 1];
    }
  }

  /** Why an item is refused: the counts differ, or, if the JSON is as expected, an option is missing
      or what was selected for it is not offered. A product without options is never refused. */
  lemma RefusalsExactly(p: Product, buyer: seq<BuyerOption>)
    ensures p.options == [] ==> PicksFor(p, buyer) == Ok([])
    ensures PicksFor(p, buyer) == Err(GoodOptionNeeded) <==> p.options != [] && |buyer| != |p.options|
    ensures WellTyped(buyer) && PicksFor(p, buyer).Err? && |buyer| == |p.options| ==>
      && PicksFor(p, buyer) == Err(GoodOptionInvalid)
      && exists i :: 0 <= i < |p.options| &&
           forall e :: e in buyer && FindEntry(buyer, p.options[i].title) == Ok(e) ==> !Selects(e, p.options[i])
  {
    hide Picks, FindEntry, Choice, Selects;
    NeverNeeded(buyer, p.options);
    if WellTyped(buyer) {
      WellTypedPicks(buyer, p.options);
    }
    PicksAre(buyer, p.options);
    if Picks(buyer, p.options).Err? {
      var i :| 0 <= i < |p.options| && Choice(buyer, p.options[i]).Err?;
      ChoiceExactly(buyer, p.options[i]);
    }
  }

  lemma {:induction false} NeverNeeded(buyer: seq<BuyerOption>, options: seq<ProductOption>)
    ensures Picks(buyer, options) != Err(GoodOptionNeeded)
  {
    if options != [] {
      NeverNeeded(buyer, options[..|options| - 1]);
      ChoiceNotNeeded(buyer, options[|options| - 1]);
    }
  }

  lemma ChoiceNotNeeded(buyer: seq<BuyerOption>, o: ProductOption)
    ensures Choice(buyer, o) != Err(GoodOptionNeeded)
  {
    FindNotNeeded(buyer, o.title);
    FindEntryIsEntry(buyer, o.title);
    var r := FindEntry(buyer, o.title);
    if r.Ok? && !r.value.select.Absent? {
      FindSelectionExactly(o.selections, SelectText(r.value).value);
    }
  }

  lemma {:induction false} FindNotNeeded(buyer: seq<BuyerOption>, title: string)
    ensures FindEntry(buyer, title) != Err(GoodOptionNeeded)
  {
    if buyer != [] {
      FindNotNeeded(buyer[1..], title);
    }
  }

  // ---- the selection string ----

  /** The selection string stored with a good reads back as the options and what was picked for them
      exactly when there are options and all titles and picked names fit the grammar. */
  lemma SelectionReadsBackExactly(p: Product, buyer: seq<BuyerOption>)
    requires PicksFor(p, buyer).Ok?
    ensures var picks := PicksFor(p, buyer).value;
      && |picks| == |p.options|
      && (Parse(Print(Pairs(picks))) == Some(Pairs(picks)) <==>
            p.options != [] && forall i :: 0 <= i < |picks| ==> IsName(p.options[i].title) && IsValue(picks[i].selection.name))
  {
    hide Parse, Print, IsName, IsValue;
    PicksAre(buyer, p.options);
    var picks := PicksFor(p, buyer).value;
    RoundTripExactly(Pairs(picks));
    assert forall i :: 0 <= i < |picks| ==> Pairs(picks)[i] == Chosen(p.options[i].title, picks[i].selection.name);
  }

  /** The product's options are those of a goods description. */
  ghost predicate FromDocument(p: Product, os: seq<OptionDocument.GoodsOption>) {
    && |p.options| == |os|
    && (forall i :: 0 <= i < |os| ==> p.options[i].title == os[i].name && SameNames(p.options[i].selections, os[i].selections))
  }

  ghost predicate SameNames(selections: seq<Selection>, listed: seq<OptionDocument.Selection>) {
    |selections| == |listed| && forall j :: 0 <= j < |listed| ==> selections[j].name == listed[j].name
  }

  /** From the goods description to the order and back: if every title of the description is nonempty
      and has no ':' or ';', and every name is nonempty and has no ';', then whatever the buyer picks
      is read back from the order as picked. */
  lemma DescribedSelectionsReadBack(document: string, p: Product, buyer: seq<BuyerOption>)
    requires OptionDocument.Parse(document).Some? && FromDocument(p, OptionDocument.Parse(document).value)
    requires forall i :: 0 <= i < |p.options| ==>
      p.options[i].title != "" && ':' !in p.options[i].title && ';' !in p.options[i].title
    requires forall i, s :: 0 <= i < |p.options| && s in p.options[i].selections ==> s.name != "" && ';' !in s.name
    requires PicksFor(p, buyer).Ok?
    ensures var picks := PicksFor(p, buyer).value;
      |picks| == |p.options| && Parse(Print(Pairs(picks))) == Some(Pairs(picks))
  {
    hide OptionDocument.Parse, Parse, Print, Pairs, Choice;
    var os := OptionDocument.Parse(document).value;
    OptionDocument.ParsedIsWellFormed(document);
    SelectionReadsBackExactly(p, buyer);
    PicksAre(buyer, p.options);
    var picks := PicksFor(p, buyer).value;
    forall i | 0 <= i < |picks|
      ensures IsName(p.options[i].title) && IsValue(picks[i].selection.name)
    {
      ChoiceExactly(buyer, p.options[i]);
      assert OptionDocument.WellFormed(os[i]);
      var j :| 0 <= j < |p.options[i].selections| && p.options[i].selections[j] == picks[i].selection;
      assert OptionDocument.WellFormedSelection(os[i].selections[j]);
      NoNewline(os[i].name);
      NoNewline(os[i].selections[j].name);
    }
  }

  lemma NoNewline(s: string)
    requires OptionDocument.Cut.AtEol.Free(s)
    ensures '\n' !in s && '\r' !in s
  {
  }

  // ---- what is stored ----

  /** `cs` pairs the title of each option of the product with the name picked for it. */
  ghost predicate Names(cs: seq<Chosen>, p: Purchase) {
    && |cs| == |p.picks| == |p.product.options|
    && forall i :: 0 <= i < |cs| ==> cs[i] == Chosen(p.product.options[i].title, p.picks[i].selection.name)
  }

  /** The stored good has the product's id, title, description and version, and a selection string
      that is empty for a product without options, and that reads back as the options' titles with the
      names picked exactly when there are options and these fit the grammar. */
  ghost predicate StoredAs(g: Snapshot, p: Purchase) {
    && g.merchantId == p.merchantId && g.goodsId == p.product.id && g.name == p.product.title
    && g.description == p.product.description && g.gitVersion == p.product.gitVersion
    && (p.product.options == [] ==> g.selection == "")
    && exists cs :: Names(cs, p) && (Parse(g.selection) == Some(cs) <==> cs != [] && AllWellFormed(cs))
  }

  lemma SnapStores(p: Purchase, buyer: seq<BuyerOption>)
    requires PicksFor(p.product, buyer) == Ok(p.picks)
    ensures StoredAs(p.Snap(), p)
  {
    hide Parse, AllWellFormed, Sum, Picks;
    var cs := Pairs(p.picks);
    PicksAre(buyer, p.product.options);
    RoundTripExactly(cs);
    assert Names(cs, p);
  }

  /** Every good of every order is stored so. */
  lemma StoredGoods(w: World, goods: seq<GoodsRef>, o: Order, recipient: string, buyer: int, k: nat)
    requires Turns(w, goods).Ok? && Records(o, recipient, buyer, Turns(w, goods).value) && k < |o.goods|
    ensures |o.goods| == |Turns(w, goods).value.bought|
    ensures StoredAs(o.goods[k], Turns(w, goods).value.bought[k])
  {
    hide Turns, Snaps, StoredAs, BoughtAt;
    var bought := Turns(w, goods).value.bought;
    SnapsAre(bought);
    OrderIsWhatWasAsked(w, goods);
    var turns: seq<nat> :| Ledger(w, goods, turns, bought);
    PicksOfBought(w, goods, turns[k], bought[k]);
    SnapStores(bought[k], goods[turns[k]].options);
  }

  lemma PicksOfBought(w: World, goods: seq<GoodsRef>, i: nat, p: Purchase)
    requires BoughtAt(w, goods, i, p)
    ensures i < |goods| && goods[i].GoodsRef? && PicksFor(p.product, goods[i].options) == Ok(p.picks)
  {
  }
}

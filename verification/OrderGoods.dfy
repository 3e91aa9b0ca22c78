/** What ends up in an order: the goods asked for, all of one merchant. */
module OrderGoods {
  import opened Wrappers
  import SelectionGrammar
  import opened OrderCreation

  // ---- what was bought is what was asked for ----

  /** What the shop knows about a merchant after the first `n` goods: the answer of the first load
      that found it. */
  function KnownAs(w: World, goods: seq<GoodsRef>, n: nat, id: int): Option<Merchant>
    requires n <= |goods|
  {
    if n == 0 then None
    else
      var before := KnownAs(w, goods, n - 1, id);
      if before.Some? then before
      else if goods[n - 1].GoodsRef? && goods[n - 1].merchantId == id then w.load(n - 1, id)
      else None
  }

  /** The good asked for at turn `i` is on offer: its merchant is known and normal. */
  predicate OnOffer(w: World, goods: seq<GoodsRef>, i: nat) {
    && i < |goods| && goods[i].GoodsRef?
    && var m := KnownAs(w, goods, i + 1, goods[i].merchantId); m.Some? && m.value.normal
  }

  /** `p` is the product the repository gave for the good asked for at turn `i`, priced and picked as asked. */
  ghost predicate BoughtAt(w: World, goods: seq<GoodsRef>, i: nat, p: Purchase) {
    && OnOffer(w, goods, i) && p.merchantId == goods[i].merchantId
    && w.getProduct(i, p.merchantId, goods[i].goodsId, KnownAs(w, goods, i + 1, p.merchantId).value.name) == Ok(p.product)
    && w.number(p.product.price) == Some(p.base)
    && (if p.product.kuaidifei == "" then p.fee == 0.0 else w.number(p.product.kuaidifei) == Some(p.fee))
    && PicksFor(p.product, goods[i].options) == Ok(p.picks)
  }

  /** The cache of the loop holds exactly what is known. */
  lemma {:induction false} CacheIsKnown(w: World, goods: seq<GoodsRef>, n: nat, id: int)
    requires n <= |goods| && Turns(w, goods[..n]).Ok?
    ensures var cache := Turns(w, goods[..n]).value.cache;
      KnownAs(w, goods, n, id) == if id in cache then Some(cache[id]) else None
  {
    if n == 0 {
      assert goods[..n] == [];
    } else {
      hide Turns, Buy;
      TurnsStep(w, goods, n - 1);
      CacheIsKnown(w, goods, n - 1, id);
    }
  }

  lemma {:induction false} KnownPrefix(w: World, goods: seq<GoodsRef>, n: nat, i: nat, id: int)
    requires i <= n <= |goods|
    ensures KnownAs(w, goods[..n], i, id) == KnownAs(w, goods, i, id)
  {
    if i != 0 {
      KnownPrefix(w, goods, n, i - 1, id);
    }
  }

  /** `turns` lists, in order, the turns at which the goods were bought; all others were not on offer. */
  ghost predicate Ledger(w: World, goods: seq<GoodsRef>, turns: seq<nat>, bought: seq<Purchase>) {
    && |turns| == |bought|
    && (forall k :: 0 <= k < |turns| ==> BoughtAt(w, goods, turns[k], bought[k]))
    && (forall j, k :: 0 <= j < k < |turns| ==> turns[j] < turns[k])
    && (forall i: nat :: i < |goods| ==> i in turns || !OnOffer(w, goods, i))
  }

  lemma StepPrefix(w: World, goods: seq<GoodsRef>, n: nat, i: nat)
    requires n <= |goods| && i < n
    ensures OnOffer(w, goods[..n], i) == OnOffer(w, goods, i)
    ensures forall p :: BoughtAt(w, goods[..n], i, p) == BoughtAt(w, goods, i, p)
  {
    hide KnownAs, PicksFor;
    assert goods[..n][i] == goods[i];
    if goods[i].GoodsRef? {
      KnownPrefix(w, goods, n, i + 1, goods[i].merchantId);
    }
  }

  /** What turn `i` does: a good on offer is bought, any other passed over. */
  lemma TurnBuysOrPasses(w: World, goods: seq<GoodsRef>, i: nat)
    requires i < |goods| && Turns(w, goods[..i]).Ok? && Turn(w, i, Turns(w, goods[..i]).value, goods[i]).Ok?
    ensures var st, next := Turns(w, goods[..i]).value, Turn(w, i, Turns(w, goods[..i]).value, goods[i]).value;
      if !OnOffer(w, goods, i) then next.bought == st.bought && next.seller == st.seller
      else
        && |next.bought| == |st.bought| + 1 && next.bought[..|st.bought|] == st.bought
        && BoughtAt(w, goods, i, next.bought[|st.bought|])
        && (st.seller == 0 || st.seller == goods[i].merchantId) && next.seller == goods[i].merchantId
  {
    hide Turns, PicksFor, KnownAs;
    CacheIsKnown(w, goods, i, goods[i].merchantId);
    KnownStep(w, goods, i);
  }

  lemma KnownStep(w: World, goods: seq<GoodsRef>, i: nat)
    requires i < |goods| && goods[i].GoodsRef?
    ensures var id := goods[i].merchantId;
      KnownAs(w, goods, i + 1, id) == if KnownAs(w, goods, i, id).Some? then KnownAs(w, goods, i, id) else w.load(i, id)
  {
  }

  /** Every order lists, in the order asked, exactly the goods whose merchant is known and normal. */
  lemma {:induction false} OrderIsWhatWasAsked(w: World, goods: seq<GoodsRef>)
    requires Turns(w, goods).Ok?
    ensures exists turns: seq<nat> :: Ledger(w, goods, turns, Turns(w, goods).value.bought)
  {
    if goods == [] {
      assert Ledger(w, goods, [], Turns(w, goods).value.bought);
    } else {
      var n := |goods| - 1;
      OrderIsWhatWasAsked(w, goods[..n]);
      TurnBuysOrPasses(w, goods, n);
      var turns: seq<nat> :| Ledger(w, goods[..n], turns, Turns(w, goods[..n]).value.bought);
      var more := if OnOffer(w, goods, n) then turns + [n] else turns;
      LedgerGrows(w, goods, turns, Turns(w, goods[..n]).value.bought, more, Turns(w, goods).value.bought);
    }
  }

  lemma LedgerGrows(w: World, goods: seq<GoodsRef>, turns: seq<nat>, bought: seq<Purchase>,
                    moreTurns: seq<nat>, more: seq<Purchase>)
    requires goods != [] && Ledger(w, goods[..|goods| - 1], turns, bought)
    requires
      || (!OnOffer(w, goods, |goods| - 1) && moreTurns == turns && more == bought)
      || (moreTurns == turns + [|goods| - 1] && |more| == |bought| + 1 && more[..|bought|] == bought
          && BoughtAt(w, goods, |goods| - 1, more[|bought|]))
    ensures Ledger(w, goods, moreTurns, more)
  {
    hide BoughtAt, OnOffer;
    var n := |goods| - 1;
    forall k | 0 <= k < |turns|
      ensures turns[k] < n && BoughtAt(w, goods, turns[k], more[k]) && moreTurns[k] == turns[k]
    {
      BoughtAtInside(w, goods[..n], turns[k], bought[k]);
      StepPrefix(w, goods, n, turns[k]);
      assert more[k] == bought[k];
    }
    forall i: nat | i < |goods|
      ensures i in moreTurns || !OnOffer(w, goods, i)
    {
      if i < n {
        if i in turns {
          var k :| 0 <= k < |turns| && turns[k] == i;
          assert moreTurns[k] == i;
        } else {
          StepPrefix(w, goods, n, i);
        }
      } else if moreTurns != turns {
        assert moreTurns[|turns|] == n;
      }
    }
  }

  lemma BoughtAtInside(w: World, goods: seq<GoodsRef>, i: nat, p: Purchase)
    requires BoughtAt(w, goods, i, p)
    ensures i < |goods|
  {
  }

  function PriceOf(goods: seq<Snapshot>): real {
    if goods == [] then 0.0 else goods[0].price + PriceOf(goods[1..])
  }

  lemma {:induction false} PriceOfAppend(goods: seq<Snapshot>, g: Snapshot)
    ensures PriceOf(goods + [g]) == PriceOf(goods) + g.price
  {
    if goods == [] {
      assert (goods + [g])[1..] == [];
    } else {
      assert (goods + [g])[1..] == goods[1..] + [g];
      PriceOfAppend(goods[1..], g);
    }
  }

  lemma {:induction false} SnapsCost(ps: seq<Purchase>)
    ensures PriceOf(Snaps(ps)) == TotalPrice(ps)
  {
    if ps != [] {
      SnapsCost(ps[..|ps| - 1]);
      PriceOfAppend(Snaps(ps[..|ps| - 1]), ps[|ps| - 1].Snap());
    }
  }

  /** The price of an order is the sum of the prices stored with its goods, and each of those is the
      base price of the good plus the prices of what was picked for it. */
  lemma OrderCostsWhatItsGoodsCost(w: World, goods: seq<GoodsRef>, o: Order, recipient: string, buyer: int)
    requires Turns(w, goods).Ok? && Records(o, recipient, buyer, Turns(w, goods).value)
    ensures o.price == PriceOf(o.goods) && |o.goods| == |Turns(w, goods).value.bought|
    ensures forall k :: 0 <= k < |o.goods| ==>
      var p := Turns(w, goods).value.bought[k];
      w.number(p.product.price).Some? && o.goods[k].price == w.number(p.product.price).value + Sum(p.picks)
  {
    hide Turns, Snaps, TotalPrice, Sum, BoughtAt;
    var bought := Turns(w, goods).value.bought;
    SnapsCost(bought);
    SnapsAre(bought);
    OrderIsWhatWasAsked(w, goods);
    var turns: seq<nat> :| Ledger(w, goods, turns, bought);
    forall k | 0 <= k < |bought|
      ensures w.number(bought[k].product.price) == Some(bought[k].base) && o.goods[k] == bought[k].Snap()
    {
      BoughtBase(w, goods, turns[k], bought[k]);
    }
  }

  lemma BoughtBase(w: World, goods: seq<GoodsRef>, i: nat, p: Purchase)
    requires BoughtAt(w, goods, i, p)
    ensures w.number(p.product.price) == Some(p.base)
  {
  }

  function FeesOf(ps: seq<Purchase>): real {
    if ps == [] then 0.0 else ps[0].fee + FeesOf(ps[1..])
  }

  lemma {:induction false} FeesOfAppend(ps: seq<Purchase>, p: Purchase)
    ensures FeesOf(ps + [p]) == FeesOf(ps) + p.fee
  {
    if ps == [] {
      assert (ps + [p])[1..] == [];
    } else {
      assert (ps + [p])[1..] == ps[1..] + [p];
      FeesOfAppend(ps[1..], p);
    }
  }

  lemma {:induction false} FeesAddUp(ps: seq<Purchase>)
    ensures FeesOf(ps) == TotalFee(ps)
  {
    if ps != [] {
      FeesAddUp(ps[..|ps| - 1]);
      FeesOfAppend(ps[..|ps| - 1], ps[|ps| - 1]);
      assert ps == ps[..|ps| - 1] + [ps[|ps| - 1]];
    }
  }

  /** The shipping fee of an order is the sum of its goods' fees, each the number in the good's
      description, or nothing if there is none. */
  lemma OrderShipsForItsGoodsFees(w: World, goods: seq<GoodsRef>, o: Order, recipient: string, buyer: int)
    requires Turns(w, goods).Ok? && Records(o, recipient, buyer, Turns(w, goods).value)
    ensures o.kuaidifei == FeesOf(Turns(w, goods).value.bought)
    ensures forall k :: 0 <= k < |Turns(w, goods).value.bought| ==>
      var p := Turns(w, goods).value.bought[k];
      if p.product.kuaidifei == "" then p.fee == 0.0 else w.number(p.product.kuaidifei) == Some(p.fee)
  {
    hide Turns, Snaps, TotalPrice, TotalFee, BoughtAt;
    var bought := Turns(w, goods).value.bought;
    FeesAddUp(bought);
    OrderIsWhatWasAsked(w, goods);
    var turns: seq<nat> :| Ledger(w, goods, turns, bought);
    forall k | 0 <= k < |bought|
      ensures var p := bought[k];
        if p.product.kuaidifei == "" then p.fee == 0.0 else w.number(p.product.kuaidifei) == Some(p.fee)
    {
      BoughtFee(w, goods, turns[k], bought[k]);
    }
  }

  lemma BoughtFee(w: World, goods: seq<GoodsRef>, i: nat, p: Purchase)
    requires BoughtAt(w, goods, i, p)
    ensures if p.product.kuaidifei == "" then p.fee == 0.0 else w.number(p.product.kuaidifei) == Some(p.fee)
  {
  }

  // ---- which orders are created ----

  /** The good on offer at turn `i` has a product, numbers for its price and its fee, and options
      that can be picked as asked. */
  ghost predicate Buyable(w: World, goods: seq<GoodsRef>, i: nat)
    requires OnOffer(w, goods, i)
  {
    var g := goods[i];
    var r := w.getProduct(i, g.merchantId, g.goodsId, KnownAs(w, goods, i + 1, g.merchantId).value.name);
    && r.Ok? && w.number(r.value.price).Some? && PicksFor(r.value, g.options).Ok?
    && (r.value.kuaidifei == "" || w.number(r.value.kuaidifei).Some?)
  }

  /** No good on offer comes after one of another merchant, merchants numbered 0 aside. */
  ghost predicate SellersAgree(w: World, goods: seq<GoodsRef>) {
    forall i: nat, j: nat :: i < j && OnOffer(w, goods, i) && OnOffer(w, goods, j) ==>
      goods[i].merchantId == 0 || goods[i].merchantId == goods[j].merchantId
  }

  /** An order is created exactly when every entry has the expected fields, every good on offer can be
      bought as asked, and they are all of one merchant. */
  lemma {:induction false} OrderIsCreatedExactly(w: World, goods: seq<GoodsRef>)
    ensures Turns(w, goods).Ok? <==>
      && (forall i :: 0 <= i < |goods| ==> goods[i].GoodsRef?)
      && (forall i: nat :: OnOffer(w, goods, i) ==> Buyable(w, goods, i))
      && SellersAgree(w, goods)
  {
    hide OnOffer, Buyable, Turn;
    if goods == [] {
      NothingOnOffer(w, goods);
    } else {
      var n := |goods| - 1;
      OrderIsCreatedExactly(w, goods[..n]);
      OffersOfPrefix(w, goods);
      if Turns(w, goods[..n]).Ok? {
        TurnSucceeds(w, goods, n);
        SellerIsOffered(w, goods[..n]);
      }
    }
  }

  lemma NothingOnOffer(w: World, goods: seq<GoodsRef>)
    requires goods == []
    ensures forall i: nat :: !OnOffer(w, goods, i)
  {
  }

  /** What is on offer and can be bought does not depend on what is asked for later. */
  lemma OffersOfPrefix(w: World, goods: seq<GoodsRef>)
    requires goods != []
    ensures var before := goods[..|goods| - 1];
      && (forall i: nat :: OnOffer(w, goods, i) <==> OnOffer(w, before, i) || (i == |before| && OnOffer(w, goods, |before|)))
      && (forall i: nat :: OnOffer(w, before, i) ==>
            i < |before| && OnOffer(w, goods, i) && Buyable(w, before, i) == Buyable(w, goods, i) && before[i] == goods[i])
      && (forall i: nat :: OnOffer(w, goods, i) ==> i < |goods| && goods[i].GoodsRef?)
  {
    hide OnOffer, Buyable;
    var before := goods[..|goods| - 1];
    forall i: nat
      ensures OnOffer(w, goods, i) ==> i < |goods| && goods[i].GoodsRef?
      ensures OnOffer(w, before, i) ==>
        i < |before| && OnOffer(w, goods, i) && Buyable(w, before, i) == Buyable(w, goods, i)
      ensures i < |before| ==> OnOffer(w, goods, i) == OnOffer(w, before, i)
    {
      if OnOffer(w, goods, i) {
        OfferInside(w, goods, i);
      }
      if OnOffer(w, before, i) {
        OfferInside(w, before, i);
      }
      if i < |before| {
        StepPrefix(w, goods, |before|, i);
        if OnOffer(w, before, i) {
          BuyablePrefix(w, goods, |before|, i);
        }
      }
    }
  }

  lemma OfferInside(w: World, goods: seq<GoodsRef>, i: nat)
    requires OnOffer(w, goods, i)
    ensures i < |goods| && goods[i].GoodsRef?
  {
  }

  lemma BuyablePrefix(w: World, goods: seq<GoodsRef>, n: nat, i: nat)
    requires n <= |goods| && i < n && OnOffer(w, goods[..n], i) && OnOffer(w, goods, i)
    ensures Buyable(w, goods[..n], i) == Buyable(w, goods, i)
  {
    hide KnownAs, PicksFor;
    assert goods[..n][i] == goods[i];
    KnownPrefix(w, goods, n, i + 1, goods[i].merchantId);
  }

  lemma TurnSucceeds(w: World, goods: seq<GoodsRef>, i: nat)
    requires i < |goods| && Turns(w, goods[..i]).Ok?
    ensures var st := Turns(w, goods[..i]).value;
      Turn(w, i, st, goods[i]).Ok? <==>
        && goods[i].GoodsRef?
        && (OnOffer(w, goods, i) ==> Buyable(w, goods, i) && (st.seller == 0 || st.seller == goods[i].merchantId))
  {
    hide Turns, PicksFor, KnownAs;
    if goods[i].GoodsRef? {
      CacheIsKnown(w, goods, i, goods[i].merchantId);
      KnownStep(w, goods, i);
    }
  }

  /** The seller is the merchant of every good on offer so far, merchants numbered 0 aside. */
  lemma {:induction false} SellerIsOffered(w: World, goods: seq<GoodsRef>)
    requires Turns(w, goods).Ok?
    ensures var seller := Turns(w, goods).value.seller;
      && (forall i: nat :: OnOffer(w, goods, i) ==>
            i < |goods| && goods[i].GoodsRef? && (goods[i].merchantId == 0 || goods[i].merchantId == seller))
      && (seller != 0 ==> exists i: nat :: OnOffer(w, goods, i) && goods[i].merchantId == seller)
  {
    hide OnOffer, Turn, Buyable;
    if goods == [] {
      NothingOnOffer(w, goods);
    } else {
      var n := |goods| - 1;
      SellerIsOffered(w, goods[..n]);
      OffersOfPrefix(w, goods);
      TurnBuysOrPasses(w, goods, n);
      TurnSucceeds(w, goods, n);
    }
  }

  /** The first good on offer of another merchant stops the order, if its product can be had. */
  lemma OtherMerchantIsRefused(w: World, goods: seq<GoodsRef>, i: nat, j: nat)
    requires i < j < |goods| && Turns(w, goods[..j]).Ok?
    requires OnOffer(w, goods, i) && OnOffer(w, goods, j) && goods[i].merchantId != 0
    requires goods[i].merchantId != goods[j].merchantId
    requires var id := goods[j].merchantId;
      w.getProduct(j, id, goods[j].goodsId, KnownAs(w, goods, j + 1, id).value.name).Ok?
    ensures Turns(w, goods) == Err(ShouldBeSameMerchant)
  {
    hide KnownAs, Turns, Buy;
    StepPrefix(w, goods, j, i);
    assert goods[..j][i] == goods[i];
    SellerIsOffered(w, goods[..j]);
    CacheIsKnown(w, goods, j, goods[j].merchantId);
    KnownStep(w, goods, j);
    TurnsStep(w, goods, j);
    TurnsFail(w, goods, j + 1);
  }

  // ---- one merchant ----

  predicate IsSingleMerchantOrder(goods: seq<Snapshot>)
    requires goods != []
  {
    forall i :: 0 <= i < |goods| ==> goods[i].merchantId == goods[0].merchantId
  }

  predicate SoldBy(goods: seq<Snapshot>, seller: int) {
    forall i :: 0 <= i < |goods| ==> goods[i].merchantId == seller
  }

  lemma {:induction false} SnapsAre(ps: seq<Purchase>)
    ensures |Snaps(ps)| == |ps| && forall i :: 0 <= i < |ps| ==> Snaps(ps)[i] == ps[i].Snap()
  {
    if ps != [] {
      SnapsAre(ps[..|ps| - 1]);
    }
  }

  lemma {:induction false} GoodsAreTheSellers(w: World, goods: seq<GoodsRef>)
    requires Turns(w, goods).Ok?
    ensures var st := Turns(w, goods).value;
      && (forall k :: 0 <= k < |st.bought| ==> st.bought[k].merchantId == 0 || st.bought[k].merchantId == st.seller)
      && (st.seller != 0 ==> exists k :: 0 <= k < |st.bought| && st.bought[k].merchantId == st.seller)
  {
    hide Turn, OnOffer;
    if goods != [] {
      var n := |goods| - 1;
      GoodsAreTheSellers(w, goods[..n]);
      TurnBuysOrPasses(w, goods, n);
      var st, next := Turns(w, goods[..n]).value, Turns(w, goods).value;
      if OnOffer(w, goods, n) {
        LastBought(w, goods, n, next.bought[|st.bought|]);
        assert forall k :: 0 <= k < |st.bought| ==> next.bought[k] == next.bought[..|st.bought|][k];
      }
    }
  }

  lemma LastBought(w: World, goods: seq<GoodsRef>, i: nat, p: Purchase)
    requires BoughtAt(w, goods, i, p)
    ensures OnOffer(w, goods, i) && i < |goods| && goods[i].GoodsRef? && p.merchantId == goods[i].merchantId
  {
  }

  /** A good on offer of a merchant numbered 0, or of another. */
  predicate OfferAt(w: World, goods: seq<GoodsRef>, i: nat, zero: bool) {
    OnOffer(w, goods, i) && (goods[i].merchantId == 0) == zero
  }

  ghost predicate Offers(w: World, goods: seq<GoodsRef>, zero: bool) {
    exists i: nat :: OfferAt(w, goods, i, zero)
  }

  ghost predicate Bought(bought: seq<Purchase>, zero: bool) {
    exists k :: 0 <= k < |bought| && (bought[k].merchantId == 0) == zero
  }

  lemma OfferIsBought(w: World, goods: seq<GoodsRef>, turns: seq<nat>, bought: seq<Purchase>, i: nat, zero: bool)
    requires Ledger(w, goods, turns, bought) && OfferAt(w, goods, i, zero)
    ensures Bought(bought, zero)
  {
    hide KnownAs;
    var k :| 0 <= k < |turns| && turns[k] == i;
    LastBought(w, goods, turns[k], bought[k]);
    assert (bought[k].merchantId == 0) == zero;
  }

  lemma BoughtIsOffered(w: World, goods: seq<GoodsRef>, turns: seq<nat>, bought: seq<Purchase>, k: nat)
    requires Ledger(w, goods, turns, bought) && k < |bought|
    ensures OfferAt(w, goods, turns[k], bought[k].merchantId == 0)
  {
    hide OnOffer, BoughtAt;
    LastBought(w, goods, turns[k], bought[k]);
  }

  lemma OffersAreBought(w: World, goods: seq<GoodsRef>, zero: bool)
    requires Turns(w, goods).Ok?
    ensures Offers(w, goods, zero) <==> Bought(Turns(w, goods).value.bought, zero)
  {
    hide Turns, OfferAt, Ledger;
    var bought := Turns(w, goods).value.bought;
    OrderIsWhatWasAsked(w, goods);
    var turns: seq<nat> :| Ledger(w, goods, turns, bought);
    if Offers(w, goods, zero) {
      var i: nat :| OfferAt(w, goods, i, zero);
      OfferIsBought(w, goods, turns, bought, i, zero);
    }
    if Bought(bought, zero) {
      var k :| 0 <= k < |bought| && (bought[k].merchantId == 0) == zero;
      LedgerSize(w, goods, turns, bought);
      BoughtIsOffered(w, goods, turns, bought, k);
    }
  }

  lemma LedgerSize(w: World, goods: seq<GoodsRef>, turns: seq<nat>, bought: seq<Purchase>)
    requires Ledger(w, goods, turns, bought)
    ensures |turns| == |bought|
  {
  }

  /** An order has one merchant exactly when the request does not ask both for goods on offer of a
      merchant numbered 0 and for goods on offer of another; then its goods are all the seller's. */
  lemma SingleMerchantExactly(w: World, goods: seq<GoodsRef>)
    requires Turns(w, goods).Ok?
    ensures var st := Turns(w, goods).value;
      var snaps := Snaps(st.bought);
      && (snaps != [] <==> Offers(w, goods, true) || Offers(w, goods, false))
      && (snaps != [] ==> (IsSingleMerchantOrder(snaps) <==> SoldBy(snaps, st.seller)))
      && (snaps != [] ==> (IsSingleMerchantOrder(snaps) <==> !(Offers(w, goods, true) && Offers(w, goods, false))))
  {
    hide Turns, Snaps, Offers;
    var st := Turns(w, goods).value;
    SnapsAre(st.bought);
    GoodsAreTheSellers(w, goods);
    OffersAreBought(w, goods, true);
    OffersAreBought(w, goods, false);
    if st.bought != [] {
      SameMerchants(Snaps(st.bought), st.bought, st.seller);
      assert Bought(st.bought, st.bought[0].merchantId == 0);
    }
  }

  lemma SameMerchants(snaps: seq<Snapshot>, bought: seq<Purchase>, seller: int)
    requires |snaps| == |bought| != 0 && forall i :: 0 <= i < |bought| ==> snaps[i] == bought[i].Snap()
    requires forall k :: 0 <= k < |bought| ==> bought[k].merchantId == 0 || bought[k].merchantId == seller
    requires seller != 0 ==> exists k :: 0 <= k < |bought| && bought[k].merchantId == seller
    ensures IsSingleMerchantOrder(snaps) <==> SoldBy(snaps, seller)
    ensures IsSingleMerchantOrder(snaps) <==> !(Bought(bought, true) && Bought(bought, false))
  {
    hide Sum, Pairs, SelectionGrammar.Print;
    assert forall i :: 0 <= i < |bought| ==> snaps[i].merchantId == bought[i].merchantId;
  }

  ghost predicate NoMerchantZero(w: World) {
    forall i: nat :: w.load(i, 0).None?
  }

  lemma {:induction false} ZeroIsUnknown(w: World, goods: seq<GoodsRef>, n: nat)
    requires NoMerchantZero(w) && n <= |goods|
    ensures KnownAs(w, goods, n, 0).None?
  {
    if n != 0 {
      ZeroIsUnknown(w, goods, n - 1);
    }
  }

  /** With no merchant numbered 0, every good of every order is the seller's, and an order with
      goods is a single-merchant order. */
  lemma EveryOrderHasOneMerchant(w: World, goods: seq<GoodsRef>, o: Order, recipient: string, buyer: int)
    requires NoMerchantZero(w) && Turns(w, goods).Ok?
    requires Records(o, recipient, buyer, Turns(w, goods).value)
    ensures SoldBy(o.goods, o.seller)
    ensures o.goods != [] ==> IsSingleMerchantOrder(o.goods)
  {
    hide Turns, Snaps;
    SnapsAre(Turns(w, goods).value.bought);
    if o.goods != [] {
      SingleMerchantExactly(w, goods);
      forall i: nat | OnOffer(w, goods, i)
        ensures goods[i].merchantId != 0
      {
        ZeroIsUnknown(w, goods, i + 1);
      }
    }
  }

  /** A good without options that the shop can sell at turn `i`. */
  ghost predicate OnSale(w: World, i: nat, id: int, goodsId: string) {
    && w.load(i, id).Some? && w.load(i, id).value.normal
    && w.getProduct(i, id, goodsId, w.load(i, id).value.name).Ok?
    && var p := w.getProduct(i, id, goodsId, w.load(i, id).value.name).value;
      p.options == [] && w.number(p.price).Some? && Fee(w, p).Some?
  }

  /** With a merchant numbered 0 it fails: its goods and any other's go into one order. */
  lemma MerchantZeroMixes(w: World, a: int, g0: string, g1: string)
    requires a != 0 && OnSale(w, 0, 0, g0) && OnSale(w, 1, a, g1)
    ensures var r := Turns(w, [GoodsRef(0, g0, []), GoodsRef(a, g1, [])]);
      r.Ok? && |r.value.bought| == 2 && r.value.bought[0].merchantId == 0 && r.value.bought[1].merchantId == a
  {
    hide Buy;
    var one, two := [GoodsRef(0, g0, [])], [GoodsRef(0, g0, []), GoodsRef(a, g1, [])];
    assert one[..0] == [] && two[..1] == one;
    BuysPlain(w, 0, w.getProduct(0, 0, g0, w.load(0, 0).value.name).value);
    BuysPlain(w, a, w.getProduct(1, a, g1, w.load(1, a).value.name).value);
    TurnsOfNothing(w, one[..0]);
    assert Turns(w, one) == Turn(w, 0, NOTHING, one[0]);
    assert Turns(w, two) == Turn(w, 1, Turns(w, one).value, two[1]);
  }

  lemma TurnsOfNothing(w: World, goods: seq<GoodsRef>)
    requires goods == []
    ensures Turns(w, goods) == Ok(NOTHING)
  {
  }

  lemma BuysPlain(w: World, id: int, p: Product)
    requires p.options == [] && w.number(p.price).Some? && Fee(w, p).Some?
    ensures Buy(w, id, p, []).Ok?
  {
  }
}

/** Order creation: the goods a buyer asks for are checked, priced and put in one order. Prices are exact
    numbers; the database and the goods repositories are arbitrary functions that may answer
    differently at each turn of the loop. */
module OrderCreation {
  import opened Wrappers
  import opened SelectionGrammar

  datatype Result<T> = Ok(value: T) | Err(error: Error)

  datatype Error =
    | RecipientIdOutOfRange
    | ShouldBeSameMerchant
    | GoodOptionNeeded
    | GoodOptionInvalid
    | NoProduct       // the goods repository throws
    | BadNumber       // a price text that is no number
    | BadRequest      // a part of the request has the wrong JSON type

  // ---- what is on sale ----

  datatype Selection = Selection(name: string, price: real)

  datatype ProductOption = ProductOption(title: string, selections: seq<Selection>)

  datatype Product = Product(
    id: string, title: string, description: string, gitVersion: string,
    price: string, kuaidifei: string, options: seq<ProductOption>)

  datatype Merchant = Merchant(name: string, normal: bool)

  /** The answers of the database and of the repositories at turn `i` of the loop, and the numbers
      that texts stand for. */
  datatype World = World(
    load: (nat, int) -> Option<Merchant>,
    getProduct: (nat, int, string, string) -> Result<Product>,
    number: string -> Option<real>)

  // ---- the request ----

  datatype Select = Absent | NotText | Text(s: string)

  /** One entry of "options"; Broken if it is no object with a text "option". */
  datatype BuyerOption = Broken | BuyerOption(title: string, select: Select)

  /** One entry of "goods"; Malformed if it is no object with the expected fields. */
  datatype GoodsRef = Malformed | GoodsRef(merchantId: int, goodsId: string, options: seq<BuyerOption>)

  // ---- the order ----

  datatype Snapshot = Snapshot(
    merchantId: int, goodsId: string, name: string, price: real,
    description: string, gitVersion: string, selection: string)

  datatype Order = Order(
    recipient: string, buyer: int, seller: int, gitVersion: string,
    goods: seq<Snapshot>, price: real, kuaidifei: real)

  // ---- choosing options ----

  /** The first entry with that title; a broken entry before it ends the search with an exception. */
  function FindEntry(buyer: seq<BuyerOption>, title: string): Result<BuyerOption> {
    if buyer == [] then Err(GoodOptionInvalid)
    else if buyer[0].Broken? then Err(BadRequest)
    else if buyer[0].title == title then Ok(buyer[0])
    else FindEntry(buyer[1..], title)
  }

  function SelectText(e: BuyerOption): Result<string>
    requires e.BuyerOption?
  {
    match e.select
    case Absent => Err(BadRequest)
    case NotText => Ok("")
    case Text(s) => Ok(s)
  }

  function FindSelection(selections: seq<Selection>, name: string): Result<Selection> {
    if selections == [] then Err(GoodOptionInvalid)
    else if selections[0].name == name then Ok(selections[0])
    else FindSelection(selections[1..], name)
  }

  /** What the buyer chose for one option of the product. */
  function Choice(buyer: seq<BuyerOption>, o: ProductOption): (r: Result<Selection>)
  {
    FindEntryIsEntry(buyer, o.title);
    match FindEntry(buyer, o.title)
    case Err(e) => Err(e)
    case Ok(entry) =>
      match SelectText(entry)
      case Err(e) => Err(e)
      case Ok(name) => FindSelection(o.selections, name)
  }

  lemma {:induction false} FindEntryIsEntry(buyer: seq<BuyerOption>, title: string)
    ensures var r := FindEntry(buyer, title);
      r.Ok? ==> r.value in buyer && r.value.BuyerOption? && r.value.title == title
  {
    if buyer != [] {
      FindEntryIsEntry(buyer[1..], title);
    }
  }

  datatype Pick = Pick(option: ProductOption, selection: Selection)

  /** Option by option; the first failure ends it. */
  function Picks(buyer: seq<BuyerOption>, options: seq<ProductOption>): Result<seq<Pick>> {
    if options == [] then Ok([])
    else
      match Picks(buyer, options[..|options| - 1])
      case Err(e) => Err(e)
      case Ok(picks) =>
        match Choice(buyer, options[|options| - 1])
        case Err(e) => Err(e)
        case Ok(s) => Ok(picks + [Pick(options[|options| - 1], s)])
  }

  /** What is picked for a product. The count is checked only if the product has options. */
  function PicksFor(p: Product, buyer: seq<BuyerOption>): Result<seq<Pick>> {
    if p.options == [] then Ok([])
    else if |buyer| != |p.options| then Err(GoodOptionNeeded)
    else Picks(buyer, p.options)
  }

  function Sum(picks: seq<Pick>): real {
    if picks == [] then 0.0 else Sum(picks[..|picks| - 1]) + picks[|picks| - 1].selection.price
  }

  function Pair(p: Pick): Chosen {
    Chosen(p.option.title, p.selection.name)
  }

  /** The (title, name) pairs of what was picked. */
  function Pairs(picks: seq<Pick>): (ps: seq<Chosen>)
    ensures |ps| == |picks| && forall i :: 0 <= i < |picks| ==> ps[i] == Pair(picks[i])
  {
    if picks == [] then [] else Pairs(picks[..|picks| - 1]) + [Pair(picks[|picks| - 1])]
  }

  // ---- one entry of "goods" ----

  /** What was bought, with the numbers its price and shipping fee stand for. */
  datatype Purchase = Purchase(merchantId: int, product: Product, base: real, fee: real, picks: seq<Pick>) {
    function Price(): real {
      base + Sum(picks)
    }

    function Snap(): Snapshot {
      Snapshot(merchantId, product.id, product.title, Price(), product.description, product.gitVersion,
               Print(Pairs(picks)))
    }
  }

  /** The state between turns: cached merchants, seller, and what was bought so far. */
  datatype State = State(cache: map<int, Merchant>, seller: int, bought: seq<Purchase>)

  function Looked(w: World, i: nat, cache: map<int, Merchant>, id: int): map<int, Merchant> {
    if id in cache then cache
    else
      match w.load(i, id)
      case None => cache
      case Some(m) => cache[id := m]
  }

  function Fee(w: World, p: Product): Option<real> {
    if p.kuaidifei == "" then Some(0.0) else w.number(p.kuaidifei)
  }

  /** The good is bought: the numbers in its description are read, the options picked. */
  function Buy(w: World, id: int, p: Product, buyer: seq<BuyerOption>): (r: Result<Purchase>)
    ensures r.Ok? ==> r.value.merchantId == id && r.value.product == p
  {
    if w.number(p.price).None? then Err(BadNumber)
    else
      match PicksFor(p, buyer)
      case Err(e) => Err(e)
      case Ok(picks) =>
        match Fee(w, p)
        case None => Err(BadNumber)
        case Some(fee) => Ok(Purchase(id, p, w.number(p.price).value, fee, picks))
  }

  /** Turn `i` of the loop. */
  function Turn(w: World, i: nat, st: State, g: GoodsRef): Result<State> {
    match g
    case Malformed => Err(BadRequest)
    case GoodsRef(id, goodsId, buyer) =>
      var cache := Looked(w, i, st.cache, id);
      if id !in cache || !cache[id].normal then Ok(st.(cache := cache))
      else
        match w.getProduct(i, id, goodsId, cache[id].name)
        case Err(e) => Err(e)
        case Ok(p) =>
          if st.seller != 0 && st.seller != id then Err(ShouldBeSameMerchant)
          else
            match Buy(w, id, p, buyer)
            case Err(e) => Err(e)
            case Ok(purchase) => Ok(State(cache, id, st.bought + [purchase]))
  }

  const NOTHING := State(map[], 0, [])

  function Turns(w: World, goods: seq<GoodsRef>): Result<State> {
    if goods == [] then Ok(NOTHING)
    else
      var before := Turns(w, goods[..|goods| - 1]);
      if before.Err? then before else Turn(w, |goods| - 1, before.value, goods[|goods| - 1])
  }

  function TotalPrice(ps: seq<Purchase>): real {
    if ps == [] then 0.0 else TotalPrice(ps[..|ps| - 1]) + ps[|ps| - 1].Price()
  }

  function TotalFee(ps: seq<Purchase>): real {
    if ps == [] then 0.0 else TotalFee(ps[..|ps| - 1]) + ps[|ps| - 1].fee
  }

  function Snaps(ps: seq<Purchase>): seq<Snapshot> {
    if ps == [] then [] else Snaps(ps[..|ps| - 1]) + [ps[|ps| - 1].Snap()]
  }

  // ---- the handler ----

  /** The option loop of one good: price and selection string grow together. */
  method PickOptions(p: Product, buyer: seq<BuyerOption>, base: real) returns (r: Result<(real, string)>)
    ensures r == match PicksFor(p, buyer)
                 case Err(e) => Err(e)
                 case Ok(picks) => Ok((base + Sum(picks), Print(Pairs(picks))))
  {
    var price, selection := base, "";
    if p.options != [] {
      if |buyer| != |p.options| {
        return Err(GoodOptionNeeded);
      }
      ghost var picks: seq<Pick> := [];
      for i := 0 to |p.options|
        invariant Picks(buyer, p.options[..i]) == Ok(picks)
        invariant price == base + Sum(picks) && selection == Print(Pairs(picks))
      {
        var option := p.options[i];
        PicksStep(buyer, p.options, i);
        var chosen := Choice(buyer, option);
        if chosen.Err? {
          PicksFail(buyer, p.options, i + 1);
          return Err(chosen.error);
        }
        price := price + chosen.value.price;
        selection := selection + option.title + ":" + chosen.value.name + ";";
        PairsStep(picks, Pick(option, chosen.value));
        picks := picks + [Pick(option, chosen.value)];
      }
      assert p.options[..|p.options|] == p.options;
    }
    r := Ok((price, selection));
  }

  /** The snapshot of one good, and its shipping fee. */
  method BuyGood(w: World, id: int, p: Product, buyer: seq<BuyerOption>) returns (r: Result<(Snapshot, real)>)
    ensures r == match Buy(w, id, p, buyer)
                 case Err(e) => Err(e)
                 case Ok(purchase) => Ok((purchase.Snap(), purchase.fee))
  {
    hide PicksFor, Sum, Pairs, Print;
    var base := w.number(p.price);
    if base.None? {
      return Err(BadNumber);
    }
    var priced := PickOptions(p, buyer, base.value);
    if priced.Err? {
      return Err(priced.error);
    }
    var (price, selection) := priced.value;
    var snap := Snapshot(id, p.id, p.title, price, p.description, p.gitVersion, selection);
    var fee := 0.0;
    if p.kuaidifei != "" {
      var k := w.number(p.kuaidifei);
      if k.None? {
        return Err(BadNumber);
      }
      fee := k.value;
    }
    r := Ok((snap, fee));
  }

  lemma PicksStep(buyer: seq<BuyerOption>, options: seq<ProductOption>, i: nat)
    requires i < |options|
    ensures Picks(buyer, options[..i + 1])
         == match Picks(buyer, options[..i])
            case Err(e) => Err(e)
            case Ok(picks) =>
              match Choice(buyer, options[i])
              case Err(e) => Err(e)
              case Ok(s) => Ok(picks + [Pick(options[i], s)])
  {
    assert options[..i + 1][..i] == options[..i];
  }

  lemma {:induction false} PicksFail(buyer: seq<BuyerOption>, options: seq<ProductOption>, i: nat)
    requires i <= |options| && Picks(buyer, options[..i]).Err?
    ensures Picks(buyer, options) == Picks(buyer, options[..i])
    decreases |options| - i
  {
    if i < |options| {
      PicksStep(buyer, options, i);
      PicksFail(buyer, options, i + 1);
    } else {
      assert options[..i] == options;
    }
  }

  lemma PairsStep(picks: seq<Pick>, p: Pick)
    ensures Sum(picks + [p]) == Sum(picks) + p.selection.price
    ensures Print(Pairs(picks + [p])) == Print(Pairs(picks)) + p.option.title + ":" + p.selection.name + ";"
  {
    assert (picks + [p])[..|picks|] == picks;
    PrintAppend(Pairs(picks), Pair(p));
    PrintItemText(Print(Pairs(picks)), Pair(p));
  }

  lemma PrintItemText(s: string, c: Chosen)
    ensures s + PrintItem(c) == s + c.option + ":" + c.select + ";"
  {
  }

  /** The order says who buys from whom, and each good and both totals as bought. */
  predicate Records(o: Order, recipient: string, buyer: int, st: State) {
    && o.recipient == recipient && o.buyer == buyer && o.seller == st.seller
    && o.goods == Snaps(st.bought)
    && o.price == TotalPrice(st.bought)
    && o.kuaidifei == TotalFee(st.bought)
    && o.gitVersion == if st.bought == [] then "" else st.bought[|st.bought| - 1].product.gitVersion
  }

  method CreateOrder(w: World, recipients: seq<string>, buyer: int, recipientId: int, goods: seq<GoodsRef>)
      returns (r: Result<Order>)
    ensures !(0 <= recipientId < |recipients|) ==> r == Err(RecipientIdOutOfRange)
    ensures 0 <= recipientId < |recipients| && Turns(w, goods).Err? ==> r == Err(Turns(w, goods).error)
    ensures 0 <= recipientId < |recipients| && Turns(w, goods).Ok? ==>
      r.Ok? && Records(r.value, recipients[recipientId], buyer, Turns(w, goods).value)
  {
    hide Snaps, TotalPrice, TotalFee, Buy, Turns, Sum, Pairs, Print;
    NothingBought(w, goods);
    if !(0 <= recipientId < |recipients|) {
      return Err(RecipientIdOutOfRange);
    }
    var seller, gitVersion := 0, "";
    var boughtGoods: seq<Snapshot> := [];
    var totalPrice, totalKuaidifei := 0.0, 0.0;
    var cache: map<int, Merchant> := map[];
    ghost var bought: seq<Purchase> := [];
    for i := 0 to |goods|
      invariant Turns(w, goods[..i]) == Ok(State(cache, seller, bought))
      invariant boughtGoods == Snaps(bought) && totalPrice == TotalPrice(bought) && totalKuaidifei == TotalFee(bought)
      invariant gitVersion == if bought == [] then "" else bought[|bought| - 1].product.gitVersion
    {
      TurnsStep(w, goods, i);
      TurnsFail(w, goods, i + 1);
      if goods[i].Malformed? {
        return Err(BadRequest);
      }
      var id, goodsId, options := goods[i].merchantId, goods[i].goodsId, goods[i].options;
      if id !in cache {
        var loaded := w.load(i, id);
        if loaded.None? {
          continue;
        }
        cache := cache[id := loaded.value];
      }
      var m := cache[id];
      if !m.normal {
        continue;
      }
      var product := w.getProduct(i, id, goodsId, m.name);
      if product.Err? {
        return Err(product.error);
      }
      var p := product.value;
      if seller == 0 {
        seller := id;
      } else if seller != id {
        return Err(ShouldBeSameMerchant);
      }
      gitVersion := p.gitVersion;
      var good := BuyGood(w, id, p, options);
      if good.Err? {
        return Err(good.error);
      }
      var (snap, fee) := good.value;
      TotalsStep(bought, Buy(w, id, p, options).value);
      bought := bought + [Buy(w, id, p, options).value];
      boughtGoods := boughtGoods + [snap];
      totalPrice := totalPrice + snap.price;
      totalKuaidifei := totalKuaidifei + fee;
    }
    assert goods[..|goods|] == goods;
    r := Ok(Order(recipients[recipientId], buyer, seller, gitVersion, boughtGoods, totalPrice, totalKuaidifei));
  }

  lemma NothingBought(w: World, goods: seq<GoodsRef>)
    ensures Turns(w, goods[..0]) == Ok(NOTHING)
    ensures Snaps([]) == [] && TotalPrice([]) == 0.0 && TotalFee([]) == 0.0
  {
  }

  lemma TotalsStep(ps: seq<Purchase>, p: Purchase)
    ensures Snaps(ps + [p]) == Snaps(ps) + [p.Snap()]
    ensures TotalPrice(ps + [p]) == TotalPrice(ps) + p.Price()
    ensures TotalFee(ps + [p]) == TotalFee(ps) + p.fee
  {
    assert (ps + [p])[..|ps|] == ps;
  }

  lemma TurnsStep(w: World, goods: seq<GoodsRef>, i: nat)
    requires i < |goods|
    ensures Turns(w, goods[..i + 1])
         == if Turns(w, goods[..i]).Err? then Turns(w, goods[..i]) else Turn(w, i, Turns(w, goods[..i]).value, goods[i])
  {
    assert goods[..i + 1][..i] == goods[..i];
  }

  lemma {:induction false} TurnsFail(w: World, goods: seq<GoodsRef>, i: nat)
    requires i <= |goods|
    ensures Turns(w, goods[..i]).Err? ==> Turns(w, goods) == Turns(w, goods[..i])
    decreases |goods| - i
  {
    hide Turn;
    if i < |goods| {
      TurnsStep(w, goods, i);
      TurnsFail(w, goods, i + 1);
    } else {
      assert goods[..i] == goods;
    }
  }
}

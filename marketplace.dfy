/**
 * The marketplace of python/chapter-6.py: sellers list items from their inventory sets into the
 * "market:" sorted set (member "<item>.<seller>", score = price), and buyers purchase listings,
 * moving funds between the "users:<id>" hashes and the item into the buyer's inventory. Both
 * operations are optimistic transactions retried until a deadline (5 s and 10 s).
 */
module Marketplace {
  import opened Common
  import opened Text
  import ZSets
  import opened Optimistic

  /** `end = time.time() + 5` in list_item and `+ 10` in purchase_item, in milliseconds. */
  const LIST_WINDOW: int := 5000
  const PURCHASE_WINDOW: int := 10000

  /** The keys the marketplace reads and writes, as one value. */
  datatype Ledger = Ledger(
    market: ZSets.ZSet,                     // "market:": listing member -> asking price
    inventories: map<string, set<string>>,  // inventory set key -> item ids
    funds: map<string, int>)                // user id -> "funds" field of "users:<id>"

  /** The seller-side inventory key, `"inventory: %s"`; the model uses it for buyers too. */
  function InventoryKey(user: string): string {
    "inventory: " + user
  }

  /** The buyer-side inventory key as purchase_item spells it, `"invnetory:%s"`. */
  function BuyerInventoryKeyAsWritten(user: string): string {
    "invnetory:" + user
  }

  /** The market member of a listing, `"%s.%s" % (itemid, sellerid)`. */
  function ListingMember(item: string, seller: string): string {
    item + "." + seller
  }

  /** SMEMBERS: an absent set key reads as the empty set. */
  function Inventory(L: Ledger, key: string): set<string> {
    if key in L.inventories then L.inventories[key] else {}
  }

  /** HGET users:<id> funds, with HINCRBY's reading of a missing field as 0. */
  function FundsOf(L: Ledger, user: string): int {
    if user in L.funds then L.funds[user] else 0
  }

  /** One validated list_item attempt: None when the seller does not hold the item. */
  function ListPlan(L: Ledger, item: string, seller: string, price: int): Option<(Ledger, ())> {
    var key := InventoryKey(seller);
    if item !in Inventory(L, key) then None
    else Some((L.(market := ZSets.Add(L.market, ListingMember(item, seller), price),
                  inventories := L.inventories[key := Inventory(L, key) - {item}]), ()))
  }

  /**
   * One validated purchase_item attempt that adds the item to inventory set `buyerKey`:
   * None when the listing's price is not `lprice` (an absent listing included) or exceeds the
   * buyer's funds.
   */
  function PurchaseInto(L: Ledger, buyer: string, item: string, seller: string, lprice: int, buyerKey: string)
    : Option<(Ledger, ())>
    requires buyer in L.funds
  {
    var member := ListingMember(item, seller);
    var price := ZSets.Score(L.market, member);
    if price != Some(lprice) || lprice > L.funds[buyer] then None
    else
      var paid := L.funds[seller := FundsOf(L, seller) + lprice];
      var debited := paid[buyer := paid[buyer] - lprice];
      Some((Ledger(ZSets.Rem(L.market, member),
                   L.inventories[buyerKey := Inventory(L, buyerKey) + {item}],
                   debited), ()))
  }

  /** purchase_item as intended: the item goes to the buyer's "inventory: <buyer>" set. */
  function PurchasePlan(L: Ledger, buyer: string, item: string, seller: string, lprice: int): Option<(Ledger, ())>
    requires buyer in L.funds
  {
    PurchaseInto(L, buyer, item, seller, lprice, InventoryKey(buyer))
  }

  /** purchase_item as written: the item goes to the misspelt "invnetory:<buyer>" set. */
  function PurchasePlanAsWritten(L: Ledger, buyer: string, item: string, seller: string, lprice: int)
    : Option<(Ledger, ())>
    requires buyer in L.funds
  {
    PurchaseInto(L, buyer, item, seller, lprice, BuyerInventoryKeyAsWritten(buyer))
  }

  // ---------------------------------------------------------------------------------------------
  // The store, updated in place

  class Market {
    var market: ZSets.ZSet
    var inventories: map<string, set<string>>
    var funds: map<string, int>

    ghost predicate Valid()
      reads this
    {
      ZSets.Valid(market)
    }

    function State(): Ledger
      reads this
    {
      Ledger(market, inventories, funds)
    }

    constructor (inventories: map<string, set<string>>, funds: map<string, int>)
      ensures Valid() && State() == Ledger([], inventories, funds)
    {
      this.market := [];
      this.inventories := inventories;
      this.funds := funds;
    }

    /** One pass of list_item's loop body: WATCH, SISMEMBER, then MULTI ZADD SREM EXEC. */
    method ListItemAttempt(item: string, seller: string, price: int, conflict: bool) returns (a: Attempt<()>)
      requires Valid()
      modifies this
      ensures Valid()
      ensures (State(), a) == Try(old(State()), ListPlan(old(State()), item, seller, price), conflict)
    {
      var inventory := InventoryKey(seller);
      var owned := if inventory in inventories then inventories[inventory] else {};
      if item !in owned {
        // UNWATCH and return None
        return Rejected;
      }
      if conflict {
        // EXEC raises WatchError: nothing staged is applied
        return Conflicted;
      }
      ZSets.AddSpec(market, ListingMember(item, seller), price);
      market := ZSets.Add(market, ListingMember(item, seller), price);
      inventories := inventories[inventory := owned - {item}];
      return Committed(());
    }

    /** list_item: attempts until one commits or rejects, or the 5-second window closes (False). */
    method ListItem(item: string, seller: string, price: int, start: int, ticks: seq<Tick>) returns (o: Outcome<()>)
      requires Valid()
      modifies this
      ensures Valid()
      ensures (State(), o) == Run(old(State()), ListPlan(old(State()), item, seller, price),
                                  Some(start + LIST_WINDOW), ticks)
    {
      var end := start + LIST_WINDOW;
      ghost var s0 := State();
      ghost var plan := ListPlan(s0, item, seller, price);
      var i := 0;
      while i < |ticks| && ticks[i].now < end
        invariant 0 <= i <= |ticks|
        invariant Valid() && State() == s0
        invariant Run(s0, plan, Some(end), ticks) == Run(s0, plan, Some(end), ticks[i..])
      {
        assert ticks[i..][0] == ticks[i];
        var a := ListItemAttempt(item, seller, price, ticks[i].conflict);
        if a.Committed? {
          return Success(());
        }
        if a.Rejected? {
          return Rejection;
        }
        RunStep(s0, plan, Some(end), ticks, i);
        i := i + 1;
      }
      assert ticks[i..] == [] || !Open(Some(end), ticks[i..][0]);
      return Timeout;
    }

    /** One pass of purchase_item's loop body: WATCH market and buyer, ZSCORE, HGET, then the batch. */
    method PurchaseItemAttempt(buyer: string, item: string, seller: string, lprice: int, conflict: bool)
      returns (a: Attempt<()>)
      requires Valid() && buyer in funds
      modifies this
      ensures Valid()
      ensures (State(), a) == Try(old(State()), PurchasePlan(old(State()), buyer, item, seller, lprice), conflict)
    {
      var member := ListingMember(item, seller);
      var price := ZSets.Score(market, member);
      var available := funds[buyer];
      if price != Some(lprice) || lprice > available {
        return Rejected;
      }
      if conflict {
        return Conflicted;
      }
      var inventory := InventoryKey(buyer);
      var sellerFunds := if seller in funds then funds[seller] else 0;
      funds := funds[seller := sellerFunds + lprice];
      funds := funds[buyer := funds[buyer] - lprice];
      inventories := inventories[inventory := (if inventory in inventories then inventories[inventory] else {}) + {item}];
      ZSets.RemSpec(market, member);
      market := ZSets.Rem(market, member);
      return Committed(());
    }

    /** purchase_item: attempts until one commits or rejects, or the 10-second window closes (False). */
    method PurchaseItem(buyer: string, item: string, seller: string, lprice: int, start: int, ticks: seq<Tick>)
      returns (o: Outcome<()>)
      requires Valid() && buyer in funds
      modifies this
      ensures Valid()
      ensures (State(), o) == Run(old(State()), PurchasePlan(old(State()), buyer, item, seller, lprice),
                                  Some(start + PURCHASE_WINDOW), ticks)
    {
      var end := start + PURCHASE_WINDOW;
      ghost var s0 := State();
      ghost var plan := PurchasePlan(s0, buyer, item, seller, lprice);
      var i := 0;
      while i < |ticks| && ticks[i].now < end
        invariant 0 <= i <= |ticks|
        invariant Valid() && State() == s0
        invariant Run(s0, plan, Some(end), ticks) == Run(s0, plan, Some(end), ticks[i..])
      {
        assert ticks[i..][0] == ticks[i];
        var a := PurchaseItemAttempt(buyer, item, seller, lprice, ticks[i].conflict);
        if a.Committed? {
          return Success(());
        }
        if a.Rejected? {
          return Rejection;
        }
        RunStep(s0, plan, Some(end), ticks, i);
        i := i + 1;
      }
      assert ticks[i..] == [] || !Open(Some(end), ticks[i..][0]);
      return Timeout;
    }
  }

  // ---------------------------------------------------------------------------------------------
  // What a committed listing and a committed purchase do

  /**
   * list_item rejects exactly when the seller does not hold the item; a committed listing removes
   * the item from the seller's inventory, lists it at `price`, and touches no other listing,
   * inventory or account.
   */
  lemma ListEffect(L: Ledger, item: string, seller: string, price: int)
    ensures ListPlan(L, item, seller, price).None? <==> item !in Inventory(L, InventoryKey(seller))
    ensures ListPlan(L, item, seller, price).Some? ==>
      var L' := ListPlan(L, item, seller, price).value.0;
      && item !in Inventory(L', InventoryKey(seller))
      && ZSets.Score(L'.market, ListingMember(item, seller)) == Some(price)
      && (forall m :: m != ListingMember(item, seller) ==> ZSets.Score(L'.market, m) == ZSets.Score(L.market, m))
      && (forall k :: k != InventoryKey(seller) ==> Inventory(L', k) == Inventory(L, k))
      && Inventory(L', InventoryKey(seller)) == Inventory(L, InventoryKey(seller)) - {item}
      && L'.funds == L.funds
  {
    ZSets.AddSpec(L.market, ListingMember(item, seller), price);
  }

  /**
   * list_item's outcome: None when the seller does not hold the item, True when it does and some
   * attempt inside the 5-second window runs unconflicted, False otherwise; only True changes the store.
   */
  lemma ListItemOutcome(L: Ledger, item: string, seller: string, price: int, start: int, ticks: seq<Tick>)
    ensures var (L', o) := Run(L, ListPlan(L, item, seller, price), Some(start + LIST_WINDOW), ticks);
      var n := Window(Some(start + LIST_WINDOW), ticks);
      && (o.Rejection? <==> n > 0 && item !in Inventory(L, InventoryKey(seller)))
      && (o.Success? <==> n > 0 && item in Inventory(L, InventoryKey(seller))
                          && exists i :: 0 <= i < n && !ticks[i].conflict)
      && (o.Timeout? <==> n == 0 || (item in Inventory(L, InventoryKey(seller))
                                    && forall i :: 0 <= i < n ==> ticks[i].conflict))
      && (!o.Success? ==> L' == L)
      && (o.Success? ==> L' == ListPlan(L, item, seller, price).value.0)
  {
    RunSpec(L, ListPlan(L, item, seller, price), Some(start + LIST_WINDOW), ticks);
  }

  /**
   * purchase_item rejects exactly when the listed price is not `lprice` (no listing counts as a
   * mismatch) or exceeds the buyer's funds. A committed purchase credits the seller and debits the
   * buyer by `lprice`, delists the item and adds it to the buyer's inventory, and nothing else.
   */
  lemma PurchaseEffect(L: Ledger, buyer: string, item: string, seller: string, lprice: int)
    requires buyer in L.funds
    ensures PurchasePlan(L, buyer, item, seller, lprice).None? <==>
      ZSets.Score(L.market, ListingMember(item, seller)) != Some(lprice) || lprice > L.funds[buyer]
    ensures PurchasePlan(L, buyer, item, seller, lprice).Some? ==>
      var L' := PurchasePlan(L, buyer, item, seller, lprice).value.0;
      && ListingMember(item, seller) !in ZSets.Members(L'.market)
      && (forall m :: m != ListingMember(item, seller) ==> ZSets.Score(L'.market, m) == ZSets.Score(L.market, m))
      && Inventory(L', InventoryKey(buyer)) == Inventory(L, InventoryKey(buyer)) + {item}
      && (forall k :: k != InventoryKey(buyer) ==> Inventory(L', k) == Inventory(L, k))
      && (buyer != seller ==> FundsOf(L', seller) == FundsOf(L, seller) + lprice
                              && FundsOf(L', buyer) == FundsOf(L, buyer) - lprice)
      && (buyer == seller ==> FundsOf(L', buyer) == FundsOf(L, buyer))
      && (forall u :: u != buyer && u != seller ==> FundsOf(L', u) == FundsOf(L, u))
  {
    var member := ListingMember(item, seller);
    ZSets.RemSpec(L.market, member);
    ZSets.ScoreIffMember(ZSets.Rem(L.market, member), member);
  }

  /** The buyer can afford what they pay: a committed purchase by another user leaves the buyer's funds non-negative. */
  lemma PurchaseKeepsBuyerSolvent(L: Ledger, buyer: string, item: string, seller: string, lprice: int)
    requires buyer in L.funds && buyer != seller
    requires PurchasePlan(L, buyer, item, seller, lprice).Some?
    ensures FundsOf(PurchasePlan(L, buyer, item, seller, lprice).value.0, buyer) >= 0
  {
    PurchaseEffect(L, buyer, item, seller, lprice);
  }

  // ---------------------------------------------------------------------------------------------
  // Conservation of funds

  ghost function Pick(m: map<string, int>): string
    requires m != map[]
  {
    var k :| k in m; k
  }

  /** The sum of every account's funds. */
  ghost function Total(m: map<string, int>): int
    decreases |m|
  {
    if m == map[] then 0 else m[Pick(m)] + Total(m - {Pick(m)})
  }

  lemma MapRemoveSize(m: map<string, int>, k: string)
    requires k in m
    ensures |m - {k}| == |m| - 1
  {
    assert (m - {k}).Keys == m.Keys - {k};
  }

  lemma {:induction false} TotalRemove(m: map<string, int>, k: string)
    requires k in m
    ensures Total(m) == m[k] + Total(m - {k})
    decreases |m|
  {
    var j := Pick(m);
    if j != k {
      MapRemoveSize(m, j);
      MapRemoveSize(m, k);
      TotalRemove(m - {j}, k);
      TotalRemove(m - {k}, j);
      assert m - {j} - {k} == m - {k} - {j};
    }
  }

  /** Setting one account changes the total by the difference. */
  lemma TotalUpdate(m: map<string, int>, k: string, v: int)
    ensures Total(m[k := v]) == Total(m) - (if k in m then m[k] else 0) + v
  {
    TotalRemove(m[k := v], k);
    if k in m {
      TotalRemove(m, k);
      assert m[k := v] - {k} == m - {k};
    } else {
      assert m[k := v] - {k} == m;
    }
  }

  /** A committed purchase moves money between two accounts without creating or destroying any. */
  lemma PurchaseConservesFunds(L: Ledger, buyer: string, item: string, seller: string, lprice: int)
    requires buyer in L.funds
    requires PurchasePlan(L, buyer, item, seller, lprice).Some?
    ensures Total(PurchasePlan(L, buyer, item, seller, lprice).value.0.funds) == Total(L.funds)
  {
    var paid := L.funds[seller := FundsOf(L, seller) + lprice];
    TotalUpdate(L.funds, seller, FundsOf(L, seller) + lprice);
    TotalUpdate(paid, buyer, paid[buyer] - lprice);
  }

  /** Whatever the outcome, purchase_item leaves the total of all funds unchanged. */
  lemma PurchaseItemConservesFunds(L: Ledger, buyer: string, item: string, seller: string, lprice: int,
                                   start: int, ticks: seq<Tick>)
    requires buyer in L.funds
    ensures Total(Run(L, PurchasePlan(L, buyer, item, seller, lprice), Some(start + PURCHASE_WINDOW), ticks).0.funds)
         == Total(L.funds)
  {
    var plan := PurchasePlan(L, buyer, item, seller, lprice);
    RunSpec(L, plan, Some(start + PURCHASE_WINDOW), ticks);
    if plan.Some? {
      PurchaseConservesFunds(L, buyer, item, seller, lprice);
    }
  }

  // ---------------------------------------------------------------------------------------------
  // Single ownership: an item is in exactly one inventory or one listing

  datatype Place = Owned(user: string) | Listed(seller: string)

  predicate At(L: Ledger, item: string, p: Place) {
    match p
    case Owned(u) => item in Inventory(L, InventoryKey(u))
    case Listed(s) => ListingMember(item, s) in ZSets.Members(L.market)
  }

  ghost predicate SingleOwner(L: Ledger, item: string) {
    exists p :: At(L, item, p) && forall q :: At(L, item, q) ==> q == p
  }

  /** Item and seller ids without '.' give distinct listing members. */
  lemma ListingMemberInjective(x: string, u: string, y: string, v: string)
    requires '.' !in x && '.' !in y
    requires ListingMember(x, u) == ListingMember(y, v)
    ensures x == y && u == v
  {
    PartitionJoin(x, '.', u);
    PartitionJoin(y, '.', v);
    assert ListingMember(x, u) == x + ['.'] + u && ListingMember(y, v) == y + ['.'] + v;
  }

  lemma InventoryKeyInjective(u: string, v: string)
    requires InventoryKey(u) == InventoryKey(v)
    ensures u == v
  {
    assert u == InventoryKey(u)[11..] && v == InventoryKey(v)[11..];
  }

  /** A committed listing keeps every dot-free item in exactly one place: the listed item moves from the seller's inventory to the market. */
  lemma ListKeepsSingleOwner(L: Ledger, item: string, seller: string, price: int, y: string)
    requires '.' !in item && '.' !in y
    requires ListPlan(L, item, seller, price).Some?
    requires SingleOwner(L, y)
    ensures SingleOwner(ListPlan(L, item, seller, price).value.0, y)
  {
    var L' := ListPlan(L, item, seller, price).value.0;
    ListEffect(L, item, seller, price);
    var member := ListingMember(item, seller);
    ZSets.AddSpec(L.market, member, price);
    var p :| At(L, y, p) && forall q :: At(L, y, q) ==> q == p;
    forall q | q != Owned(seller) && q != Listed(seller) ensures At(L', y, q) == At(L, y, q) {
      match q
      case Owned(u) => {
        if InventoryKey(u) == InventoryKey(seller) { InventoryKeyInjective(u, seller); }
      }
      case Listed(s) => {
        if ListingMember(y, s) == member { ListingMemberInjective(y, s, item, seller); }
      }
    }
    if y == item {
      assert At(L, y, Owned(seller));
      assert At(L', y, Listed(seller));
      forall q | At(L', y, q) ensures q == Listed(seller) {
        if q != Listed(seller) {
          assert false;
        }
      }
    } else {
      assert At(L', y, Owned(seller)) == At(L, y, Owned(seller));
      assert At(L', y, Listed(seller)) == At(L, y, Listed(seller)) by {
        if ListingMember(y, seller) == member { ListingMemberInjective(y, seller, item, seller); }
      }
      assert At(L', y, p);
      forall q | At(L', y, q) ensures q == p {
        assert At(L, y, q);
      }
    }
  }

  /** A committed purchase keeps every dot-free item in exactly one place: the bought item moves from the market to the buyer's inventory. */
  lemma PurchaseKeepsSingleOwner(L: Ledger, buyer: string, item: string, seller: string, lprice: int, y: string)
    requires buyer in L.funds
    requires '.' !in item && '.' !in y
    requires PurchasePlan(L, buyer, item, seller, lprice).Some?
    requires SingleOwner(L, y)
    ensures SingleOwner(PurchasePlan(L, buyer, item, seller, lprice).value.0, y)
  {
    var L' := PurchasePlan(L, buyer, item, seller, lprice).value.0;
    PurchaseEffect(L, buyer, item, seller, lprice);
    var member := ListingMember(item, seller);
    ZSets.RemSpec(L.market, member);
    ZSets.ScoreIffMember(L.market, member);
    var p :| At(L, y, p) && forall q :: At(L, y, q) ==> q == p;
    forall q | q != Owned(buyer) && q != Listed(seller) ensures At(L', y, q) == At(L, y, q) {
      match q
      case Owned(u) => {
        if InventoryKey(u) == InventoryKey(buyer) { InventoryKeyInjective(u, buyer); }
      }
      case Listed(s) => {
        if ListingMember(y, s) == member { ListingMemberInjective(y, s, item, seller); }
      }
    }
    if y == item {
      assert At(L, y, Listed(seller));
      assert p == Listed(seller);
      assert At(L', y, Owned(buyer));
      forall q | At(L', y, q) ensures q == Owned(buyer) {
        if q != Owned(buyer) {
          assert false;
        }
      }
    } else {
      assert At(L', y, Owned(buyer)) == At(L, y, Owned(buyer));
      assert At(L', y, Listed(seller)) == At(L, y, Listed(seller)) by {
        if ListingMember(y, seller) == member { ListingMemberInjective(y, seller, item, seller); }
      }
      assert At(L', y, p);
      forall q | At(L', y, q) ensures q == p {
        assert At(L, y, q);
      }
    }
  }

  /** No double sale: once a purchase of a listing commits, any purchase of that listing is rejected. */
  lemma NoDoubleSale(L: Ledger, buyer: string, buyer2: string, item: string, seller: string, lprice: int, lprice2: int)
    requires buyer in L.funds
    requires PurchasePlan(L, buyer, item, seller, lprice).Some?
    requires buyer2 in PurchasePlan(L, buyer, item, seller, lprice).value.0.funds
    ensures PurchasePlan(PurchasePlan(L, buyer, item, seller, lprice).value.0, buyer2, item, seller, lprice2).None?
  {
    var L' := PurchasePlan(L, buyer, item, seller, lprice).value.0;
    PurchaseEffect(L, buyer, item, seller, lprice);
    ZSets.ScoreIffMember(L'.market, ListingMember(item, seller));
  }

  /** A buyer can list what they bought: the purchased item is in the inventory list_item checks. */
  lemma PurchaseThenRelist(L: Ledger, buyer: string, item: string, seller: string, lprice: int, price: int)
    requires buyer in L.funds
    requires PurchasePlan(L, buyer, item, seller, lprice).Some?
    ensures ListPlan(PurchasePlan(L, buyer, item, seller, lprice).value.0, item, buyer, price).Some?
  {
    PurchaseEffect(L, buyer, item, seller, lprice);
  }

  /**
   * As written, the buyer's item goes to "invnetory:<buyer>", which list_item never reads: the
   * bought item is in no inventory list_item can see and is no longer listed, and the buyer cannot
   * list it.
   */
  lemma PurchaseAsWrittenLosesItem(L: Ledger, buyer: string, item: string, seller: string, lprice: int, price: int)
    requires buyer in L.funds
    requires PurchasePlanAsWritten(L, buyer, item, seller, lprice).Some?
    requires forall u :: item !in Inventory(L, InventoryKey(u))
    ensures var L' := PurchasePlanAsWritten(L, buyer, item, seller, lprice).value.0;
      && (forall u :: item !in Inventory(L', InventoryKey(u)))
      && ListingMember(item, seller) !in ZSets.Members(L'.market)
      && ListPlan(L', item, buyer, price).None?
  {
    var L' := PurchasePlanAsWritten(L, buyer, item, seller, lprice).value.0;
    var member := ListingMember(item, seller);
    ZSets.RemSpec(L.market, member);
    forall u ensures item !in Inventory(L', InventoryKey(u)) {
      var k := InventoryKey(u);
      assert k[..3] == "inv" && k[3] == 'e';
      assert BuyerInventoryKeyAsWritten(buyer)[3] == 'n';
      assert k != BuyerInventoryKeyAsWritten(buyer);
    }
  }

  /** The scenario of a seller S listing X at 10 and a buyer B holding 15 buying it. */
  lemma ListThenBuyScenario()
    ensures var L := Ledger([], map["inventory: S" := {"X"}], map["S" := 0, "B" := 15]);
      && ListPlan(L, "X", "S", 10).Some?
      && var L1 := ListPlan(L, "X", "S", 10).value.0;
      && "X" !in Inventory(L1, InventoryKey("S"))
      && ZSets.Score(L1.market, "X.S") == Some(10)
      && PurchasePlan(L1, "B", "X", "S", 10).Some?
      && var L2 := PurchasePlan(L1, "B", "X", "S", 10).value.0;
      && FundsOf(L2, "B") == 5 && FundsOf(L2, "S") == 10
      && "X" in Inventory(L2, InventoryKey("B"))
      && "X.S" !in ZSets.Members(L2.market)
  {
    var L := Ledger([], map["inventory: S" := {"X"}], map["S" := 0, "B" := 15]);
    assert InventoryKey("S") == "inventory: S" && InventoryKey("B") == "inventory: B";
    ListEffect(L, "X", "S", 10);
    var L1 := ListPlan(L, "X", "S", 10).value.0;
    assert ListingMember("X", "S") == "X.S";
    PurchaseEffect(L1, "B", "X", "S", 10);
  }
}

/** Worked examples: customer C1 and product P1 priced 10.00 with 5 on hand. */
module OrderExamples {
  import opened Entities
  import opened Repositories
  import opened CreateOrder
  import opened OrderProperties

  function Customers(): map<CustomerId, Customer> {
    map["C1" := Customer("C1")]
  }

  function Stock(): map<ProductId, Product> {
    map["P1" := Product("P1", "Notebook", Money(1000), 5)]
  }

  /** Under the lookup contract, asking the example table for P1 yields exactly P1's row. */
  lemma LookupOfP1(found: seq<Product>)
    requires IsLookup(found, ["P1"], Stock())
    ensures found == [Stock()["P1"]]
  {
    LookupCountMatches(found, ["P1"], Stock());
    assert found[0].id in Stock();
  }

  /** Ordering 3 of P1 succeeds: one line item (P1, 3, 10.00), and P1 drops to 2. */
  lemma ThreeOfFivePlaced(found: seq<Product>)
    requires IsLookup(found, ["P1"], Stock())
    ensures PlanOrder(Customers(), "C1", [ProductRequest("P1", 3)], found)
      == Ok(OrderPlan(Customer("C1"), [OrderProduct("P1", 3, Money(1000))], [QuantityUpdate("P1", 2)]))
    ensures ApplyUpdates(Stock(), [QuantityUpdate("P1", 2)])["P1"].quantity == 2
  {
    LookupOfP1(found);
    var request := [ProductRequest("P1", 3)];
    assert Ids(request) == ["P1"];
    assert RequestedQuantity(request, "P1") == 3;
    assert FirstShort(found, request) == None;
    var plan := PlanOrder(Customers(), "C1", request, found).value;
    assert plan.orderProducts == [OrderProduct("P1", 3, Money(1000))];
    assert plan.updates == [QuantityUpdate("P1", 2)];
    assert ApplyUpdates(Stock(), [QuantityUpdate("P1", 2)])
      == SetQuantity(ApplyUpdates(Stock(), []), QuantityUpdate("P1", 2));
  }

  /** Ordering 6 of P1 fails with insufficient inventory naming P1. */
  lemma SixOfFiveRefused(found: seq<Product>)
    requires IsLookup(found, ["P1"], Stock())
    ensures PlanOrder(Customers(), "C1", [ProductRequest("P1", 6)], found)
      == Err(InsufficientInventory("Notebook"))
  {
    LookupOfP1(found);
    var request := [ProductRequest("P1", 6)];
    assert Ids(request) == ["P1"];
    assert RequestedQuantity(request, "P1") == 6;
    assert FirstShort(found, request) == Some(0);
  }

  /** Placing the same order twice is not idempotent: two orders are stored
      under different ids and the stock is decremented twice. */
  method OrderTwice() returns (orderCount: nat, firstId: OrderId, secondId: OrderId, left: int)
    ensures orderCount == 2 && firstId != secondId && left == 1
  {
    var db := new Database(Customers(), Stock());
    var service := new CreateOrderService(db);
    var request := [ProductRequest("P1", 2)];
    assert Ids(request) == ["P1"];

    var first, found1 := service.Execute("C1", request);
    LookupOfP1(found1);
    assert RequestedQuantity(request, "P1") == 2;
    assert FirstShort(found1, request) == None;
    assert db.products == ApplyUpdates(Stock(), [QuantityUpdate("P1", 3)]);
    assert ApplyUpdates(Stock(), [QuantityUpdate("P1", 3)])
      == SetQuantity(ApplyUpdates(Stock(), []), QuantityUpdate("P1", 3));
    ghost var middle := db.products;
    assert middle == map["P1" := Product("P1", "Notebook", Money(1000), 3)];

    var second, found2 := service.Execute("C1", request);
    assert found2 == [middle["P1"]] by {
      LookupCountMatches(found2, ["P1"], middle);
      assert found2[0].id in middle;
    }
    assert FirstShort(found2, request) == None;
    assert db.products == ApplyUpdates(middle, [QuantityUpdate("P1", 1)]);
    assert ApplyUpdates(middle, [QuantityUpdate("P1", 1)])
      == SetQuantity(ApplyUpdates(middle, []), QuantityUpdate("P1", 1));

    orderCount := |db.orders|;
    firstId := first.value.id;
    secondId := second.value.id;
    left := db.products["P1"].quantity;
  }
}

/** The customer, product and order repositories the workflow is given.
    Their implementations are not part of this model; each operation here
    carries the contract the workflow relies on, over one `Database` object
    that holds the three tables and a log of the calls made to it. */
module Repositories {
  import opened Entities
  import opened Seqs

  /** Every product is stored under its own id. */
  predicate KeysMatch(products: map<ProductId, Product>) {
    forall id | id in products :: products[id].id == id
  }

  function ProductIds(found: seq<Product>): seq<ProductId> {
    seq(|found|, i requires 0 <= i < |found| => found[i].id)
  }

  function UpdateIds(updates: seq<QuantityUpdate>): seq<ProductId> {
    seq(|updates|, i requires 0 <= i < |updates| => updates[i].id)
  }

  /** The contract of the batched product lookup: `found` holds the stored
      rows whose ids occur in `ids`, each row once, in some order. */
  predicate IsLookup(found: seq<Product>, ids: seq<ProductId>, products: map<ProductId, Product>) {
    && (forall i | 0 <= i < |found| ::
          found[i].id in products && products[found[i].id] == found[i] && found[i].id in ids)
    && Distinct(ProductIds(found))
    && (forall id | id in ids && id in products :: exists i :: 0 <= i < |found| && found[i].id == id)
  }

  /** One implementation of the lookup: the rows in order of first request. */
  method FindAll(products: map<ProductId, Product>, ids: seq<ProductId>) returns (found: seq<Product>)
    requires KeysMatch(products)
    ensures IsLookup(found, ids, products)
  {
    found := [];
    var seen: set<ProductId> := {};
    var k := 0;
    while k < |ids|
      invariant 0 <= k <= |ids|
      invariant forall i | 0 <= i < |found| ::
        found[i].id in products && products[found[i].id] == found[i] && found[i].id in ids[..k]
      invariant Distinct(ProductIds(found))
      invariant seen == Elems(ProductIds(found))
      invariant forall id | id in ids[..k] && id in products :: id in seen
    {
      var id := ids[k];
      if id in products && id !in seen {
        assert forall i | 0 <= i < |found| :: found[i].id != id by {
          forall i | 0 <= i < |found| ensures found[i].id != id {
            assert ProductIds(found)[i] == found[i].id;
          }
        }
        assert ProductIds(found + [products[id]]) == ProductIds(found) + [id];
        found := found + [products[id]];
        seen := seen + {id};
      }
      assert ids[..k + 1] == ids[..k] + [id];
      k := k + 1;
    }
    assert ids[..k] == ids;
    forall id | id in ids && id in products
      ensures exists i :: 0 <= i < |found| && found[i].id == id
    {
      assert id in Elems(ProductIds(found));
      var i :| 0 <= i < |found| && ProductIds(found)[i] == id;
    }
  }

  /** The effect of one stock update: an id the table does not hold is ignored. */
  function SetQuantity(products: map<ProductId, Product>, u: QuantityUpdate): map<ProductId, Product> {
    if u.id in products then products[u.id := products[u.id].(quantity := u.quantity)] else products
  }

  /** The table after a batch of stock updates applied in order. */
  function ApplyUpdates(products: map<ProductId, Product>, updates: seq<QuantityUpdate>): map<ProductId, Product> {
    if updates == [] then products
    else SetQuantity(ApplyUpdates(products, updates[..|updates| - 1]), updates[|updates| - 1])
  }

  /** A batch with distinct ids sets exactly the listed quantities and leaves
      every other row, and every other field, as it was. */
  lemma {:induction false} ApplyUpdatesEffect(products: map<ProductId, Product>, updates: seq<QuantityUpdate>)
    requires Distinct(UpdateIds(updates))
    ensures ApplyUpdates(products, updates).Keys == products.Keys
    ensures forall i | 0 <= i < |updates| && updates[i].id in products ::
      ApplyUpdates(products, updates)[updates[i].id] == products[updates[i].id].(quantity := updates[i].quantity)
    ensures forall id | id in products && id !in UpdateIds(updates) ::
      ApplyUpdates(products, updates)[id] == products[id]
  {
    if updates != [] {
      var n := |updates| - 1;
      var init := updates[..n];
      var last := updates[n];
      assert Distinct(UpdateIds(init)) by {
        forall i, j | 0 <= i < j < |init| ensures UpdateIds(init)[i] != UpdateIds(init)[j] {
          assert UpdateIds(updates)[i] != UpdateIds(updates)[j];
        }
      }
      ApplyUpdatesEffect(products, init);
      forall i | 0 <= i < n ensures init[i].id != last.id {
        assert UpdateIds(updates)[i] != UpdateIds(updates)[n];
      }
      assert UpdateIds(init) == UpdateIds(updates)[..n];
      assert UpdateIds(updates)[n] == last.id;
    }
  }

  /** A call made to one of the repositories, as recorded by `Database.log`. */
  datatype Call =
    | FindCustomer(customerId: CustomerId)
    | FindProducts(ids: seq<ProductId>)
    | CreateOrder(orderId: OrderId)
    | UpdateQuantities(updates: seq<QuantityUpdate>)

  class Database {
    var customers: map<CustomerId, Customer>
    var products: map<ProductId, Product>
    var orders: seq<Order>
    /** Every repository call, oldest first. */
    var log: seq<Call>

    ghost predicate Valid()
      reads this
    {
      && (forall id | id in customers :: customers[id].id == id)
      && KeysMatch(products)
      && (forall i | 0 <= i < |orders| :: orders[i].id == i)
    }

    constructor (customers: map<CustomerId, Customer>, products: map<ProductId, Product>)
      requires forall id | id in customers :: customers[id].id == id
      requires KeysMatch(products)
      ensures Valid()
      ensures this.customers == customers && this.products == products
      ensures orders == [] && log == []
    {
      this.customers := customers;
      this.products := products;
      orders := [];
      log := [];
    }

    /** The customer lookup: the stored customer, or nothing. */
    method FindCustomerById(id: CustomerId) returns (customer: Option<Customer>)
      requires Valid()
      modifies this`log
      ensures customer.Some? <==> id in customers
      ensures customer.Some? ==> customer.value == customers[id] && customer.value.id == id
      ensures Valid()
      ensures log == old(log) + [FindCustomer(id)]
    {
      customer := if id in customers then Some(customers[id]) else None;
      log := log + [FindCustomer(id)];
    }

    /** The batched product lookup. */
    method FindAllById(ids: seq<ProductId>) returns (found: seq<Product>)
      requires Valid()
      modifies this`log
      ensures IsLookup(found, ids, products)
      ensures Valid()
      ensures log == old(log) + [FindProducts(ids)]
    {
      found := FindAll(products, ids);
      log := log + [FindProducts(ids)];
    }

    /** The order write: stores the order with its line items under a fresh id. */
    method Create(customer: Customer, orderProducts: seq<OrderProduct>) returns (order: Order)
      requires Valid()
      modifies this`orders, this`log
      ensures Valid()
      ensures order == Order(|old(orders)|, Some(customer.id), customer, orderProducts)
      ensures forall i | 0 <= i < |old(orders)| :: old(orders)[i].id != order.id
      ensures orders == old(orders) + [order]
      ensures log == old(log) + [CreateOrder(order.id)]
    {
      order := Order(|orders|, Some(customer.id), customer, orderProducts);
      orders := orders + [order];
      log := log + [CreateOrder(order.id)];
    }

    /** The stock write: applies the updates one after the other. */
    method UpdateQuantity(updates: seq<QuantityUpdate>)
      requires Valid()
      modifies this`products, this`log
      ensures Valid()
      ensures products == ApplyUpdates(old(products), updates)
      ensures log == old(log) + [UpdateQuantities(updates)]
    {
      var k := 0;
      while k < |updates|
        invariant 0 <= k <= |updates|
        invariant KeysMatch(products)
        invariant log == old(log)
        invariant products == ApplyUpdates(old(products), updates[..k])
      {
        assert updates[..k + 1][..k] == updates[..k];
        products := SetQuantity(products, updates[k]);
        k := k + 1;
      }
      assert updates[..k] == updates;
      log := log + [UpdateQuantities(updates)];
    }
  }
}

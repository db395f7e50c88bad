/**
 * `MemStorage`, the in-memory store behind the management dashboard: four
 * keyed tables (customers, products, orders, order items) and, for each, the
 * counter that hands out the next id. The constructor seeds three customers,
 * four products and two orders. Every operation the store offers reads or
 * changes these fields in place.
 */
module Storage {
  import opened Schema
  import opened OrderedMaps
  import opened StockStatus
  import opened Reports

  function CustomerKey(c: Customer): int { c.id }
  function ProductKey(p: Product): int { p.id }
  function OrderKey(o: Order): int { o.id }
  function OrderItemKey(it: OrderItem): int { it.id }

  /**
   * What each table keeps: its key order is consistent, its counter is
   * positive, every key lies below the counter (so the counter is fresh), and
   * every row is stored under its own id.
   */
  ghost predicate TableInv<V(!new)>(t: OrderedMap<int, V>, next: int, key: V -> int) {
    && OrderedMaps.Valid(t)
    && next >= 1
    && forall k :: k in t.vals ==> 1 <= k < next && key(t.vals[k]) == k
  }

  /**
   * Setting a row under the counter's value: the id was free, the invariant
   * holds with the counter moved on, and the row is listed last.
   */
  lemma TableInsert<V(!new)>(t: OrderedMap<int, V>, next: int, key: V -> int, row: V)
    requires TableInv(t, next, key) && key(row) == next
    ensures next !in t.vals
    ensures TableInv(Set(t, next, row), next + 1, key)
    ensures Values(Set(t, next, row)) == Values(t) + [row]
  {
    SetNewKey(t, next, row);
  }

  /** Setting a row under its own, present id keeps the invariant and the key order. */
  lemma TableReplace<V(!new)>(t: OrderedMap<int, V>, next: int, key: V -> int, row: V)
    requires TableInv(t, next, key) && key(row) in t.vals
    ensures TableInv(Set(t, key(row), row), next, key)
    ensures Set(t, key(row), row).keys == t.keys
  {
  }

  /** Deleting any id keeps the invariant, and the listing loses exactly that row. */
  lemma TableDelete<V(!new)>(t: OrderedMap<int, V>, next: int, key: V -> int, id: int)
    requires TableInv(t, next, key)
    ensures TableInv(Delete(t, id), next, key)
    ensures forall p :: 0 <= p < |t.keys| && t.keys[p] == id ==> Values(Delete(t, id)) == Values(t)[..p] + Values(t)[p + 1..]
  {
    forall p | 0 <= p < |t.keys| && t.keys[p] == id
      ensures Values(Delete(t, id)) == Values(t)[..p] + Values(t)[p + 1..]
    {
      DeleteValues(t, id, p);
    }
  }

  /** `order.status === "pending"`: an order stored without a status is not pending. */
  function IsPending(o: Order): bool {
    o.status == Some(PENDING)
  }

  /** `item => item.orderId === orderId` */
  function BelongsTo(orderId: int): OrderItem -> bool {
    (it: OrderItem) => it.orderId == orderId
  }

  /** The product a create stores: the status follows `CreateStatus`. */
  function CreatedProduct(id: int, ins: InsertProduct): (p: Product)
    ensures p.id == id && p.stock == ins.stock
    ensures p.Fields() == ins.(status := Some(p.status))
    ensures StatusAgreesAtOrBelowThreshold(p)
    ensures ins.stock.Some? && ins.stock.value > LOW_STOCK_THRESHOLD && ins.status.Some? && ins.status.value != "" ==>
      p.status == ins.status.value
  {
    NewProduct(id, ins, CreateStatus(ins.stock, ins.status))
  }

  /**
   * The product an update stores: the partial row is spread over the stored
   * one, then the status is recomputed from the resulting stock, whatever
   * status the caller sent.
   */
  function UpdatedProduct(p: Product, patch: ProductPatch): (r: Product)
    ensures r.id == p.id
    ensures r.stock == OverrideOptional(patch.stock, p.stock)
    ensures r.(status := p.status) == MergeProduct(p, patch).(status := p.status)
    ensures StatusMatchesStock(r) && StatusAgreesAtOrBelowThreshold(r)
    ensures r.stock.None? || r.stock.value > LOW_STOCK_THRESHOLD ==> r.status == ACTIVE
  {
    var merged := MergeProduct(p, patch);
    UpdatedStatusKeepsInvariants(merged);
    merged.(status := UpdateStatus(merged.stock))
  }

  /** The status an update stores does not depend on the status in the partial row. */
  lemma UpdateProductIgnoresPatchStatus(p: Product, patch: ProductPatch, status: Option<string>)
    ensures UpdatedProduct(p, patch.(status := status)) == UpdatedProduct(p, patch)
  {
  }

  /** The categories of a product listing, in the listing's order. */
  function Categories(ps: seq<Product>): (cs: seq<string>)
    ensures |cs| == |ps|
    ensures forall i :: 0 <= i < |ps| ==> cs[i] == ps[i].category
  {
    seq(|ps|, i requires 0 <= i < |ps| => ps[i].category)
  }

  /** The three counters of the dashboard that the store computes. */
  datatype DashboardCounts = DashboardCounts(totalCustomers: nat, totalProducts: nat, pendingOrders: nat)

  // ------------------------------------------------------------- seed data

  const SAMPLE_CUSTOMERS: seq<Customer> := [
    Customer(1, "João Silva", "joao@email.com", "(11) 99999-9999", "São Paulo", Some("active")),
    Customer(2, "Maria Santos", "maria@email.com", "(11) 88888-8888", "Rio de Janeiro", Some("active")),
    Customer(3, "Pedro Costa", "pedro@email.com", "(11) 77777-7777", "Belo Horizonte", Some("active"))
  ]

  const SAMPLE_PRODUCTS: seq<Product> := [
    Product(1, "Notebook Dell Inspiron", "NB-DELL-001", "Eletrônicos", "2499.90", Some(45), "active"),
    Product(2, "Mouse Wireless", "MS-WLS-002", "Acessórios", "89.90", Some(5), "low_stock"),
    Product(3, "Teclado Mecânico", "KB-MEC-003", "Acessórios", "299.90", Some(20), "active"),
    Product(4, "Monitor 24 polegadas", "MN-24-004", "Eletrônicos", "899.90", Some(0), "out_of_stock")
  ]

  const SAMPLE_ORDERS: seq<Order> := [
    Order(1, 1, "João Silva", "567.89", Some("completed"), "2023-12-15"),
    Order(2, 2, "Maria Santos", "1234.50", Some("pending"), "2023-12-15")
  ]

  /** The ids 1, 2, ..., n in this order. */
  function Numbered(n: nat): (ids: seq<int>)
    ensures |ids| == n
    ensures forall i :: 0 <= i < n ==> ids[i] == i + 1
  {
    seq(n, i requires 0 <= i < n => i + 1)
  }

  /** The rows carry the ids 1, 2, ... in the order they are listed. */
  ghost predicate NumberedRows<V>(rows: seq<V>, key: V -> int) {
    forall i :: 0 <= i < |rows| ==> key(rows[i]) == i + 1
  }

  /** A table holding exactly `rows`, in order, under their ids 1, 2, ..., with the counter past the last. */
  ghost predicate Seeded<V(!new)>(t: OrderedMap<int, V>, rows: seq<V>, key: V -> int) {
    && TableInv(t, |rows| + 1, key)
    && t.keys == Numbered(|rows|)
    && Values(t) == rows
  }

  /**
   * Setting rows numbered 1, 2, ... into an empty table lists them in order
   * under their ids, with the counter one past the last.
   */
  lemma SeedTable<V(!new)>(rows: seq<V>, key: V -> int)
    requires NumberedRows(rows, key)
    ensures Seeded(SetAll(Empty(), rows, key), rows, key)
  {
    var ks := KeysOf(rows, key);
    assert ks == Numbered(|rows|);
    assert NoDuplicates(ks) by {
      forall i, j | 0 <= i < j < |ks| ensures ks[i] != ks[j] {
        assert ks[i] == i + 1 && ks[j] == j + 1;
      }
    }
    SetAllIntoEmpty(rows, key);
    var t := SetAll(Empty(), rows, key);
    forall k | k in t.vals ensures 1 <= k < |rows| + 1 && key(t.vals[k]) == k {
      var i :| 0 <= i < |ks| && ks[i] == k;
      assert Values(t)[i] == t.vals[k] == rows[i];
    }
  }

  /** `rows.forEach(row => table.set(row.id, row))` on a freshly created, empty table. */
  method SeedEach<V(!new)>(t: OrderedMap<int, V>, rows: seq<V>, key: V -> int) returns (r: OrderedMap<int, V>)
    requires t == Empty()
    requires NumberedRows(rows, key)
    ensures Seeded(r, rows, key)
  {
    r := SetEach(t, rows, key);
    SeedTable(rows, key);
  }

  /** The seeded product table carries, for every stock, the status the threshold rule gives. */
  lemma SeededProductsMatchStock(t: OrderedMap<int, Product>)
    requires Seeded(t, SAMPLE_PRODUCTS, ProductKey)
    ensures forall k :: k in t.vals ==> StatusMatchesStock(t.vals[k]) && StatusAgreesAtOrBelowThreshold(t.vals[k])
  {
    forall k | k in t.vals
      ensures StatusMatchesStock(t.vals[k]) && StatusAgreesAtOrBelowThreshold(t.vals[k])
    {
      var i :| 0 <= i < |t.keys| && t.keys[i] == k;
      assert t.vals[k] == SAMPLE_PRODUCTS[i];
      assert i == 0 || i == 1 || i == 2 || i == 3;
    }
  }

  /**
   * A seeded table lists its rows under the ids 1 .. |rows| in this order:
   * customers 1, 2, 3, products 1 to 4, orders 1 and 2.
   */
  lemma SeededIds<V(!new)>(t: OrderedMap<int, V>, rows: seq<V>, key: V -> int)
    requires Seeded(t, rows, key)
    ensures forall k :: k in t.vals <==> 1 <= k <= |rows|
  {
    forall k | 1 <= k <= |rows| ensures k in t.vals {
      assert t.keys[k - 1] == k;
    }
  }

  /** The sample rows are numbered 1, 2, ... in the order they are listed. */
  lemma SampleRowsNumbered()
    ensures NumberedRows(SAMPLE_CUSTOMERS, CustomerKey)
    ensures NumberedRows(SAMPLE_PRODUCTS, ProductKey)
    ensures NumberedRows(SAMPLE_ORDERS, OrderKey)
  {
  }

  // ----------------------------------------------------------------- the store

  class MemStorage {
    var customers: OrderedMap<int, Customer>
    var products: OrderedMap<int, Product>
    var orders: OrderedMap<int, Order>
    var orderItems: OrderedMap<int, OrderItem>
    var currentCustomerId: int
    var currentProductId: int
    var currentOrderId: int
    var currentOrderItemId: int

    /** Every table keeps `TableInv` with its counter; every product's status agrees with its stock. */
    ghost predicate Valid()
      reads this
    {
      CustomersValid() && ProductsValid() && OrdersValid() && OrderItemsValid()
    }

    ghost predicate CustomersValid()
      reads this`customers, this`currentCustomerId
    {
      TableInv(customers, currentCustomerId, CustomerKey)
    }

    ghost predicate ProductsValid()
      reads this`products, this`currentProductId
    {
      && TableInv(products, currentProductId, ProductKey)
      && forall k :: k in products.vals ==> StatusAgreesAtOrBelowThreshold(products.vals[k])
    }

    ghost predicate OrdersValid()
      reads this`orders, this`currentOrderId
    {
      TableInv(orders, currentOrderId, OrderKey)
    }

    ghost predicate OrderItemsValid()
      reads this`orderItems, this`currentOrderItemId
    {
      TableInv(orderItems, currentOrderItemId, OrderItemKey)
    }

    /** `new MemStorage()`: empty tables, every counter at 1, then the sample data. */
    constructor()
      ensures Valid()
      ensures Seeded(customers, SAMPLE_CUSTOMERS, CustomerKey)
      ensures Seeded(products, SAMPLE_PRODUCTS, ProductKey)
      ensures Seeded(orders, SAMPLE_ORDERS, OrderKey)
      ensures orderItems == Empty()
      ensures currentCustomerId == 4 && currentProductId == 5
      ensures currentOrderId == 3 && currentOrderItemId == 1
      ensures forall k :: k in products.vals ==> StatusMatchesStock(products.vals[k])
      ensures forall k :: k in customers.vals <==> 1 <= k <= 3
      ensures forall k :: k in products.vals <==> 1 <= k <= 4
      ensures forall k :: k in orders.vals <==> 1 <= k <= 2
    {
      customers := Empty();
      products := Empty();
      orders := Empty();
      orderItems := Empty();
      currentCustomerId := 1;
      currentProductId := 1;
      currentOrderId := 1;
      currentOrderItemId := 1;
      new;
      InitializeData();
      SeededProductsMatchStock(products);
      SeededIds(customers, SAMPLE_CUSTOMERS, CustomerKey);
      SeededIds(products, SAMPLE_PRODUCTS, ProductKey);
      SeededIds(orders, SAMPLE_ORDERS, OrderKey);
    }

    /**
     * `initializeData()`: sets the sample rows, in order, into the tables the
     * constructor has just created empty, and moves the counters past them.
     */
    method InitializeData()
      requires customers == Empty() && products == Empty() && orders == Empty()
      modifies this`customers, this`products, this`orders
      modifies this`currentCustomerId, this`currentProductId, this`currentOrderId
      ensures Seeded(customers, SAMPLE_CUSTOMERS, CustomerKey)
      ensures Seeded(products, SAMPLE_PRODUCTS, ProductKey)
      ensures Seeded(orders, SAMPLE_ORDERS, OrderKey)
      ensures currentCustomerId == 4 && currentProductId == 5 && currentOrderId == 3
    {
      SeedCustomers();
      SeedProducts();
      SeedOrders();
      currentCustomerId := 4;
      currentProductId := 5;
      currentOrderId := 3;
    }

    /** `sampleCustomers.forEach(row => this.customers.set(row.id, row))` */
    method SeedCustomers()
      requires customers == Empty()
      modifies this`customers
      ensures Seeded(customers, SAMPLE_CUSTOMERS, CustomerKey)
    {
      SampleRowsNumbered();
      customers := SeedEach(customers, SAMPLE_CUSTOMERS, CustomerKey);
    }

    /** `sampleProducts.forEach(row => this.products.set(row.id, row))` */
    method SeedProducts()
      requires products == Empty()
      modifies this`products
      ensures Seeded(products, SAMPLE_PRODUCTS, ProductKey)
    {
      SampleRowsNumbered();
      products := SeedEach(products, SAMPLE_PRODUCTS, ProductKey);
    }

    /** `sampleOrders.forEach(row => this.orders.set(row.id, row))` */
    method SeedOrders()
      requires orders == Empty()
      modifies this`orders
      ensures Seeded(orders, SAMPLE_ORDERS, OrderKey)
    {
      SampleRowsNumbered();
      orders := SeedEach(orders, SAMPLE_ORDERS, OrderKey);
    }

    // ------------------------------------------------------------- customers

    /** `getCustomers()`: every stored customer, in insertion order. */
    function Customers(): (r: seq<Customer>)
      reads this
      requires Valid()
      ensures |r| == |customers.keys| == |customers.vals|
      ensures forall i :: 0 <= i < |r| ==> r[i] == customers.vals[customers.keys[i]] && r[i].id == customers.keys[i]
    {
      Values(customers)
    }

    /** `getCustomer(id)`: `None` for an unknown id. */
    function GetCustomer(id: int): (r: Option<Customer>)
      reads this
      requires Valid()
      ensures r.Some? <==> id in customers.vals
      ensures r.Some? ==> r.value == customers.vals[id] && r.value.id == id
      ensures 1 <= id < currentCustomerId || r.None?
    {
      Get(customers, id)
    }

    /** `createCustomer(ins)`: the row gets the counter's value as id, the counter moves on. */
    method CreateCustomer(ins: InsertCustomer) returns (c: Customer)
      requires Valid()
      modifies this`customers, this`currentCustomerId
      ensures Valid()
      ensures c == NewCustomer(old(currentCustomerId), ins)
      ensures forall k :: k in old(customers.vals) ==> k < c.id
      ensures currentCustomerId == old(currentCustomerId) + 1
      ensures customers.vals == old(customers.vals)[c.id := c]
      ensures Customers() == old(Customers()) + [c]
    {
      var id := currentCustomerId;
      c := NewCustomer(id, ins);
      TableInsert(customers, id, CustomerKey, c);
      customers := Set(customers, id, c);
      currentCustomerId := currentCustomerId + 1;
      assert CustomersValid() && ProductsValid() && OrdersValid() && OrderItemsValid();
    }

    /** `updateCustomer(id, patch)`: the partial row replaces the stored one in place. */
    method UpdateCustomer(id: int, patch: CustomerPatch) returns (r: Option<Customer>)
      requires Valid()
      modifies this`customers
      ensures Valid()
      ensures r.Some? <==> id in old(customers.vals)
      ensures r.None? ==> customers == old(customers)
      ensures r.Some? ==> r.value == MergeCustomer(old(customers.vals[id]), patch)
      ensures r.Some? ==> customers.keys == old(customers.keys) && customers.vals == old(customers.vals)[id := r.value]
      ensures r.Some? ==> forall i :: 0 <= i < |Customers()| ==>
        Customers()[i] == if customers.keys[i] == id then r.value else old(Customers())[i]
    {
      var cur := Get(customers, id);
      if cur.None? {
        return None;
      }
      var updated := MergeCustomer(cur.value, patch);
      TableReplace(customers, currentCustomerId, CustomerKey, updated);
      customers := Set(customers, id, updated);
      r := Some(updated);
      assert CustomersValid() && ProductsValid() && OrdersValid() && OrderItemsValid();
    }

    /** `deleteCustomer(id)`: whether the id was there; the other rows stay. */
    method DeleteCustomer(id: int) returns (existed: bool)
      requires Valid()
      modifies this`customers
      ensures Valid()
      ensures existed <==> id in old(customers.vals)
      ensures customers == Delete(old(customers), id)
      ensures GetCustomer(id).None?
      ensures forall p :: 0 <= p < |old(customers.keys)| && old(customers.keys)[p] == id ==>
        Customers() == old(Customers())[..p] + old(Customers())[p + 1..]
    {
      existed := id in customers.vals;
      TableDelete(customers, currentCustomerId, CustomerKey, id);
      customers := Delete(customers, id);
      assert CustomersValid() && ProductsValid() && OrdersValid() && OrderItemsValid();
    }

    // -------------------------------------------------------------- products

    /** `getProducts()` */
    function Products(): (r: seq<Product>)
      reads this
      requires Valid()
      ensures |r| == |products.keys| == |products.vals|
      ensures forall i :: 0 <= i < |r| ==>
        r[i] == products.vals[products.keys[i]] && r[i].id == products.keys[i] && StatusAgreesAtOrBelowThreshold(r[i])
    {
      Values(products)
    }

    /** `getProduct(id)` */
    function GetProduct(id: int): (r: Option<Product>)
      reads this
      requires Valid()
      ensures r.Some? <==> id in products.vals
      ensures r.Some? ==> r.value == products.vals[id] && r.value.id == id
      ensures r.Some? ==> StatusAgreesAtOrBelowThreshold(r.value)
      ensures 1 <= id < currentProductId || r.None?
    {
      Get(products, id)
    }

    /** `createProduct(ins)`: a fresh id, and the status `CreateStatus` gives. */
    method CreateProduct(ins: InsertProduct) returns (p: Product)
      requires Valid()
      modifies this`products, this`currentProductId
      ensures Valid()
      ensures p == CreatedProduct(old(currentProductId), ins)
      ensures p.status == CreateStatus(ins.stock, ins.status)
      ensures forall k :: k in old(products.vals) ==> k < p.id
      ensures currentProductId == old(currentProductId) + 1
      ensures products.vals == old(products.vals)[p.id := p]
      ensures Products() == old(Products()) + [p]
    {
      var id := currentProductId;
      p := CreatedProduct(id, ins);
      TableInsert(products, id, ProductKey, p);
      products := Set(products, id, p);
      currentProductId := currentProductId + 1;
      assert CustomersValid() && ProductsValid() && OrdersValid() && OrderItemsValid();
    }

    /** `updateProduct(id, patch)`: merge in place, then recompute the status from the stock. */
    method UpdateProduct(id: int, patch: ProductPatch) returns (r: Option<Product>)
      requires Valid()
      modifies this`products
      ensures Valid()
      ensures r.Some? <==> id in old(products.vals)
      ensures r.None? ==> products == old(products)
      ensures r.Some? ==> r.value == UpdatedProduct(old(products.vals[id]), patch)
      ensures r.Some? ==> products.keys == old(products.keys) && products.vals == old(products.vals)[id := r.value]
      ensures r.Some? ==> StatusMatchesStock(r.value)
    {
      var cur := Get(products, id);
      if cur.None? {
        return None;
      }
      var updated := UpdatedProduct(cur.value, patch);
      TableReplace(products, currentProductId, ProductKey, updated);
      products := Set(products, id, updated);
      r := Some(updated);
      assert CustomersValid() && ProductsValid() && OrdersValid() && OrderItemsValid();
    }

    /** `deleteProduct(id)` */
    method DeleteProduct(id: int) returns (existed: bool)
      requires Valid()
      modifies this`products
      ensures Valid()
      ensures existed <==> id in old(products.vals)
      ensures products == Delete(old(products), id)
      ensures GetProduct(id).None?
      ensures forall p :: 0 <= p < |old(products.keys)| && old(products.keys)[p] == id ==>
        Products() == old(Products())[..p] + old(Products())[p + 1..]
    {
      existed := id in products.vals;
      TableDelete(products, currentProductId, ProductKey, id);
      products := Delete(products, id);
      assert CustomersValid() && ProductsValid() && OrdersValid() && OrderItemsValid();
    }

    // ---------------------------------------------------------------- orders

    /** `getOrders()` */
    function Orders(): (r: seq<Order>)
      reads this
      requires Valid()
      ensures |r| == |orders.keys| == |orders.vals|
      ensures forall i :: 0 <= i < |r| ==> r[i] == orders.vals[orders.keys[i]] && r[i].id == orders.keys[i]
    {
      Values(orders)
    }

    /** `getOrder(id)` */
    function GetOrder(id: int): (r: Option<Order>)
      reads this
      requires Valid()
      ensures r.Some? <==> id in orders.vals
      ensures r.Some? ==> r.value == orders.vals[id] && r.value.id == id
      ensures 1 <= id < currentOrderId || r.None?
    {
      Get(orders, id)
    }

    /** `createOrder(ins)` */
    method CreateOrder(ins: InsertOrder) returns (o: Order)
      requires Valid()
      modifies this`orders, this`currentOrderId
      ensures Valid()
      ensures o == NewOrder(old(currentOrderId), ins)
      ensures forall k :: k in old(orders.vals) ==> k < o.id
      ensures currentOrderId == old(currentOrderId) + 1
      ensures orders.vals == old(orders.vals)[o.id := o]
      ensures Orders() == old(Orders()) + [o]
    {
      var id := currentOrderId;
      o := NewOrder(id, ins);
      TableInsert(orders, id, OrderKey, o);
      orders := Set(orders, id, o);
      currentOrderId := currentOrderId + 1;
      assert CustomersValid() && ProductsValid() && OrdersValid() && OrderItemsValid();
    }

    /** `updateOrderStatus(id, status)`: only the status of the order changes. */
    method UpdateOrderStatus(id: int, status: string) returns (r: Option<Order>)
      requires Valid()
      modifies this`orders
      ensures Valid()
      ensures r.Some? <==> id in old(orders.vals)
      ensures r.None? ==> orders == old(orders)
      ensures r.Some? ==> r.value.status == Some(status)
      ensures r.Some? ==> r.value.(status := old(orders.vals[id]).status) == old(orders.vals[id])
      ensures r.Some? ==> orders.keys == old(orders.keys) && orders.vals == old(orders.vals)[id := r.value]
    {
      var cur := Get(orders, id);
      if cur.None? {
        return None;
      }
      var updated := cur.value.(status := Some(status));
      TableReplace(orders, currentOrderId, OrderKey, updated);
      orders := Set(orders, id, updated);
      r := Some(updated);
      assert CustomersValid() && ProductsValid() && OrdersValid() && OrderItemsValid();
    }

    /** `deleteOrder(id)` */
    method DeleteOrder(id: int) returns (existed: bool)
      requires Valid()
      modifies this`orders
      ensures Valid()
      ensures existed <==> id in old(orders.vals)
      ensures orders == Delete(old(orders), id)
      ensures GetOrder(id).None?
      ensures forall p :: 0 <= p < |old(orders.keys)| && old(orders.keys)[p] == id ==>
        Orders() == old(Orders())[..p] + old(Orders())[p + 1..]
    {
      existed := id in orders.vals;
      TableDelete(orders, currentOrderId, OrderKey, id);
      orders := Delete(orders, id);
      assert CustomersValid() && ProductsValid() && OrdersValid() && OrderItemsValid();
    }

    // ----------------------------------------------------------- order items

    /** `getOrderItems(orderId)`: the items of one order, in insertion order. */
    function GetOrderItems(orderId: int): (r: seq<OrderItem>)
      reads this
      requires Valid()
      ensures forall it :: it in r <==> it in Values(orderItems) && it.orderId == orderId
      ensures |r| == |KeysWhere(orderItems, BelongsTo(orderId))|
    {
      CountMatching(orderItems, BelongsTo(orderId));
      Filter(Values(orderItems), BelongsTo(orderId))
    }

    /** `createOrderItem(ins)` */
    method CreateOrderItem(ins: InsertOrderItem) returns (it: OrderItem)
      requires Valid()
      modifies this`orderItems, this`currentOrderItemId
      ensures Valid()
      ensures it == NewOrderItem(old(currentOrderItemId), ins)
      ensures forall k :: k in old(orderItems.vals) ==> k < it.id
      ensures currentOrderItemId == old(currentOrderItemId) + 1
      ensures orderItems.vals == old(orderItems.vals)[it.id := it]
      ensures Values(orderItems) == old(Values(orderItems)) + [it]
      ensures GetOrderItems(ins.orderId) == old(GetOrderItems(ins.orderId)) + [it]
    {
      var id := currentOrderItemId;
      currentOrderItemId := currentOrderItemId + 1;
      it := NewOrderItem(id, ins);
      TableInsert(orderItems, id, OrderItemKey, it);
      orderItems := Set(orderItems, id, it);
      assert Values(orderItems)[..|Values(orderItems)| - 1] == old(Values(orderItems));
      assert CustomersValid() && ProductsValid() && OrdersValid() && OrderItemsValid();
    }

    // -------------------------------------------------------------- dashboard

    /** The counts of `getDashboardStats()`. */
    function DashboardStats(): (r: DashboardCounts)
      reads this
      requires Valid()
      ensures r.totalCustomers == |customers.vals|
      ensures r.totalProducts == |products.vals|
      ensures r.pendingOrders == |KeysWhere(orders, IsPending)|
      ensures r.pendingOrders <= |orders.vals|
    {
      CountMatching(orders, IsPending);
      DashboardCounts(|Values(customers)|, |Values(products)|, |Filter(Values(orders), IsPending)|)
    }

    /**
     * `getCategoryData()`: counts the products of each category in a
     * dictionary, then lists its entries.
     */
    method GetCategoryData() returns (r: seq<CategoryCount>)
      requires Valid()
      ensures r == CategoryBreakdown(Categories(Products()))
      ensures TotalCount(r) == |products.vals|
    {
      var ps := Products();
      ghost var cats := Categories(ps);
      var counts: OrderedMap<string, nat> := Empty();
      for i := 0 to |ps|
        invariant IsTallyOf(counts, cats[..i])
      {
        var category := ps[i].category;
        var prev := Get(counts, category);
        var n := if prev.Some? then prev.value else 0;
        TallyStep(counts, cats, i);
        counts := Set(counts, category, n + 1);
      }
      assert cats[..|ps|] == cats;
      TallyEntries(counts, cats);
      r := Entries(counts);
      CategoryBreakdownCorrect(cats);
    }
  }

  // -------------------------------------------------------------- scenarios

  /**
   * A fresh store hands out customer id 4; deleting that customer and
   * creating another hands out 5, not 4 again, and a second delete of 4
   * reports that nothing was there.
   */
  method DeletedIdIsNotReused(ins: InsertCustomer) returns (first: Customer, deletedAgain: bool, second: Customer)
    ensures first.id == 4 && second.id == 5
    ensures !deletedAgain
  {
    var store := new MemStorage();
    first := store.CreateCustomer(ins);
    var deleted := store.DeleteCustomer(first.id);
    assert deleted;
    deletedAgain := store.DeleteCustomer(first.id);
    second := store.CreateCustomer(ins);
  }

  /**
   * A product created with stock 0 is out of stock; restocking it to 50
   * makes it active. A product created with stock 50 and an explicit
   * "out_of_stock" keeps that status, since a create above the threshold
   * trusts the caller.
   */
  method RestockScenario() returns (created: Product, restocked: Option<Product>, trusted: Product)
    ensures created.status == OUT_OF_STOCK && created.id == 5
    ensures restocked == Some(created.(stock := Some(50), status := ACTIVE))
    ensures trusted.status == OUT_OF_STOCK && trusted.stock == Some(50)
  {
    var store := new MemStorage();
    created := store.CreateProduct(InsertProduct("Cabo HDMI", "CB-HDMI-005", "Acessórios", "39.90", Some(0), None));
    restocked := store.UpdateProduct(created.id, EMPTY_PRODUCT_PATCH.(stock := Some(50)));
    trusted := store.CreateProduct(InsertProduct("Webcam HD", "WC-HD-006", "Acessórios", "199.90", Some(50), Some(OUT_OF_STOCK)));
  }
}

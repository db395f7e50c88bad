/**
 * The row types of the four tables kept by the in-memory store, the insert
 * shapes callers pass to the create operations, and the partial shapes the
 * update operations merge over a stored row.
 *
 * A column with a default (customer and order status, product stock and
 * status) is optional in the insert shape. The store never fills in the
 * default, so a row created without such a field simply lacks it: those
 * fields are `Option`s in the stored rows too (except the product status,
 * which the store always sets).
 */
module Schema {

  datatype Option<T> = None | Some(value: T)

  /** Spread of one optional field of a partial update: present wins. */
  function Override<T>(patch: Option<T>, current: T): T {
    if patch.Some? then patch.value else current
  }

  /** Spread of a partial field over a row field that may itself be absent. */
  function OverrideOptional<T>(patch: Option<T>, current: Option<T>): Option<T> {
    if patch.Some? then patch else current
  }

  const PENDING: string := "pending"

  // ---------------------------------------------------------------- customers

  datatype InsertCustomer = InsertCustomer(
    name: string, email: string, phone: string, city: string, status: Option<string>)

  datatype Customer = Customer(
    id: int, name: string, email: string, phone: string, city: string, status: Option<string>)
  {
    /** The row without its id: what a caller supplied to create it. */
    function Fields(): InsertCustomer {
      InsertCustomer(name, email, phone, city, status)
    }
  }

  /** The row `{ ...insert, id }` built by a create. */
  function NewCustomer(id: int, ins: InsertCustomer): (c: Customer)
    ensures c.id == id && c.Fields() == ins
  {
    Customer(id, ins.name, ins.email, ins.phone, ins.city, ins.status)
  }

  /** A partial customer: `None` is a field the caller left out. */
  datatype CustomerPatch = CustomerPatch(
    name: Option<string>, email: Option<string>, phone: Option<string>,
    city: Option<string>, status: Option<string>)

  const EMPTY_CUSTOMER_PATCH := CustomerPatch(None, None, None, None, None)

  /** `{ ...customer, ...patch }`: the fields the patch carries replace the stored ones. */
  function MergeCustomer(c: Customer, patch: CustomerPatch): (r: Customer)
    ensures r.id == c.id
    ensures patch.name.None? ==> r.name == c.name
    ensures patch.email.None? ==> r.email == c.email
    ensures patch.phone.None? ==> r.phone == c.phone
    ensures patch.city.None? ==> r.city == c.city
    ensures patch.status.None? ==> r.status == c.status
    ensures patch.name.Some? ==> r.name == patch.name.value
    ensures patch.email.Some? ==> r.email == patch.email.value
    ensures patch.phone.Some? ==> r.phone == patch.phone.value
    ensures patch.city.Some? ==> r.city == patch.city.value
    ensures patch.status.Some? ==> r.status == patch.status
  {
    Customer(c.id, Override(patch.name, c.name), Override(patch.email, c.email),
             Override(patch.phone, c.phone), Override(patch.city, c.city),
             OverrideOptional(patch.status, c.status))
  }

  // ----------------------------------------------------------------- products

  datatype InsertProduct = InsertProduct(
    name: string, sku: string, category: string, price: string,
    stock: Option<int>, status: Option<string>)

  datatype Product = Product(
    id: int, name: string, sku: string, category: string, price: string,
    stock: Option<int>, status: string)
  {
    function Fields(): InsertProduct {
      InsertProduct(name, sku, category, price, stock, Some(status))
    }
  }

  /** The row `{ ...insert, id, status }` built by a product create. */
  function NewProduct(id: int, ins: InsertProduct, status: string): (p: Product)
    ensures p.id == id && p.status == status && p.Fields() == ins.(status := Some(status))
  {
    Product(id, ins.name, ins.sku, ins.category, ins.price, ins.stock, status)
  }

  datatype ProductPatch = ProductPatch(
    name: Option<string>, sku: Option<string>, category: Option<string>,
    price: Option<string>, stock: Option<int>, status: Option<string>)

  const EMPTY_PRODUCT_PATCH := ProductPatch(None, None, None, None, None, None)

  /** `{ ...product, ...patch }`, before the store recomputes the status. */
  function MergeProduct(p: Product, patch: ProductPatch): (r: Product)
    ensures r.id == p.id
    ensures patch.name.None? ==> r.name == p.name
    ensures patch.sku.None? ==> r.sku == p.sku
    ensures patch.category.None? ==> r.category == p.category
    ensures patch.price.None? ==> r.price == p.price
    ensures patch.stock.None? ==> r.stock == p.stock
    ensures patch.status.None? ==> r.status == p.status
    ensures patch.name.Some? ==> r.name == patch.name.value
    ensures patch.sku.Some? ==> r.sku == patch.sku.value
    ensures patch.category.Some? ==> r.category == patch.category.value
    ensures patch.price.Some? ==> r.price == patch.price.value
    ensures patch.stock.Some? ==> r.stock == patch.stock
    ensures patch.status.Some? ==> r.status == patch.status.value
  {
    Product(p.id, Override(patch.name, p.name), Override(patch.sku, p.sku),
            Override(patch.category, p.category), Override(patch.price, p.price),
            OverrideOptional(patch.stock, p.stock), Override(patch.status, p.status))
  }

  // ------------------------------------------------------------------- orders

  datatype InsertOrder = InsertOrder(
    customerId: int, customerName: string, total: string, status: Option<string>, date: string)

  datatype Order = Order(
    id: int, customerId: int, customerName: string, total: string,
    status: Option<string>, date: string)
  {
    function Fields(): InsertOrder {
      InsertOrder(customerId, customerName, total, status, date)
    }
  }

  function NewOrder(id: int, ins: InsertOrder): (o: Order)
    ensures o.id == id && o.Fields() == ins
  {
    Order(id, ins.customerId, ins.customerName, ins.total, ins.status, ins.date)
  }

  // -------------------------------------------------------------- order items

  datatype InsertOrderItem = InsertOrderItem(
    orderId: int, productId: int, productName: string, quantity: int, price: string, total: string)

  datatype OrderItem = OrderItem(
    id: int, orderId: int, productId: int, productName: string,
    quantity: int, price: string, total: string)
  {
    function Fields(): InsertOrderItem {
      InsertOrderItem(orderId, productId, productName, quantity, price, total)
    }
  }

  function NewOrderItem(id: int, ins: InsertOrderItem): (it: OrderItem)
    ensures it.id == id && it.Fields() == ins
  {
    OrderItem(id, ins.orderId, ins.productId, ins.productName, ins.quantity, ins.price, ins.total)
  }

  // ------------------------------------------------------------------- lemmas

  /** An empty partial update leaves a customer as it was. */
  lemma MergeCustomerEmpty(c: Customer)
    ensures MergeCustomer(c, EMPTY_CUSTOMER_PATCH) == c
  {
  }

  /** Applying the same partial update twice is the same as applying it once. */
  lemma MergeCustomerIdempotent(c: Customer, patch: CustomerPatch)
    ensures MergeCustomer(MergeCustomer(c, patch), patch) == MergeCustomer(c, patch)
  {
  }
}

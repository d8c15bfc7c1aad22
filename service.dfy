/** The three services: orchestration of validation, the stores and the
    entities. An exception thrown by a service is its `Failure` result. */
module Service {
  import opened Base
  import opened Text
  import opened Model
  import opened Validation
  import opened Repository

  // ================================================================ products

  /** ProductService. */
  class ProductService {
    const productRepository: ProductRepository

    ghost predicate Valid()
      reads productRepository, productRepository.database.Values
    {
      productRepository.Valid()
    }

    constructor (productRepository: ProductRepository)
      requires productRepository.Valid()
      ensures this.productRepository == productRepository && Valid()
    {
      this.productRepository := productRepository;
    }

    /** The stored product with that id, as a frame. */
    function Stored(id: Option<int>): set<Product>
      reads productRepository
    {
      if productRepository.ExistsById(id) then {productRepository.database[id.value]} else {}
    }

    /** What `updateProduct` accepts: a valid product whose id is stored. */
    predicate Updatable(product: Product)
      reads product, productRepository
    {
      ValidateProduct(product).Pass? && productRepository.ExistsById(product.id)
    }

    /** `updateProduct(product)` as `cancelOrder` uses it, with the
        answer as an outcome. */
    method StoreAgain(product: Product) returns (r: Outcome<Failure>)
      requires Valid()
      modifies productRepository`database
      ensures Valid() && productRepository.database.Keys == old(productRepository.database.Keys)
      ensures r == UpdateVerdict(product, old(productRepository.database.Keys))
      ensures r.Pass? ==> product.id.Some? && productRepository.database == old(productRepository.database)[product.id.value := product]
      ensures r.Fail? ==> productRepository.database == old(productRepository.database)
    {
      var u := UpdateProduct(product);
      r := if u.Success? then Pass else Fail(u.error);
    }

    /** `createProduct(product)`: validated, then saved. */
    method CreateProduct(product: Product?) returns (r: Result<Product, Failure>)
      requires Valid()
      modifies productRepository, (if product == null then {} else {product})`id
      ensures Valid()
      ensures r.Failure? <==> old(ValidateProduct(product)).Fail?
      ensures r.Failure? ==>
        && r.error == old(ValidateProduct(product)).error
        && productRepository.database == old(productRepository.database)
        && productRepository.nextId == old(productRepository.nextId)
      ensures r.Success? ==>
        && product != null && r.value == product && product.id.Some?
        && productRepository.database == old(productRepository.database)[product.id.value := product]
        && (old(product.id).None? ==>
              product.id == Some(old(productRepository.nextId)) && productRepository.nextId == old(productRepository.nextId) + 1)
        && (old(product.id).Some? ==> product.id == old(product.id) && productRepository.nextId == old(productRepository.nextId))
    {
      var v := ValidateProduct(product);
      if v.Fail? {
        return Failure(v.error);
      }
      var saved := productRepository.Save(product);
      r := Success(saved);
    }

    /** `getProduct(id)`. */
    function GetProduct(id: Option<int>): (r: Result<Product, Failure>)
      reads productRepository
      ensures r.Success? <==> productRepository.ExistsById(id)
      ensures r.Success? ==> r.value == productRepository.database[id.value]
      ensures r.Failure? ==> r.error == NotFound
    {
      match productRepository.FindById(id)
      case Some(p) => Success(p)
      case None => Failure(NotFound)
    }

    /** `updateProduct(product)`: validated, then replaced if its id is
        stored. */
    method UpdateProduct(product: Product?) returns (r: Result<Product, Failure>)
      requires Valid()
      modifies productRepository`database
      ensures Valid()
      ensures ValidateProduct(product).Fail? ==> r == Failure(ValidateProduct(product).error)
      ensures ValidateProduct(product).Pass? ==>
        (r.Success? <==> old(productRepository.ExistsById(product.id))) && (r.Failure? ==> r.error == NotFound)
      ensures r.Failure? ==> productRepository.database == old(productRepository.database)
      ensures r.Success? ==>
        r.value == product && productRepository.database == old(productRepository.database)[product.id.value := product]
    {
      var v := ValidateProduct(product);
      if v.Fail? {
        return Failure(v.error);
      }
      if !productRepository.ExistsById(product.id) {
        return Failure(NotFound);
      }
      r := productRepository.Update(product);
    }

    /** `updateProductPrice(id, newPrice)`: no validation, so a zero or
        negative price is stored as given. */
    method UpdateProductPrice(id: Option<int>, newPrice: real) returns (r: Result<Product, Failure>)
      requires Valid()
      modifies productRepository`database, Stored(id)`price
      ensures Valid() && productRepository.database == old(productRepository.database)
      ensures r.Failure? <==> !productRepository.ExistsById(id)
      ensures r.Failure? ==> r.error == NotFound
      ensures r.Success? ==> r.value == productRepository.database[id.value] && r.value.price == newPrice
    {
      var found := GetProduct(id);
      if found.Failure? {
        return Failure(found.error);
      }
      var product := found.value;
      ProductFoundUnderOwnId(productRepository, id.value);
      product.SetPrice(newPrice);
      r := productRepository.Update(product);
      assert productRepository.database == old(productRepository.database)[id.value := product];
    }

    /** `deleteProduct(id)`. */
    method DeleteProduct(id: Option<int>) returns (r: Outcome<Failure>)
      requires Valid()
      modifies productRepository`database
      ensures Valid()
      ensures r.Fail? <==> !old(productRepository.ExistsById(id))
      ensures r.Fail? ==> r.error == NotFound && productRepository.database == old(productRepository.database)
      ensures r.Pass? ==>
        productRepository.database == old(productRepository.database) - {id.value} && GetProduct(id) == Failure(NotFound)
    {
      if !productRepository.ExistsById(id) {
        return Fail(NotFound);
      }
      r := productRepository.Delete(id);
    }

    /** `updateStock(productId, quantity)`: adds to a physical product's
        stock, in `int` arithmetic; a digital product is left alone. */
    method UpdateStock(productId: Option<int>, quantity: Int32) returns (r: Outcome<Failure>)
      requires Valid()
      modifies productRepository`database, Stored(productId)`stockQuantity
      ensures Valid() && productRepository.database == old(productRepository.database)
      ensures r.Fail? <==> !productRepository.ExistsById(productId)
      ensures r.Fail? ==> r.error == NotFound
      ensures r.Pass? ==>
        var p := productRepository.database[productId.value];
        p.stockQuantity == if p.kind.PhysicalKind? then Wrap32(old(p.stockQuantity) + quantity) else old(p.stockQuantity)
    {
      var found := GetProduct(productId);
      if found.Failure? {
        return Fail(found.error);
      }
      var product := found.value;
      ProductFoundUnderOwnId(productRepository, productId.value);
      if product.kind.PhysicalKind? {
        product.AddStock(quantity);
        var _ := productRepository.Update(product);
        assert productRepository.database == old(productRepository.database)[productId.value := product];
      }
      r := Pass;
    }

    /** `setProductAvailability(id, available)`. */
    method SetProductAvailability(id: Option<int>, available: bool) returns (r: Outcome<Failure>)
      requires Valid()
      modifies productRepository`database, Stored(id)`available
      ensures Valid() && productRepository.database == old(productRepository.database)
      ensures r.Fail? <==> !productRepository.ExistsById(id)
      ensures r.Fail? ==> r.error == NotFound
      ensures r.Pass? ==> productRepository.database[id.value].available == available
    {
      var found := GetProduct(id);
      if found.Failure? {
        return Fail(found.error);
      }
      var product := found.value;
      ProductFoundUnderOwnId(productRepository, id.value);
      product.SetAvailable(available);
      var _ := productRepository.Update(product);
      assert productRepository.database == old(productRepository.database)[id.value := product];
      r := Pass;
    }

    /** `getTotalProducts()`: the number of stored products. */
    function GetTotalProducts(): (r: nat)
      reads productRepository
      ensures r == |productRepository.database.Keys|
    {
      productRepository.Count()
    }
  }

  // ================================================================ orders

  /** What `updateProduct` answers for `product` when `keys` are the stored
      ids: the validation failure, NotFound for an id that is not stored,
      otherwise Pass. */
  function UpdateVerdict(product: Product, keys: set<int>): (r: Outcome<Failure>)
    reads product`name, product`category, product`price, product`id
  {
    if CheckProduct(product.name, product.category, product.price).Fail? then
      CheckProduct(product.name, product.category, product.price)
    else if product.id.None? || product.id.value !in keys then Fail(NotFound)
    else Pass
  }

  /** The products the items point to. */
  function ProductsOf(items: seq<OrderItem>): set<Product>
    reads items
  {
    set i | 0 <= i < |items| :: items[i].product
  }

  /** What an item gives back when its order is cancelled: its product
      and its quantity. */
  datatype Line = Line(product: Product, quantity: Int32)

  function LinesOf(items: seq<OrderItem>): (r: seq<Line>)
    reads items
    ensures |r| == |items| && forall j :: 0 <= j < |items| ==> r[j] == Line(items[j].product, items[j].quantity)
  {
    seq(|items|, j requires 0 <= j < |items| reads items => Line(items[j].product, items[j].quantity))
  }

  /** The units of `p` the lines hold: what cancelling gives back to it. */
  function Restock(lines: seq<Line>, p: Product): (r: int)
  {
    if lines == [] then 0
    else
      var last := lines[|lines| - 1];
      Restock(lines[..|lines| - 1], p) + (if last.product == p then last.quantity else 0)
  }

  lemma RestockStep(lines: seq<Line>, i: nat)
    requires i < |lines|
    ensures forall p :: (Restock(lines[..i + 1], p) ==
      Restock(lines[..i], p) + (if lines[i].product == p then lines[i].quantity else 0))
  {
    assert lines[..i + 1][..i] == lines[..i];
  }

  /** Giving `q` more units back to a stock that already holds `given`
      of them, with `int` wrap-around. */
  lemma StockAddBack(start: int, given: int, q: int, before: int, after: int)
    requires before == Wrap32(start + given) && after == Wrap32(before + q)
    ensures after == Wrap32(start + (given + q))
  {
    Wrap32AddWrap32(start + given, q);
  }

  /** The stock of each line's product. */
  function Stocks(lines: seq<Line>): (r: seq<Int32>)
    reads (set j | 0 <= j < |lines| :: lines[j].product)`stockQuantity
    ensures |r| == |lines| && forall j {:trigger r[j]} :: 0 <= j < |lines| ==> r[j] == lines[j].product.stockQuantity
  {
    if lines == [] then [] else Stocks(lines[..|lines| - 1]) + [lines[|lines| - 1].product.stockQuantity]
  }

  /** The stock of line `j`'s product after the first `n` passes of the
      stock loop of `cancelOrder`, from the stocks `start` (one per line):
      a pass over a physical line gives its quantity back to its product,
      wrapped to `int`; a pass over a digital line changes nothing. */
  function ReplayAt(start: seq<Int32>, lines: seq<Line>, n: nat, j: nat): (r: Int32)
    requires n <= |lines| == |start| && j < |lines|
  {
    if n == 0 then start[j]
    else
      var before := ReplayAt(start, lines, n - 1, j);
      var line := lines[n - 1];
      if lines[j].product == line.product && line.product.kind.PhysicalKind? then Wrap32(before + line.quantity)
      else before
  }

  /** What the loop has done after `n` passes: each physical product holds
      its stock at the start plus the units the first `n` lines hold for
      it, wrapped to `int`; each digital product holds its stock at the
      start. */
  lemma {:induction false} ReplayIsRestock(start: seq<Int32>, lines: seq<Line>, n: nat, j: nat)
    requires n <= |lines| == |start| && j < |lines|
    ensures ReplayAt(start, lines, n, j) ==
      if lines[j].product.kind.PhysicalKind? then Wrap32(start[j] + Restock(lines[..n], lines[j].product))
      else start[j]
  {
    if n == 0 {
      assert lines[..0] == [];
    } else {
      ReplayIsRestock(start, lines, n - 1, j);
      RestockStep(lines, n - 1);
      var p := lines[j].product;
      if p == lines[n - 1].product && p.kind.PhysicalKind? {
        StockAddBack(start[j], Restock(lines[..n - 1], p), lines[n - 1].quantity,
          ReplayAt(start, lines, n - 1, j), ReplayAt(start, lines, n, j));
      }
    }
  }

  /** What `updateProduct` answers for each line's product. */
  function Verdicts(lines: seq<Line>, keys: set<int>): (r: seq<Outcome<Failure>>)
    reads (set j | 0 <= j < |lines| :: lines[j].product)`name, (set j | 0 <= j < |lines| :: lines[j].product)`category
    reads (set j | 0 <= j < |lines| :: lines[j].product)`price, (set j | 0 <= j < |lines| :: lines[j].product)`id
    ensures |r| == |lines| && forall j {:trigger r[j]} :: 0 <= j < |lines| ==> r[j] == UpdateVerdict(lines[j].product, keys)
  {
    if lines == [] then [] else Verdicts(lines[..|lines| - 1], keys) + [UpdateVerdict(lines[|lines| - 1].product, keys)]
  }

  /** The first line from `i` on that ends the stock loop of
      `cancelOrder` (a physical line whose product `updateProduct`
      refuses, as `verdicts` say), or the number of lines. */
  function StopFrom(verdicts: seq<Outcome<Failure>>, lines: seq<Line>, i: nat): (k: nat)
    requires i <= |verdicts| == |lines|
    ensures i <= k <= |lines|
    ensures forall j {:trigger verdicts[j]} :: i <= j < k && lines[j].product.kind.PhysicalKind? ==> verdicts[j].Pass?
    ensures k < |lines| ==> lines[k].product.kind.PhysicalKind? && verdicts[k].Fail?
    decreases |lines| - i
  {
    if i == |lines| then i
    else if lines[i].product.kind.PhysicalKind? && verdicts[i].Fail? then i
    else StopFrom(verdicts, lines, i + 1)
  }

  /** The stock of every line's product after the first `n` passes. */
  function Replay(start: seq<Int32>, lines: seq<Line>, n: nat): (r: seq<Int32>)
    requires n <= |lines| == |start|
    ensures |r| == |lines| && forall j {:trigger r[j]} :: 0 <= j < |lines| ==> r[j] == ReplayAt(start, lines, n, j)
    ensures forall j {:trigger r[j]} :: 0 <= j < |lines| ==>
      r[j] == if lines[j].product.kind.PhysicalKind? then Wrap32(start[j] + Restock(lines[..n], lines[j].product)) else start[j]
  {
    forall j | 0 <= j < |lines|
      ensures ReplayAt(start, lines, n, j) ==
        if lines[j].product.kind.PhysicalKind? then Wrap32(start[j] + Restock(lines[..n], lines[j].product)) else start[j]
    {
      ReplayIsRestock(start, lines, n, j);
    }
    seq(|lines|, j requires 0 <= j < |lines| => ReplayAt(start, lines, n, j))
  }

  /** A pass over a digital line changes no stock. */
  lemma ReplaySkip(start: seq<Int32>, lines: seq<Line>, n: nat)
    requires n < |lines| == |start| && lines[n].product.kind.DigitalKind?
    ensures Replay(start, lines, n + 1) == Replay(start, lines, n)
  {
  }

  /** The outcome of the stock loop of `cancelOrder` over `lines`, from
      the stocks `start` and the answers `verdicts` of `updateProduct`
      before it: the loop stops at `processed`, the first physical line
      whose product is refused, failing with its verdict, or passes when
      there is none; every line up to and including that one has given
      its units back, and no other. */
  ghost predicate Restored(lines: seq<Line>, start: seq<Int32>, verdicts: seq<Outcome<Failure>>, r: Outcome<Failure>, processed: nat)
    requires |start| == |verdicts| == |lines|
    reads (set j | 0 <= j < |lines| :: lines[j].product)`stockQuantity
  {
    && processed == StopFrom(verdicts, lines, 0)
    && (r.Pass? <==> processed == |lines|)
    && (r.Fail? ==> r == verdicts[processed])
    && Stocks(lines) == Replay(start, lines, if r.Pass? then |lines| else processed + 1)
  }

  /** The stock loop over a single physical line whose product
      `updateProduct` accepts passes and gives the line's units back. */
  lemma RestoredOne(p: Product, q: Int32, start: Int32, r: Outcome<Failure>, processed: nat)
    requires p.kind.PhysicalKind? && Restored([Line(p, q)], [start], [Pass], r, processed)
    ensures r == Pass && p.stockQuantity == Wrap32(start + q)
  {
    var lines := [Line(p, q)];
    assert StopFrom([Pass], lines, 0) == 1;
    assert lines[..1] == lines && lines[..0] == [];
    assert Restock(lines, p) == q;
    assert Stocks(lines)[0] == Replay([start], lines, 1)[0];
  }

  /** The product store after the first `n` passes of the stock loop of
      `cancelOrder`, from the store `db`: a pass over a physical line
      stores its product again under the product's own id, which must
      already be stored; a pass over a digital line changes nothing. Every
      id stays stored, and every entry is either the one it was or the
      product of a physical line among the first `n`, under its own id. */
  function StoreReplay(db: map<int, Product>, lines: seq<Line>, ids: seq<Option<int>>, n: nat): (r: map<int, Product>)
    requires n <= |lines| == |ids|
    ensures r.Keys == db.Keys
  {
    if n == 0 then db
    else
      var prev := StoreReplay(db, lines, ids, n - 1);
      var p := lines[n - 1].product;
      if p.kind.PhysicalKind? && ids[n - 1].Some? && ids[n - 1].value in prev then prev[ids[n - 1].value := p] else prev
  }

  /** The id of each line's product. */
  function Ids(lines: seq<Line>): (r: seq<Option<int>>)
    reads (set j | 0 <= j < |lines| :: lines[j].product)`id
    ensures |r| == |lines| && forall j {:trigger r[j]} :: 0 <= j < |lines| ==> r[j] == lines[j].product.id
  {
    if lines == [] then [] else Ids(lines[..|lines| - 1]) + [lines[|lines| - 1].product.id]
  }

  /** After the first `n` items are stored again, every stored product is
      either the one stored before or a physical item's product among those
      `n`, kept under its own id. */
  lemma {:induction false} StoreReplayEntries(db: map<int, Product>, lines: seq<Line>, ids: seq<Option<int>>, n: nat, k: int)
    requires n <= |lines| == |ids| && k in db
    ensures var r := StoreReplay(db, lines, ids, n);
      r[k] == db[k] || exists j :: 0 <= j < n && r[k] == lines[j].product && lines[j].product.kind.PhysicalKind? && ids[j] == Some(k)
  {
    if n > 0 {
      StoreReplayEntries(db, lines, ids, n - 1, k);
      var prev := StoreReplay(db, lines, ids, n - 1);
      var p := lines[n - 1].product;
      if p.kind.PhysicalKind? && ids[n - 1] == Some(k) {
        assert StoreReplay(db, lines, ids, n)[k] == lines[n - 1].product;
      } else {
        assert StoreReplay(db, lines, ids, n)[k] == prev[k];
        if prev[k] != db[k] {
          var j :| 0 <= j < n - 1 && prev[k] == lines[j].product && lines[j].product.kind.PhysicalKind? && ids[j] == Some(k);
          assert 0 <= j < n;
        }
      }
    }
  }

  /** What an order adds to the revenue: its total if it is DELIVERED. */
  function Contribution(o: Order): (r: real)
    reads o
  {
    if o.status == Delivered then o.totalAmount else 0.0
  }

  lemma EmptyOrHasKey(keys: set<int>)
    ensures keys == {} || exists k :: k in keys
  {
    if forall k :: k !in keys {
      assert keys == {};
    }
  }

  /** The sum of the contributions of the orders stored under `keys`. */
  ghost function RevenueOver(db: map<int, Order>, keys: set<int>): (r: real)
    requires keys <= db.Keys
    reads db.Values
    decreases keys
  {
    if keys == {} then 0.0
    else
      EmptyOrHasKey(keys);
      var k :| k in keys;
      Contribution(db[k]) + RevenueOver(db, keys - {k})
  }

  /** The sum does not depend on the order the keys are taken in: any key
      can be taken first. */
  lemma {:induction false} RevenueRemove(db: map<int, Order>, keys: set<int>, k: int)
    requires keys <= db.Keys && k in keys
    ensures RevenueOver(db, keys) == Contribution(db[k]) + RevenueOver(db, keys - {k})
    decreases keys
  {
    var x :| x in keys && RevenueOver(db, keys) == Contribution(db[x]) + RevenueOver(db, keys - {x});
    if x != k {
      RevenueRemove(db, keys - {x}, k);
      RevenueRemove(db, keys - {k}, x);
      assert keys - {x} - {k} == keys - {k} - {x};
    }
  }

  /** Orders that are not DELIVERED add nothing: with none delivered the
      revenue is zero. */
  lemma {:induction false} RevenueOnlyDelivered(db: map<int, Order>, keys: set<int>)
    requires keys <= db.Keys
    requires forall k :: k in keys ==> db[k].status != Delivered
    ensures RevenueOver(db, keys) == 0.0
    decreases keys
  {
    if keys != {} {
      EmptyOrHasKey(keys);
      var k :| k in keys;
      RevenueRemove(db, keys, k);
      RevenueOnlyDelivered(db, keys - {k});
    }
  }

  /** OrderService. */
  class OrderService {
    const orderRepository: OrderRepository
    const productService: ProductService

    ghost predicate Valid()
      reads orderRepository, orderRepository.database.Values
      reads productService.productRepository, productService.productRepository.database.Values
    {
      orderRepository.Valid() && productService.Valid()
    }

    constructor (orderRepository: OrderRepository, productService: ProductService)
      requires orderRepository.Valid() && productService.Valid()
      ensures this.orderRepository == orderRepository && this.productService == productService && Valid()
    {
      this.orderRepository := orderRepository;
      this.productService := productService;
    }

    /** The stored order with that id, as a frame. */
    function Stored(id: Option<int>): set<Order>
      reads orderRepository
    {
      if orderRepository.ExistsById(id) then {orderRepository.database[id.value]} else {}
    }

    /** The products of the stored order's items, as a frame. */
    function StoredProducts(id: Option<int>): set<Product>
      reads orderRepository, orderRepository.database.Values, Items(id)
    {
      if orderRepository.ExistsById(id) then ProductsOf(orderRepository.database[id.value].items) else {}
    }

    function Items(id: Option<int>): set<OrderItem>
      reads orderRepository, orderRepository.database.Values
    {
      if orderRepository.ExistsById(id) then
        var items := orderRepository.database[id.value].items;
        set i | 0 <= i < |items| :: items[i]
      else {}
    }

    /** The last two steps of `createOrder`: a new PENDING order without
        items, saved under a fresh id. */
    method SaveNewOrder(customer: User?, paymentMethod: string, now: Timestamp) returns (o: Order)
      requires Valid()
      modifies orderRepository
      ensures Valid()
      ensures
        && fresh(o) && o.customer == customer && o.paymentMethod == paymentMethod && o.orderDate == now
        && o.status == Pending && o.items == [] && o.discount == 0.0 && o.TotalsConsistent()
        && o.id == Some(old(orderRepository.nextId)) && orderRepository.nextId == old(orderRepository.nextId) + 1
        && orderRepository.database == old(orderRepository.database)[o.id.value := o]
    {
      var order := new Order(None, customer, paymentMethod, now);
      o := orderRepository.Save(order);
    }

    /** `createOrder(customer, paymentMethod)`: a new PENDING order without
        items under a fresh id; the customer's own list of orders is not
        touched. */
    method CreateOrder(customer: User?, paymentMethod: Option<string>, now: Timestamp) returns (r: Result<Order, Failure>)
      requires Valid()
      requires customer != null ==> customer.kind.CustomerKind?
      modifies orderRepository
      ensures Valid()
      ensures customer == null ==> r == Failure(Invalid("Customer cannot be null"))
      ensures customer != null && ValidateNotEmpty(paymentMethod, "Payment method cannot be empty").Fail? ==>
        r == Failure(Invalid("Payment method cannot be empty"))
      ensures r.Success? <==> customer != null && ValidateNotEmpty(paymentMethod, "Payment method cannot be empty").Pass?
      ensures r.Failure? ==>
        orderRepository.database == old(orderRepository.database) && orderRepository.nextId == old(orderRepository.nextId)
      ensures r.Success? ==>
        var o := r.value;
        && fresh(o) && o.customer == customer && paymentMethod == Some(o.paymentMethod) && o.orderDate == now
        && o.status == Pending && o.items == [] && o.discount == 0.0 && o.TotalsConsistent()
        && o.id == Some(old(orderRepository.nextId)) && orderRepository.nextId == old(orderRepository.nextId) + 1
        && orderRepository.database == old(orderRepository.database)[o.id.value := o]
      ensures customer != null ==> customer.orders == old(customer.orders)
    {
      var v := ValidateNotNull(customer, "Customer cannot be null");
      if v.Fail? {
        return Failure(v.error);
      }
      v := ValidateNotEmpty(paymentMethod, "Payment method cannot be empty");
      if v.Fail? {
        return Failure(v.error);
      }
      var order := SaveNewOrder(customer, paymentMethod.value, now);
      r := Success(order);
    }

    /** `items.forEach(order::addItem)`: each item appended in turn. */
    static method AddEach(order: Order, items: seq<OrderItem>)
      modifies order`items, order`subtotal, order`shippingCost, order`totalAmount
      ensures order.items == old(order.items) + items
      ensures old(order.TotalsConsistent()) || items != [] ==> order.TotalsConsistent()
    {
      ghost var start := order.items;
      for i := 0 to |items|
        invariant order.items == start + items[..i]
        invariant old(order.TotalsConsistent()) || i > 0 ==> order.TotalsConsistent()
      {
        order.AddItem(items[i]);
        assert items[..i + 1] == items[..i] + [items[i]];
      }
      assert items[..|items|] == items;
    }

    /** `createOrder(customer, paymentMethod, items)`: the same, then each
        item appended in turn and the order stored again. */
    method CreateOrderWithItems(customer: User?, paymentMethod: Option<string>, items: seq<OrderItem>, now: Timestamp)
      returns (r: Result<Order, Failure>)
      requires Valid()
      requires customer != null ==> customer.kind.CustomerKind?
      modifies orderRepository
      ensures Valid()
      ensures customer == null ==> r == Failure(Invalid("Customer cannot be null"))
      ensures customer != null && ValidateNotEmpty(paymentMethod, "Payment method cannot be empty").Fail? ==>
        r == Failure(Invalid("Payment method cannot be empty"))
      ensures r.Success? <==> customer != null && ValidateNotEmpty(paymentMethod, "Payment method cannot be empty").Pass?
      ensures r.Failure? ==>
        orderRepository.database == old(orderRepository.database) && orderRepository.nextId == old(orderRepository.nextId)
      ensures r.Success? ==>
        var o := r.value;
        && fresh(o) && o.customer == customer && paymentMethod == Some(o.paymentMethod) && o.orderDate == now
        && o.items == items && o.TotalsConsistent() && o.discount == 0.0 && o.status == Pending
        && o.id == Some(old(orderRepository.nextId)) && orderRepository.nextId == old(orderRepository.nextId) + 1
        && orderRepository.database == old(orderRepository.database)[o.id.value := o]
      ensures customer != null ==> customer.orders == old(customer.orders)
    {
      r := CreateOrder(customer, paymentMethod, now);
      if r.Failure? {
        return;
      }
      var order := r.value;
      FillNewOrder(order, items);
    }

    /** The last steps of `createOrder(customer, paymentMethod, items)`:
        the items appended to the new stored order, which is stored again
        under the same id. */
    method FillNewOrder(order: Order, items: seq<OrderItem>)
      requires Valid() && order.id.Some? && order.id.value in orderRepository.database
      requires orderRepository.database[order.id.value] == order && order.items == [] && order.TotalsConsistent()
      modifies orderRepository`database, order`items, order`subtotal, order`shippingCost, order`totalAmount
      ensures Valid() && orderRepository.database == old(orderRepository.database)
      ensures order.items == items && order.TotalsConsistent()
      ensures order.discount == old(order.discount) && order.status == old(order.status)
    {
      AddEach(order, items);
      var _ := orderRepository.Update(order);
      assert orderRepository.database == old(orderRepository.database)[order.id.value := order];
    }

    /** `getOrder(id)`. */
    function GetOrder(id: Option<int>): (r: Result<Order, Failure>)
      reads orderRepository
      ensures r.Success? <==> orderRepository.ExistsById(id)
      ensures r.Success? ==> r.value == orderRepository.database[id.value]
      ensures r.Failure? ==> r.error == NotFound
    {
      match orderRepository.FindById(id)
      case Some(o) => Success(o)
      case None => Failure(NotFound)
    }

    /** The stock step of `addItemToOrder`: a physical product must have
        the units, loses them, and is stored again through `updateProduct`.
        If that throws, the units stay taken. Any other product passes
        untouched. */
    method TakeStock(product: Product?, quantity: Int32) returns (r: Outcome<Failure>)
      requires Valid()
      modifies productService.productRepository`database, (if product == null then {} else {product})`stockQuantity
      ensures Valid()
      ensures product == null || product.kind.DigitalKind? ==>
        && r.Pass? && productService.productRepository.database == old(productService.productRepository.database)
        && (product != null ==> product.stockQuantity == old(product.stockQuantity))
      ensures product != null && product.kind.PhysicalKind? && !old(product.HasStockFor(quantity)) ==>
        && r == Fail(InsufficientStock) && product.stockQuantity == old(product.stockQuantity)
        && productService.productRepository.database == old(productService.productRepository.database)
      ensures product != null && product.kind.PhysicalKind? && old(product.HasStockFor(quantity)) ==>
        && product.stockQuantity == Wrap32(old(product.stockQuantity) - quantity)
        && (r.Pass? <==> old(productService.Updatable(product)))
        && (r.Fail? ==> productService.productRepository.database == old(productService.productRepository.database))
        && (r.Pass? ==>
              productService.productRepository.database ==
              old(productService.productRepository.database)[product.id.value := product])
    {
      if product == null || product.kind.DigitalKind? {
        return Pass;
      }
      if !product.HasStockFor(quantity) {
        return Fail(InsufficientStock);
      }
      var _ := product.ReduceStock(quantity);
      var u := productService.UpdateProduct(product);
      r := if u.Success? then Pass else Fail(u.error);
    }

    /** The last steps of `addItemToOrder`: a new item for the product,
        appended to the order, which is stored again. */
    method AppendItem(order: Order, product: Product, quantity: Int32) returns (item: OrderItem)
      requires Valid() && order.id.Some? && order.id.value in orderRepository.database
      requires orderRepository.database[order.id.value] == order
      modifies orderRepository`database, order`items, order`subtotal, order`shippingCost, order`totalAmount
      ensures Valid() && orderRepository.database == old(orderRepository.database)
      ensures fresh(item) && item.product == product && item.quantity == quantity
      ensures item.unitPrice == product.price && item.PriceConsistent()
      ensures order.items == old(order.items) + [item]
      ensures order.TotalsConsistent() && order.discount == old(order.discount)
    {
      item := new OrderItem(None, product, quantity);
      order.AddItem(item);
      var _ := orderRepository.Update(order);
      assert orderRepository.database == old(orderRepository.database)[order.id.value := order];
    }

    /** `addItemToOrder` once the order is found: the stock step, then a
        null product throws when the item reads its price, then the item is
        appended. */
    method AddItemToFoundOrder(order: Order, product: Product?, quantity: Int32) returns (r: Outcome<Failure>)
      requires Valid() && order.id.Some? && order.id.value in orderRepository.database
      requires orderRepository.database[order.id.value] == order
      modifies orderRepository`database, productService.productRepository`database
      modifies order`items, order`subtotal, order`shippingCost, order`totalAmount
      modifies (if product == null then {} else {product})`stockQuantity
      ensures Valid() && orderRepository.database == old(orderRepository.database)
      ensures product == null ==> r == Fail(NullReference)
      ensures product != null && product.kind.PhysicalKind? ==>
        && (!old(product.HasStockFor(quantity)) ==> r == Fail(InsufficientStock) && product.stockQuantity == old(product.stockQuantity))
        && (old(product.HasStockFor(quantity)) ==>
              product.stockQuantity == Wrap32(old(product.stockQuantity) - quantity)
              && (r.Pass? <==> old(productService.Updatable(product))))
      ensures product != null && product.kind.DigitalKind? ==>
        r.Pass? && product.stockQuantity == old(product.stockQuantity)
      ensures product != null && product.kind.PhysicalKind? && old(product.HasStockFor(quantity)) && r.Pass? ==>
        product.id.Some? && productService.productRepository.database == old(productService.productRepository.database)[product.id.value := product]
      ensures !(product != null && product.kind.PhysicalKind? && old(product.HasStockFor(quantity)) && r.Pass?) ==>
        productService.productRepository.database == old(productService.productRepository.database)
      ensures r.Fail? ==>
        && order.items == old(order.items) && order.subtotal == old(order.subtotal)
        && order.shippingCost == old(order.shippingCost) && order.totalAmount == old(order.totalAmount)
      ensures r.Pass? ==>
        && product != null && |order.items| == |old(order.items)| + 1 && order.items[..|old(order.items)|] == old(order.items)
        && var item := order.items[|old(order.items)|];
           fresh(item) && item.product == product && item.quantity == quantity
           && item.unitPrice == product.price && item.PriceConsistent()
           && order.TotalsConsistent()
    {
      r := TakeStock(product, quantity);
      if r.Fail? {
        return;
      }
      if product == null {
        return Fail(NullReference);
      }
      var item := AppendItem(order, product, quantity);
      assert order.items[..|old(order.items)|] == old(order.items);
    }

    /** `addItemToOrder(orderId, product, quantity)`: the order must exist.
        A digital product is added without any check, and no path looks at
        the order's status. */
    method AddItemToOrder(orderId: Option<int>, product: Product?, quantity: Int32) returns (r: Outcome<Failure>)
      requires Valid()
      modifies orderRepository`database, productService.productRepository`database
      modifies Stored(orderId)`items, Stored(orderId)`subtotal, Stored(orderId)`shippingCost, Stored(orderId)`totalAmount
      modifies (if product == null then {} else {product})`stockQuantity
      ensures Valid() && orderRepository.database == old(orderRepository.database)
      ensures !old(orderRepository.ExistsById(orderId)) ==>
        && r == Fail(NotFound) && productService.productRepository.database == old(productService.productRepository.database)
        && (product != null ==> product.stockQuantity == old(product.stockQuantity))
      ensures old(orderRepository.ExistsById(orderId)) && product == null ==> r == Fail(NullReference)
      ensures old(orderRepository.ExistsById(orderId)) && product != null && product.kind.PhysicalKind? ==>
        && (!old(product.HasStockFor(quantity)) ==> r == Fail(InsufficientStock) && product.stockQuantity == old(product.stockQuantity))
        && (old(product.HasStockFor(quantity)) ==>
              product.stockQuantity == Wrap32(old(product.stockQuantity) - quantity)
              && (r.Pass? <==> old(productService.Updatable(product))))
      ensures old(orderRepository.ExistsById(orderId)) && product != null && product.kind.DigitalKind? ==>
        r.Pass? && product.stockQuantity == old(product.stockQuantity)
      ensures old(orderRepository.ExistsById(orderId)) && product != null && product.kind.PhysicalKind? && old(product.HasStockFor(quantity)) && r.Pass? ==>
        product.id.Some? && productService.productRepository.database == old(productService.productRepository.database)[product.id.value := product]
      ensures !(old(orderRepository.ExistsById(orderId)) && product != null && product.kind.PhysicalKind? && old(product.HasStockFor(quantity)) && r.Pass?) ==>
        productService.productRepository.database == old(productService.productRepository.database)
      ensures old(orderRepository.ExistsById(orderId)) ==>
        var o := orderRepository.database[orderId.value];
        && (r.Fail? ==> o.items == old(o.items) && o.subtotal == old(o.subtotal)
                        && o.shippingCost == old(o.shippingCost) && o.totalAmount == old(o.totalAmount))
        && (r.Pass? ==>
              && product != null && |o.items| == |old(o.items)| + 1 && o.items[..|old(o.items)|] == old(o.items)
              && var item := o.items[|old(o.items)|];
                 fresh(item) && item.product == product && item.quantity == quantity
                 && item.unitPrice == product.price && item.PriceConsistent()
                 && o.TotalsConsistent())
    {
      var found := GetOrder(orderId);
      if found.Failure? {
        return Fail(found.error);
      }
      OrderFoundUnderOwnId(orderRepository, orderId.value);
      r := AddItemToFoundOrder(found.value, product, quantity);
    }

    /** `applyDiscount(orderId, discountPercentage)`. */
    method ApplyDiscountPercent(orderId: Option<int>, discountPercentage: Int32) returns (r: Outcome<Failure>)
      requires Valid()
      modifies orderRepository`database
      modifies Stored(orderId)`discount, Stored(orderId)`subtotal, Stored(orderId)`shippingCost, Stored(orderId)`totalAmount
      ensures Valid() && orderRepository.database == old(orderRepository.database)
      ensures r.Fail? <==> !orderRepository.ExistsById(orderId)
      ensures r.Fail? ==> r.error == NotFound
      ensures r.Pass? ==>
        var o := orderRepository.database[orderId.value];
        && o.discount == old(o.subtotal) * discountPercentage as real / 100.0
        && o.items == old(o.items) && o.TotalsConsistent()
    {
      var found := GetOrder(orderId);
      if found.Failure? {
        return Fail(found.error);
      }
      var order := found.value;
      OrderFoundUnderOwnId(orderRepository, orderId.value);
      order.ApplyDiscountPercent(discountPercentage);
      var _ := orderRepository.Update(order);
      assert orderRepository.database == old(orderRepository.database)[orderId.value := order];
      r := Pass;
    }

    /** `applyDiscount(orderId, discountAmount)`. */
    method ApplyDiscountAmount(orderId: Option<int>, discountAmount: real) returns (r: Outcome<Failure>)
      requires Valid()
      modifies orderRepository`database
      modifies Stored(orderId)`discount, Stored(orderId)`subtotal, Stored(orderId)`shippingCost, Stored(orderId)`totalAmount
      ensures Valid() && orderRepository.database == old(orderRepository.database)
      ensures r.Fail? <==> !orderRepository.ExistsById(orderId)
      ensures r.Fail? ==> r.error == NotFound
      ensures r.Pass? ==>
        var o := orderRepository.database[orderId.value];
        o.discount == discountAmount && o.items == old(o.items) && o.TotalsConsistent()
    {
      var found := GetOrder(orderId);
      if found.Failure? {
        return Fail(found.error);
      }
      var order := found.value;
      OrderFoundUnderOwnId(orderRepository, orderId.value);
      order.ApplyDiscountAmount(discountAmount);
      var _ := orderRepository.Update(order);
      assert orderRepository.database == old(orderRepository.database)[orderId.value := order];
      r := Pass;
    }

    /** `confirmOrder(orderId)`: only a PENDING order moves. */
    method ConfirmOrder(orderId: Option<int>) returns (r: Outcome<Failure>)
      requires Valid()
      modifies orderRepository`database, Stored(orderId)`status
      ensures Valid() && orderRepository.database == old(orderRepository.database)
      ensures r.Fail? <==> !orderRepository.ExistsById(orderId)
      ensures r.Fail? ==> r.error == NotFound
      ensures r.Pass? ==>
        var o := orderRepository.database[orderId.value];
        o.status == Step(old(o.status), Confirm)
    {
      var found := GetOrder(orderId);
      if found.Failure? {
        return Fail(found.error);
      }
      var order := found.value;
      OrderFoundUnderOwnId(orderRepository, orderId.value);
      order.ConfirmOrder();
      var _ := orderRepository.Update(order);
      assert orderRepository.database == old(orderRepository.database)[orderId.value := order];
      r := Pass;
    }

    /** `processOrder(orderId)`: only a CONFIRMED order moves. */
    method ProcessOrder(orderId: Option<int>) returns (r: Outcome<Failure>)
      requires Valid()
      modifies orderRepository`database, Stored(orderId)`status
      ensures Valid() && orderRepository.database == old(orderRepository.database)
      ensures r.Fail? <==> !orderRepository.ExistsById(orderId)
      ensures r.Fail? ==> r.error == NotFound
      ensures r.Pass? ==>
        var o := orderRepository.database[orderId.value];
        o.status == Step(old(o.status), Process)
    {
      var found := GetOrder(orderId);
      if found.Failure? {
        return Fail(found.error);
      }
      var order := found.value;
      OrderFoundUnderOwnId(orderRepository, orderId.value);
      order.ProcessOrder();
      var _ := orderRepository.Update(order);
      assert orderRepository.database == old(orderRepository.database)[orderId.value := order];
      r := Pass;
    }

    /** `shipOrder(orderId)`: only a PROCESSING order moves. */
    method ShipOrder(orderId: Option<int>) returns (r: Outcome<Failure>)
      requires Valid()
      modifies orderRepository`database, Stored(orderId)`status
      ensures Valid() && orderRepository.database == old(orderRepository.database)
      ensures r.Fail? <==> !orderRepository.ExistsById(orderId)
      ensures r.Fail? ==> r.error == NotFound
      ensures r.Pass? ==>
        var o := orderRepository.database[orderId.value];
        o.status == Step(old(o.status), Ship)
    {
      var found := GetOrder(orderId);
      if found.Failure? {
        return Fail(found.error);
      }
      var order := found.value;
      OrderFoundUnderOwnId(orderRepository, orderId.value);
      order.ShipOrder();
      var _ := orderRepository.Update(order);
      assert orderRepository.database == old(orderRepository.database)[orderId.value := order];
      r := Pass;
    }

    /** `deliverOrder(orderId)`: only a SHIPPED order moves, and it records
        the delivery time. */
    method DeliverOrder(orderId: Option<int>, now: Timestamp) returns (r: Outcome<Failure>)
      requires Valid()
      modifies orderRepository`database, Stored(orderId)`status, Stored(orderId)`deliveryDate
      ensures Valid() && orderRepository.database == old(orderRepository.database)
      ensures r.Fail? <==> !orderRepository.ExistsById(orderId)
      ensures r.Fail? ==> r.error == NotFound
      ensures r.Pass? ==>
        var o := orderRepository.database[orderId.value];
        && o.status == Step(old(o.status), Deliver)
        && o.deliveryDate == if old(o.status) == Shipped then Some(now) else old(o.deliveryDate)
    {
      var found := GetOrder(orderId);
      if found.Failure? {
        return Fail(found.error);
      }
      var order := found.value;
      OrderFoundUnderOwnId(orderRepository, orderId.value);
      order.DeliverOrder(now);
      var _ := orderRepository.Update(order);
      assert orderRepository.database == old(orderRepository.database)[orderId.value := order];
      r := Pass;
    }

    /** The stock step of one pass of `cancelOrder`'s loop on a physical
        line: `addStock` of its quantity on its product. */
    static method GiveBack(lines: seq<Line>, i: nat, ghost start: seq<Int32>)
      requires i < |lines| == |start| && lines[i].product.kind.PhysicalKind?
      requires Stocks(lines) == Replay(start, lines, i)
      modifies lines[i].product`stockQuantity
      ensures Stocks(lines) == Replay(start, lines, i + 1)
    {
      var product := lines[i].product;
      ghost var before := Stocks(lines);
      product.AddStock(lines[i].quantity);
      forall j | 0 <= j < |lines|
        ensures Stocks(lines)[j] == Replay(start, lines, i + 1)[j]
      {
        assert before[j] == Replay(start, lines, i)[j];
      }
    }

    /** One pass of the stock loop of `cancelOrder`. A physical line's
        units go back to its product, which is stored again through
        `updateProduct`; a digital line is passed over. `start` holds each
        line's stock before the loop, `keys` the stored product ids and
        `verdict` what `updateProduct` answers for this line's product. */
    method RestoreItem(lines: seq<Line>, i: nat, ghost start: seq<Int32>, ghost keys: set<int>, ghost verdict: Outcome<Failure>,
                       ghost db: map<int, Product>, ghost ids: seq<Option<int>>)
      returns (r: Outcome<Failure>)
      requires productService.Valid() && productService.productRepository.database.Keys == keys
      requires i < |lines| == |start| && Stocks(lines) == Replay(start, lines, i)
      requires |ids| == |lines| && ids[i] == lines[i].product.id
      requires productService.productRepository.database == StoreReplay(db, lines, ids, i)
      requires verdict == UpdateVerdict(lines[i].product, keys)
      modifies productService.productRepository`database, lines[i].product`stockQuantity
      ensures productService.Valid() && productService.productRepository.database.Keys == keys
      ensures Stocks(lines) == Replay(start, lines, i + 1)
      ensures r == if lines[i].product.kind.PhysicalKind? then verdict else Pass
      ensures r.Pass? ==> productService.productRepository.database == StoreReplay(db, lines, ids, i + 1)
      ensures r.Fail? ==> productService.productRepository.database == old(productService.productRepository.database)
    {
      if lines[i].product.kind.PhysicalKind? {
        GiveBack(lines, i, start);
        r := productService.StoreAgain(lines[i].product);
      } else {
        ReplaySkip(start, lines, i);
        r := Pass;
      }
    }

    /** The stock loop of `cancelOrder`: each physical item's units go back
        to its product, which is stored again through `updateProduct`. The
        first product that `updateProduct` refuses ends the loop, with its
        own units already given back. `processed` is the index of that
        item, or the number of items when none is refused. */
    method RestoreStock(lines: seq<Line>) returns (r: Outcome<Failure>, ghost processed: nat)
      requires productService.Valid()
      modifies productService.productRepository`database, set j | 0 <= j < |lines| :: lines[j].product`stockQuantity
      ensures productService.Valid()
      ensures productService.productRepository.database.Keys == old(productService.productRepository.database.Keys)
      ensures Restored(lines, old(Stocks(lines)), old(Verdicts(lines, productService.productRepository.database.Keys)), r, processed)
      ensures productService.productRepository.database == StoreReplay(old(productService.productRepository.database), lines, old(Ids(lines)), processed)
    {
      ghost var ids := Ids(lines);
      ghost var start := Stocks(lines);
      ghost var db := productService.productRepository.database;
      ghost var keys := productService.productRepository.database.Keys;
      ghost var verdicts := Verdicts(lines, keys);
      var i := 0;
      while i < |lines|
        invariant 0 <= i <= |lines| && productService.Valid()
        invariant productService.productRepository.database.Keys == keys
        invariant StopFrom(verdicts, lines, i) == StopFrom(verdicts, lines, 0)
        invariant Stocks(lines) == Replay(start, lines, i)
        invariant productService.productRepository.database == StoreReplay(db, lines, ids, i)
      {
        r := RestoreItem(lines, i, start, keys, verdicts[i], db, ids);
        if r.Fail? {
          processed := i;
          return;
        }
        i := i + 1;
      }
      r, processed := Pass, i;
    }

    /** `cancelOrder` once the order is found: it is cancelled unless it
        was DELIVERED, and then, whatever its status, the units of its
        physical items go back to their products one item at a time, each
        product stored again through `updateProduct`. A product that is
        refused stops the loop with the failure, after its own units went
        back and before the order is written back. */
    method CancelFound(order: Order, ghost id: int) returns (r: Outcome<Failure>, ghost lines: seq<Line>, ghost processed: nat)
      requires Valid() && id in orderRepository.database && orderRepository.database[id] == order
      modifies orderRepository`database, order`status
      modifies productService.productRepository`database, ProductsOf(order.items)`stockQuantity
      ensures Valid()
      ensures orderRepository.database == old(orderRepository.database)
      ensures productService.productRepository.database.Keys == old(productService.productRepository.database.Keys)
      ensures lines == old(LinesOf(order.items)) && order.status == Step(old(order.status), Cancel)
      ensures Restored(lines, old(Stocks(lines)), old(Verdicts(lines, productService.productRepository.database.Keys)), r, processed)
      ensures productService.productRepository.database == StoreReplay(old(productService.productRepository.database), lines, old(Ids(lines)), processed)
    {
      var toRestore := LinesOf(order.items);
      lines := toRestore;
      ghost var db := productService.productRepository.database;
      ghost var ids := Ids(toRestore);
      MarkCancelled(order, toRestore);
      r, processed := RestoreStock(toRestore);
      ghost var restored := productService.productRepository.database;
      assert restored == StoreReplay(db, lines, ids, processed);
      assert orderRepository.Valid();
      if r.Pass? {
        WriteBack(order, id);
      }
      assert productService.productRepository.database == restored;
    }

    /** The status step of `cancelOrder`, which touches neither the stores
        nor the stock the lines will give back to. */
    method MarkCancelled(order: Order, lines: seq<Line>)
      requires Valid() && order in orderRepository.database.Values
      modifies order`status
      ensures Valid() && order.status == Step(old(order.status), Cancel)
      ensures Stocks(lines) == old(Stocks(lines)) && Ids(lines) == old(Ids(lines))
      ensures Verdicts(lines, productService.productRepository.database.Keys) == old(Verdicts(lines, productService.productRepository.database.Keys))
    {
      order.CancelOrder();
    }

    /** Saving the order again under its own id leaves the store as it was. */
    method WriteBack(order: Order, ghost id: int)
      requires Valid() && id in orderRepository.database && orderRepository.database[id] == order
      modifies orderRepository`database
      ensures Valid() && orderRepository.database == old(orderRepository.database)
    {
      var _ := orderRepository.Update(order);
      assert orderRepository.database == old(orderRepository.database)[id := order];
    }

    /** `cancelOrder(orderId)`: an unknown id fails and changes nothing;
        otherwise `CancelFound` on the stored order. `lines` are the
        order's items as (product, quantity) pairs and `processed` the
        index of the item whose product was refused, or their number. */
    method CancelOrder(orderId: Option<int>) returns (r: Outcome<Failure>, ghost lines: seq<Line>, ghost processed: nat)
      requires Valid()
      modifies orderRepository`database, Stored(orderId)`status
      modifies productService.productRepository`database, StoredProducts(orderId)`stockQuantity
      ensures Valid()
      ensures orderRepository.database == old(orderRepository.database)
      ensures productService.productRepository.database.Keys == old(productService.productRepository.database.Keys)
      ensures !orderRepository.ExistsById(orderId) ==>
        r == Fail(NotFound) && productService.productRepository.database == old(productService.productRepository.database)
      ensures orderRepository.ExistsById(orderId) ==>
        var o := orderRepository.database[orderId.value];
        lines == old(LinesOf(o.items)) && o.status == Step(old(o.status), Cancel)
      ensures orderRepository.ExistsById(orderId) ==>
        Restored(lines, old(Stocks(lines)), old(Verdicts(lines, productService.productRepository.database.Keys)), r, processed)
      ensures orderRepository.ExistsById(orderId) ==>
        productService.productRepository.database == StoreReplay(old(productService.productRepository.database), lines, old(Ids(lines)), processed)
    {
      var found := GetOrder(orderId);
      if found.Failure? {
        return Fail(found.error), [], 0;
      }
      r, lines, processed := CancelFound(found.value, orderId.value);
    }

    /** Cancelling a stored order whose one item is `quantity` units of a
        physical product that `updateProduct` accepts passes and gives
        those units back. */
    method CancelSingle(orderId: Option<int>, product: Product, quantity: Int32) returns (r: Outcome<Failure>)
      requires Valid() && orderRepository.ExistsById(orderId)
      requires LinesOf(orderRepository.database[orderId.value].items) == [Line(product, quantity)]
      requires product.kind.PhysicalKind? && productService.Updatable(product)
      modifies orderRepository`database, Stored(orderId)`status
      modifies productService.productRepository`database, product`stockQuantity
      ensures Valid() && r == Pass && product.stockQuantity == Wrap32(old(product.stockQuantity) + quantity)
    {
      ghost var before := product.stockQuantity;
      ghost var items := orderRepository.database[orderId.value].items;
      assert ProductsOf(items) == {product} by {
        assert items[0].product == product;
      }
      ghost var single := [Line(product, quantity)];
      assert Stocks(single) == [product.stockQuantity];
      assert Verdicts(single, productService.productRepository.database.Keys) == [Pass];
      ghost var lines, processed;
      r, lines, processed := CancelOrder(orderId);
      assert lines == single;
      RestoredOne(product, quantity, before, r, processed);
    }

    /** A stored product holding ten units, three of them added to an
        empty stored order, holds seven; cancelling the order through
        `cancelOrder` gives them back, to ten. */
    method AddThenCancel(orderId: Option<int>, product: Product) returns (added: Outcome<Failure>, left: Int32, cancelled: Outcome<Failure>)
      requires Valid() && orderRepository.ExistsById(orderId) && orderRepository.database[orderId.value].items == []
      requires product.kind.PhysicalKind? && product.stockQuantity == 10 && productService.Updatable(product)
      modifies orderRepository`database, productService.productRepository`database
      modifies Stored(orderId)`items, Stored(orderId)`subtotal, Stored(orderId)`shippingCost, Stored(orderId)`totalAmount
      modifies Stored(orderId)`status, product`stockQuantity
      ensures added == Pass && left == 7
      ensures cancelled == Pass && product.stockQuantity == 10
    {
      added := AddItemToOrder(orderId, product, 3);
      left := product.stockQuantity;
      assert LinesOf(orderRepository.database[orderId.value].items) == [Line(product, 3)];
      cancelled := CancelSingle(orderId, product, 3);
    }

    /** `deleteOrder(id)`: an unknown id fails; otherwise the entry goes. */
    method DeleteOrder(id: Option<int>) returns (r: Outcome<Failure>)
      requires Valid()
      modifies orderRepository`database
      ensures Valid()
      ensures r.Fail? <==> !old(orderRepository.ExistsById(id))
      ensures r.Fail? ==> r.error == NotFound && orderRepository.database == old(orderRepository.database)
      ensures r.Pass? ==> orderRepository.database == old(orderRepository.database) - {id.value}
    {
      if !orderRepository.ExistsById(id) {
        return Fail(NotFound);
      }
      r := orderRepository.Delete(id);
    }

    /** `calculateTotalRevenue()`: the total amounts of the DELIVERED
        orders, added up over the stored orders in any order. */
    method CalculateTotalRevenue() returns (total: real)
      ensures total == RevenueOver(orderRepository.database, orderRepository.database.Keys)
    {
      var db := orderRepository.database;
      var left := db.Keys;
      total := 0.0;
      while left != {}
        invariant left <= db.Keys
        invariant total + RevenueOver(db, left) == RevenueOver(db, db.Keys)
        decreases left
      {
        EmptyOrHasKey(left);
        var k :| k in left;
        RevenueRemove(db, left, k);
        total := total + Contribution(db[k]);
        left := left - {k};
      }
    }

    /** `getTotalOrders()`: the number of stored orders. */
    function GetTotalOrders(): (r: nat)
      reads orderRepository
      ensures r == |orderRepository.database.Keys|
    {
      orderRepository.Count()
    }
  }

  // ================================================================ users

  /** UserService. */
  class UserService {
    const userRepository: UserRepository

    ghost predicate Valid()
      reads userRepository, userRepository.database.Values
    {
      userRepository.Valid()
    }

    constructor (userRepository: UserRepository)
      requires userRepository.Valid()
      ensures this.userRepository == userRepository && Valid()
    {
      this.userRepository := userRepository;
    }

    /** The stored user with that id, as a frame. */
    function Stored(id: Option<int>): set<User>
      reads userRepository
    {
      if userRepository.ExistsById(id) then {userRepository.database[id.value]} else {}
    }

    /** `createUser(user)`: validated, refused when a stored user has the
        same email up to case, then saved. A save keeps the stored emails
        apart. */
    method CreateUser(user: User?) returns (r: Result<User, Failure>)
      requires Valid()
      modifies userRepository, (if user == null then {} else {user})`id
      ensures Valid()
      ensures old(ValidateUser(user)).Fail? ==> r == Failure(old(ValidateUser(user)).error)
      ensures old(ValidateUser(user)).Pass? ==>
        (r.Failure? <==> old(userRepository.ExistsByEmail(Some(user.email)))) && (r.Failure? ==> r.error == Conflict)
      ensures r.Failure? ==>
        userRepository.database == old(userRepository.database) && userRepository.nextId == old(userRepository.nextId)
      ensures r.Success? ==>
        && user != null && r.value == user && user.id.Some? && user.email == old(user.email)
        && userRepository.database == old(userRepository.database)[user.id.value := user]
        && (old(user.id).None? ==>
              user.id == Some(old(userRepository.nextId)) && userRepository.nextId == old(userRepository.nextId) + 1)
        && (old(user.id).Some? ==> user.id == old(user.id) && userRepository.nextId == old(userRepository.nextId))
      ensures old(userRepository.EmailsUnique()) ==> userRepository.EmailsUnique()
    {
      var v := ValidateUser(user);
      if v.Fail? {
        return Failure(v.error);
      }
      if userRepository.ExistsByEmail(Some(user.email)) {
        return Failure(Conflict);
      }
      ghost var before := userRepository.database;
      ghost var unique := userRepository.EmailsUnique();
      assert user !in before.Values by {
        EqualsIgnoreCaseIsEquivalence(user.email, user.email, user.email);
        if user in before.Values {
          assert EmailMatches(user, Some(user.email));
        }
      }
      var saved := userRepository.Save(user);
      r := Success(saved);
      if unique {
        forall a, b | a in userRepository.database.Values && b in userRepository.database.Values && EqualsIgnoreCase(a.email, b.email)
          ensures a == b
        {
          if a != user && b == user {
            assert EmailMatches(a, Some(user.email));
          } else if a == user && b != user {
            EqualsIgnoreCaseIsEquivalence(a.email, b.email, a.email);
            assert EmailMatches(b, Some(user.email));
          }
        }
      }
    }

    /** `getUser(id)`. */
    function GetUser(id: Option<int>): (r: Result<User, Failure>)
      reads userRepository
      ensures r.Success? <==> userRepository.ExistsById(id)
      ensures r.Success? ==> r.value == userRepository.database[id.value]
      ensures r.Failure? ==> r.error == NotFound
    {
      match userRepository.FindById(id)
      case Some(u) => Success(u)
      case None => Failure(NotFound)
    }

    /** `getUserByEmail(email)`: a stored user with that email up to case;
        while the stored emails are apart, the only one. */
    method GetUserByEmail(email: Option<string>) returns (r: Result<User, Failure>)
      ensures r.Success? <==> userRepository.ExistsByEmail(email)
      ensures r.Failure? ==> r.error == NotFound
      ensures r.Success? ==> r.value in userRepository.database.Values && EmailMatches(r.value, email)
      ensures r.Success? && userRepository.EmailsUnique() ==>
        forall u :: u in userRepository.database.Values && EmailMatches(u, email) ==> u == r.value
    {
      var found := userRepository.FindByEmail(email);
      if found.None? {
        return Failure(NotFound);
      }
      r := Success(found.value);
      if userRepository.EmailsUnique() {
        forall u | u in userRepository.database.Values && EmailMatches(u, email)
          ensures u == r.value
        {
          EqualsIgnoreCaseIsEquivalence(u.email, email.value, r.value.email);
          EqualsIgnoreCaseIsEquivalence(r.value.email, email.value, u.email);
        }
      }
    }

    /** `updateUser(user)`: validated, then replaced if its id is stored.
        The email is not checked against the other users. */
    method UpdateUser(user: User?) returns (r: Result<User, Failure>)
      requires Valid()
      modifies userRepository`database
      ensures Valid()
      ensures ValidateUser(user).Fail? ==> r == Failure(ValidateUser(user).error)
      ensures ValidateUser(user).Pass? ==>
        (r.Success? <==> old(userRepository.ExistsById(user.id))) && (r.Failure? ==> r.error == NotFound)
      ensures r.Failure? ==> userRepository.database == old(userRepository.database)
      ensures r.Success? ==>
        r.value == user && userRepository.database == old(userRepository.database)[user.id.value := user]
    {
      var v := ValidateUser(user);
      if v.Fail? {
        return Failure(v.error);
      }
      if !userRepository.ExistsById(user.id) {
        return Failure(NotFound);
      }
      r := userRepository.Update(user);
    }

    /** `updateUserEmail(id, newEmail)`: refused when another spelling of
        the email is in use, which takes in the user's own email written
        in another case; the comparison with the user's own email is
        exact. */
    method UpdateUserEmail(id: Option<int>, newEmail: string) returns (r: Result<User, Failure>)
      requires Valid()
      modifies userRepository`database, Stored(id)`email
      ensures Valid() && userRepository.database == old(userRepository.database)
      ensures !userRepository.ExistsById(id) ==> r == Failure(NotFound)
      ensures userRepository.ExistsById(id) ==>
        var u := userRepository.database[id.value];
        && (r.Failure? <==> old(userRepository.ExistsByEmail(Some(newEmail))) && old(u.email) != newEmail)
        && (r.Failure? ==> r.error == Conflict && u.email == old(u.email))
        && (r.Success? ==> r.value == u && u.email == newEmail)
      ensures old(userRepository.EmailsUnique()) ==> userRepository.EmailsUnique()
    {
      var found := GetUser(id);
      if found.Failure? {
        return Failure(found.error);
      }
      var user := found.value;
      UserFoundUnderOwnId(userRepository, id.value);
      if userRepository.ExistsByEmail(Some(newEmail)) && user.email != newEmail {
        return Failure(Conflict);
      }
      assert forall x :: x in userRepository.database.Values && EqualsIgnoreCase(x.email, newEmail) ==> user.email == newEmail by {
        forall x | x in userRepository.database.Values && EqualsIgnoreCase(x.email, newEmail)
          ensures user.email == newEmail
        {
          assert EmailMatches(x, Some(newEmail));
        }
      }
      ghost var unique := userRepository.EmailsUnique();
      user.SetEmail(newEmail);
      r := userRepository.Update(user);
      assert userRepository.database == old(userRepository.database)[id.value := user];
      if unique {
        forall a, b | a in userRepository.database.Values && b in userRepository.database.Values && EqualsIgnoreCase(a.email, b.email)
          ensures a == b
        {
          EqualsIgnoreCaseIsEquivalence(a.email, b.email, a.email);
        }
      }
    }

    /** `deleteUser(id)`. */
    method DeleteUser(id: Option<int>) returns (r: Outcome<Failure>)
      requires Valid()
      modifies userRepository`database
      ensures Valid()
      ensures r.Fail? <==> !old(userRepository.ExistsById(id))
      ensures r.Fail? ==> r.error == NotFound && userRepository.database == old(userRepository.database)
      ensures r.Pass? ==>
        userRepository.database == old(userRepository.database) - {id.value} && GetUser(id) == Failure(NotFound)
    {
      if !userRepository.ExistsById(id) {
        return Fail(NotFound);
      }
      r := userRepository.Delete(id);
    }

    /** `activateUser(id)` (`active` true) and `deactivateUser(id)`
        (`active` false): the stored user's flag, nothing else. */
    method SetUserActive(id: Option<int>, active: bool) returns (r: Outcome<Failure>)
      requires Valid()
      modifies userRepository`database, Stored(id)`active
      ensures Valid() && userRepository.database == old(userRepository.database)
      ensures r.Fail? <==> !userRepository.ExistsById(id)
      ensures r.Fail? ==> r.error == NotFound
      ensures r.Pass? ==> userRepository.database[id.value].active == active
    {
      var found := GetUser(id);
      if found.Failure? {
        return Fail(found.error);
      }
      var user := found.value;
      UserFoundUnderOwnId(userRepository, id.value);
      user.SetActive(active);
      var _ := userRepository.Update(user);
      assert userRepository.database == old(userRepository.database)[id.value := user];
      r := Pass;
    }

    /** `authenticateUser(email, password)`: a stored user with that email
        up to case has exactly that password and is active; a null
        password never matches, since `equals(null)` is false. While the
        stored emails are apart, that user is the only candidate, so the
        answer does not depend on which match the lookup returns. */
    method AuthenticateUser(email: Option<string>, password: Option<string>) returns (r: bool)
      ensures password.None? ==> !r
      ensures r ==> exists u :: u in userRepository.database.Values && EmailMatches(u, email) && Some(u.password) == password && u.active
      ensures !userRepository.ExistsByEmail(email) ==> !r
      ensures userRepository.EmailsUnique() ==>
        (r <==> exists u :: u in userRepository.database.Values && EmailMatches(u, email) && Some(u.password) == password && u.active)
    {
      var found := GetUserByEmail(email);
      r := found.Success? && Some(found.value.password) == password && found.value.active;
    }

    /** `getTotalUsers()`: the number of stored users. */
    function GetTotalUsers(): (r: nat)
      reads userRepository
      ensures r == |userRepository.database.Keys|
    {
      userRepository.Count()
    }
  }
}

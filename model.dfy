/** The entities of the shop: products (physical and digital), users
    (customers and administrators), orders and their line items. The Java
    package is one module here because an order refers to its customer and a
    customer lists its orders. */
module Model {
  import opened Base
  import opened Text

  // ================================================================ products

  /** The variant of a product, fixed when it is built. A physical product's
      shipping cost is quoted once, as a value of its own; a digital
      product ships for nothing. */
  datatype ProductKind = PhysicalKind(shippingQuote: real) | DigitalKind

  /** Product, PhysicalProduct and DigitalProduct. The stock count is used
      by physical products only; the download fields by digital ones only. */
  class Product {
    var id: Option<int>
    var name: string
    var description: string
    var price: real
    var category: string
    var createdAt: Timestamp
    var available: bool
    const kind: ProductKind
    var stockQuantity: Int32
    var downloadUrl: string
    var fileSizeMB: real
    var fileFormat: string
    var downloadLimit: Int32
    var validityDays: Int32

    /** PhysicalProduct's ten-argument constructor, the four dimensions and
        the weight standing as the shipping quote they determine. */
    constructor Physical(id: Option<int>, name: string, description: string, price: real, category: string,
                         shippingQuote: real, stockQuantity: Int32, now: Timestamp)
      ensures this.id == id && this.name == name && this.description == description
      ensures this.price == price && this.category == category
      ensures createdAt == now && available
      ensures kind == PhysicalKind(shippingQuote) && this.stockQuantity == stockQuantity
    {
      this.id := id;
      this.name := name;
      this.description := description;
      this.price := price;
      this.category := category;
      this.createdAt := now;
      this.available := true;
      this.kind := PhysicalKind(shippingQuote);
      this.stockQuantity := stockQuantity;
      this.downloadUrl := "";
      this.fileSizeMB := 0.0;
      this.fileFormat := "";
      this.downloadLimit := 0;
      this.validityDays := 0;
    }

    /** DigitalProduct's ten-argument constructor. */
    constructor Digital(id: Option<int>, name: string, description: string, price: real, category: string,
                        downloadUrl: string, fileSizeMB: real, fileFormat: string,
                        downloadLimit: Int32, validityDays: Int32, now: Timestamp)
      ensures this.id == id && this.name == name && this.description == description
      ensures this.price == price && this.category == category
      ensures createdAt == now && available && kind == DigitalKind
      ensures this.downloadUrl == downloadUrl && this.fileSizeMB == fileSizeMB
      ensures this.fileFormat == fileFormat && this.downloadLimit == downloadLimit
      ensures this.validityDays == validityDays
    {
      this.id := id;
      this.name := name;
      this.description := description;
      this.price := price;
      this.category := category;
      this.createdAt := now;
      this.available := true;
      this.kind := DigitalKind;
      this.stockQuantity := 0;
      this.downloadUrl := downloadUrl;
      this.fileSizeMB := fileSizeMB;
      this.fileFormat := fileFormat;
      this.downloadLimit := downloadLimit;
      this.validityDays := validityDays;
    }

    /** `getProductType()`. */
    function GetProductType(): (r: string)
      ensures r == "PHYSICAL" <==> kind.PhysicalKind?
      ensures r == "DIGITAL" <==> kind.DigitalKind?
    {
      match kind
      case PhysicalKind(_) => "PHYSICAL"
      case DigitalKind => "DIGITAL"
    }

    /** `calculateShipping()`: the quote of a physical product, zero for a
        digital one. */
    function CalculateShipping(): (r: real)
      ensures kind.DigitalKind? ==> r == 0.0
      ensures kind.PhysicalKind? ==> r == kind.shippingQuote
    {
      match kind
      case PhysicalKind(quote) => quote
      case DigitalKind => 0.0
    }

    /** `calculateDiscount(int percentage)`: that percentage of the price,
        exact, since `BigDecimal` division by 100 always terminates. */
    function CalculateDiscountPercent(percentage: Int32): (r: real)
      reads this
      ensures r * 100.0 == price * percentage as real
      ensures percentage == 0 ==> r == 0.0
      ensures percentage == 100 ==> r == price
      ensures 0.0 <= price && 0 <= percentage <= 100 ==> 0.0 <= r <= price
    {
      price * percentage as real / 100.0
    }

    /** `calculateDiscount(BigDecimal discountAmount)`: the amount itself. */
    function CalculateDiscountAmount(discountAmount: real): (r: real)
      ensures r == discountAmount
    {
      discountAmount
    }

    /** `getFinalPrice(int discountPercentage)`: the price less that
        percentage of it, which is the remaining percentage of it. */
    function GetFinalPrice(discountPercentage: Int32): (r: real)
      reads this
      ensures r == price - price * discountPercentage as real / 100.0
      ensures r * 100.0 == price * (100 - discountPercentage) as real
      ensures 0.0 <= price && 0 <= discountPercentage <= 100 ==> 0.0 <= r <= price
    {
      price - CalculateDiscountPercent(discountPercentage)
    }

    method SetPrice(price: real)
      modifies this`price
      ensures this.price == price
    {
      this.price := price;
    }

    method SetAvailable(available: bool)
      modifies this`available
      ensures this.available == available
    {
      this.available := available;
    }

    // ---- PhysicalProduct

    /** `hasStock()`: at least one unit, that is, stock for one. */
    predicate HasStock()
      requires kind.PhysicalKind?
      reads this
      ensures HasStock() <==> HasStockFor(1)
    {
      stockQuantity > 0
    }

    /** `hasStock(int quantity)`. When it holds for a quantity that is
        not negative, taking that quantity off cannot wrap around; for a
        negative quantity it holds whenever the stock is not negative. */
    predicate HasStockFor(quantity: Int32)
      requires kind.PhysicalKind?
      reads this
      ensures HasStockFor(quantity) && quantity >= 0 ==> 0 <= stockQuantity - quantity <= MAX_INT
      ensures quantity < 0 && stockQuantity >= 0 ==> HasStockFor(quantity)
    {
      stockQuantity >= quantity
    }

    /** `reduceStock(quantity)`: takes `quantity` units when there are that
        many, in `int` arithmetic; otherwise throws and changes nothing. */
    method ReduceStock(quantity: Int32) returns (r: Outcome<Failure>)
      requires kind.PhysicalKind?
      modifies this`stockQuantity
      ensures r == if old(HasStockFor(quantity)) then Pass else Fail(InsufficientStock)
      ensures stockQuantity == if r.Pass? then Wrap32(old(stockQuantity) - quantity) else old(stockQuantity)
      ensures r.Pass? && quantity >= 0 ==> 0 <= stockQuantity == old(stockQuantity) - quantity
    {
      if HasStockFor(quantity) {
        stockQuantity := Wrap32(stockQuantity - quantity);
        r := Pass;
      } else {
        r := Fail(InsufficientStock);
      }
    }

    /** `addStock(quantity)`: adds without any check, in `int` arithmetic. */
    method AddStock(quantity: Int32)
      requires kind.PhysicalKind?
      modifies this`stockQuantity
      ensures stockQuantity == Wrap32(old(stockQuantity) + quantity)
    {
      stockQuantity := Wrap32(stockQuantity + quantity);
    }

    // ---- DigitalProduct

    /** `generateDownloadLink()`, the clock reading passed in. */
    function GenerateDownloadLink(nowMillis: int): (r: string)
      requires kind.DigitalKind?
      reads this
      ensures |r| > |downloadUrl| + 7 && r[..|downloadUrl| + 7] == downloadUrl + "?token="
      ensures nowMillis >= 0 ==>
        AllDigits(r[|downloadUrl| + 7..]) && DecimalValue(r[|downloadUrl| + 7..]) == nowMillis
    {
      var token := LongToString(nowMillis);
      var r := downloadUrl + "?token=" + token;
      assert r[|downloadUrl| + 7..] == token;
      if nowMillis >= 0 then NatToStringRoundTrip(nowMillis); r else r
    }

    method SetDownloadUrl(downloadUrl: string)
      requires kind.DigitalKind?
      modifies this`downloadUrl
      ensures this.downloadUrl == downloadUrl
    {
      this.downloadUrl := downloadUrl;
    }

    method SetFileSizeMB(fileSizeMB: real)
      requires kind.DigitalKind?
      modifies this`fileSizeMB
      ensures this.fileSizeMB == fileSizeMB
    {
      this.fileSizeMB := fileSizeMB;
    }

    method SetFileFormat(fileFormat: string)
      requires kind.DigitalKind?
      modifies this`fileFormat
      ensures this.fileFormat == fileFormat
    {
      this.fileFormat := fileFormat;
    }

    method SetDownloadLimit(downloadLimit: Int32)
      requires kind.DigitalKind?
      modifies this`downloadLimit
      ensures this.downloadLimit == downloadLimit
    {
      this.downloadLimit := downloadLimit;
    }

    method SetValidityDays(validityDays: Int32)
      requires kind.DigitalKind?
      modifies this`validityDays
      ensures this.validityDays == validityDays
    {
      this.validityDays := validityDays;
    }
  }

  /** The percentage discount and the final price split the price between
      them; 0% leaves the price, 100% takes all of it, and a percentage in
      between keeps a non-negative price within bounds. */
  lemma FinalPriceSplitsPrice(p: Product, percentage: Int32)
    ensures p.GetFinalPrice(percentage) + p.CalculateDiscountPercent(percentage) == p.price
    ensures p.GetFinalPrice(0) == p.price
    ensures p.GetFinalPrice(100) == 0.0
    ensures p.price >= 0.0 && 0 <= percentage <= 100 ==> 0.0 <= p.GetFinalPrice(percentage) <= p.price
  {
    if p.price >= 0.0 && 0 <= percentage <= 100 {
      assert p.price * percentage as real <= p.price * 100.0;
    }
  }

  /** `hasStock()` is `hasStock(1)`, and asking for less never fails where
      asking for more succeeds. */
  lemma StockChecksAgree(p: Product, q: Int32, q': Int32)
    requires p.kind.PhysicalKind?
    ensures p.HasStock() <==> p.HasStockFor(1)
    ensures q' <= q && p.HasStockFor(q) ==> p.HasStockFor(q')
  {
  }

  // ================================================================ users

  datatype UserKind = CustomerKind | AdminKind

  /** The four permissions every new administrator gets. */
  function DefaultPermissions(): seq<string> {
    ["CREATE", "READ", "UPDATE", "DELETE"]
  }

  /** User, Customer and Admin. The base fields are those the services
      read and write; cpf, address, phone and orders belong to customers,
      department, employeeCode and permissions to administrators. */
  class User {
    var id: Option<int>
    var name: string
    var email: string
    var password: string
    var active: bool
    const kind: UserKind
    var cpf: string
    var address: string
    var phone: string
    var orders: seq<Order>
    var department: string
    var employeeCode: string
    var permissions: seq<string>

    /** Customer's seven-argument constructor. */
    constructor Customer(id: Option<int>, name: string, email: string, password: string,
                         cpf: string, address: string, phone: string)
      ensures this.id == id && this.name == name && this.email == email && this.password == password
      ensures active && kind == CustomerKind
      ensures this.cpf == cpf && this.address == address && this.phone == phone
      ensures orders == []
    {
      this.id := id;
      this.name := name;
      this.email := email;
      this.password := password;
      this.active := true;
      this.kind := CustomerKind;
      this.cpf := cpf;
      this.address := address;
      this.phone := phone;
      this.orders := [];
      this.department := "";
      this.employeeCode := "";
      this.permissions := [];
    }

    /** Admin's six-argument constructor. */
    constructor Admin(id: Option<int>, name: string, email: string, password: string,
                      department: string, employeeCode: string)
      ensures this.id == id && this.name == name && this.email == email && this.password == password
      ensures active && kind == AdminKind
      ensures this.department == department && this.employeeCode == employeeCode
      ensures permissions == DefaultPermissions()
    {
      this.id := id;
      this.name := name;
      this.email := email;
      this.password := password;
      this.active := true;
      this.kind := AdminKind;
      this.cpf := "";
      this.address := "";
      this.phone := "";
      this.orders := [];
      this.department := department;
      this.employeeCode := employeeCode;
      this.permissions := DefaultPermissions();
    }

    /** `getUserType()`. */
    function GetUserType(): (r: string)
      ensures r == "CUSTOMER" <==> kind.CustomerKind?
      ensures r == "ADMIN" <==> kind.AdminKind?
    {
      match kind
      case CustomerKind => "CUSTOMER"
      case AdminKind => "ADMIN"
    }

    method SetEmail(email: string)
      modifies this`email
      ensures this.email == email
    {
      this.email := email;
    }

    method SetActive(active: bool)
      modifies this`active
      ensures this.active == active
    {
      this.active := active;
    }

    // ---- Customer

    /** `addOrder(order)`: appends to the customer's list. */
    method AddOrder(order: Order)
      requires kind.CustomerKind?
      modifies this`orders
      ensures orders == old(orders) + [order]
    {
      orders := orders + [order];
    }

    method SetOrders(orders: seq<Order>)
      requires kind.CustomerKind?
      modifies this`orders
      ensures this.orders == orders
    {
      this.orders := orders;
    }

    // ---- Admin

    /** `hasPermission(permission)`: exact, case-sensitive membership. */
    predicate HasPermission(permission: string)
      requires kind.AdminKind?
      reads this
      ensures HasPermission(permission) <==> exists i :: 0 <= i < |permissions| && permissions[i] == permission
    {
      permission in permissions
    }

    method SetPermissions(permissions: seq<string>)
      requires kind.AdminKind?
      modifies this`permissions
      ensures this.permissions == permissions
      ensures forall p :: HasPermission(p) <==> p in permissions
    {
      this.permissions := permissions;
    }
  }

  /** A new administrator holds each of the four default permissions and
      nothing else; the match is case-sensitive. */
  lemma NewAdminPermissions(a: User, p: string)
    requires a.kind.AdminKind? && a.permissions == DefaultPermissions()
    ensures a.HasPermission(p) <==> p == "CREATE" || p == "READ" || p == "UPDATE" || p == "DELETE"
    ensures !a.HasPermission("create")
  {
  }

  // ================================================================ order items

  /** OrderItem: a product, a quantity, and the unit price copied from the
      product when the item was made. */
  class OrderItem {
    var id: Option<int>
    var product: Product
    var quantity: Int32
    var unitPrice: real
    var totalPrice: real

    /** `totalPrice = unitPrice × quantity`. */
    predicate PriceConsistent()
      reads this
    {
      totalPrice == unitPrice * quantity as real
    }

    /** `OrderItem(id, product, quantity)`: snapshots the product's price. */
    constructor (id: Option<int>, product: Product, quantity: Int32)
      ensures this.id == id && this.product == product && this.quantity == quantity
      ensures unitPrice == product.price && PriceConsistent()
    {
      this.id := id;
      this.product := product;
      this.quantity := quantity;
      this.unitPrice := product.price;
      this.totalPrice := product.price * quantity as real;
    }

    /** `calculateTotal()`. */
    method CalculateTotal()
      modifies this`totalPrice
      ensures PriceConsistent()
    {
      totalPrice := unitPrice * quantity as real;
    }

    /** `setProduct(product)`: takes a new snapshot of the price. */
    method SetProduct(product: Product)
      modifies this`product, this`unitPrice, this`totalPrice
      ensures this.product == product && unitPrice == product.price && PriceConsistent()
    {
      this.product := product;
      this.unitPrice := product.price;
      CalculateTotal();
    }

    method SetQuantity(quantity: Int32)
      modifies this`quantity, this`totalPrice
      ensures this.quantity == quantity && PriceConsistent()
    {
      this.quantity := quantity;
      CalculateTotal();
    }

    method SetUnitPrice(unitPrice: real)
      modifies this`unitPrice, this`totalPrice
      ensures this.unitPrice == unitPrice && PriceConsistent()
    {
      this.unitPrice := unitPrice;
      CalculateTotal();
    }
  }

  /** Quantities are not checked: with a non-negative price a zero or
      negative quantity gives a zero or negative line total. */
  lemma NonPositiveQuantityTotal(item: OrderItem)
    requires item.PriceConsistent() && item.unitPrice >= 0.0 && item.quantity <= 0
    ensures item.totalPrice <= 0.0
    ensures item.quantity == 0 ==> item.totalPrice == 0.0
  {
  }

  // ================================================================ orders

  datatype OrderStatus = Pending | Confirmed | Processing | Shipped | Delivered | Cancelled

  /** The five status-changing calls of an order. */
  datatype Transition = Confirm | Process | Ship | Deliver | Cancel

  /** The status machine: each call moves one step forward from its one
      source state, cancelling works from any state but DELIVERED, and
      every other call leaves the status as it is. */
  function Step(s: OrderStatus, t: Transition): (r: OrderStatus)
    ensures r == s || Rank(s) < Rank(r)
    ensures s == Delivered || s == Cancelled ==> r == s
  {
    match t
    case Confirm => if s == Pending then Confirmed else s
    case Process => if s == Confirmed then Processing else s
    case Ship => if s == Processing then Shipped else s
    case Deliver => if s == Shipped then Delivered else s
    case Cancel => if s != Delivered then Cancelled else s
  }

  /** The status after a run of calls. */
  function Run(s: OrderStatus, ts: seq<Transition>): (r: OrderStatus)
    decreases |ts|
  {
    if ts == [] then s else Run(Step(s, ts[0]), ts[1..])
  }

  /** Position along the forward path. */
  function Rank(s: OrderStatus): (r: nat) {
    match s
    case Pending => 0
    case Confirmed => 1
    case Processing => 2
    case Shipped => 3
    case Delivered => 4
    case Cancelled => 5
  }

  /** DELIVERED and CANCELLED are terminal: no run of calls leaves them. */
  lemma {:induction false} TerminalStatesAbsorb(s: OrderStatus, ts: seq<Transition>)
    requires s == Delivered || s == Cancelled
    ensures Run(s, ts) == s
    decreases |ts|
  {
    if ts != [] {
      TerminalStatesAbsorb(Step(s, ts[0]), ts[1..]);
    }
  }

  /** A run never moves an order backwards: it ends cancelled, or no
      earlier on the path than it started. */
  lemma {:induction false} RunNeverGoesBack(s: OrderStatus, ts: seq<Transition>)
    ensures Run(s, ts) == Cancelled || Rank(s) <= Rank(Run(s, ts))
    decreases |ts|
  {
    if ts != [] {
      RunNeverGoesBack(Step(s, ts[0]), ts[1..]);
    }
  }

  /** DELIVERED is entered only by delivering a SHIPPED order, and
      CANCELLED only by cancelling. */
  lemma StepEntries(s: OrderStatus, t: Transition)
    ensures Step(s, t) == Delivered && s != Delivered ==> s == Shipped && t == Deliver
    ensures Step(s, t) == Cancelled && s != Cancelled ==> t == Cancel
    ensures Step(s, Cancel) == Cancelled <==> s != Delivered
  {
  }

  /** Every status can be reached from PENDING. */
  lemma EveryStatusReachable(s: OrderStatus)
    ensures exists ts :: Run(Pending, ts) == s
  {
    assert Run(Delivered, []) == Delivered;
    assert Run(Shipped, [Deliver]) == Delivered;
    assert Run(Processing, [Ship, Deliver]) == Delivered;
    assert Run(Confirmed, [Process, Ship, Deliver]) == Delivered;
    assert Run(Pending, [Confirm, Process, Ship, Deliver]) == Delivered;
    assert Run(Pending, [Confirm, Process, Ship]) == Shipped;
    assert Run(Pending, [Confirm, Process]) == Processing;
    assert Run(Pending, [Confirm]) == Confirmed;
    assert Run(Pending, [Cancel]) == Cancelled;
    assert Run(Pending, []) == Pending;
  }

  /** The sum of the line totals: the first stream reduction of
      `calculateTotals`. */
  function SubtotalOf(items: seq<OrderItem>): (r: real)
    reads items
    ensures (forall i :: 0 <= i < |items| ==> items[i].totalPrice >= 0.0) ==> r >= 0.0
  {
    if items == [] then 0.0 else items[0].totalPrice + SubtotalOf(items[1..])
  }

  /** The sum of each item's product shipping, once per item whatever its
      quantity: the second stream reduction of `calculateTotals`. */
  function ShippingOf(items: seq<OrderItem>): (r: real)
    reads items
    ensures (forall i :: 0 <= i < |items| ==> items[i].product.CalculateShipping() >= 0.0) ==> r >= 0.0
  {
    if items == [] then 0.0 else items[0].product.CalculateShipping() + ShippingOf(items[1..])
  }

  lemma {:induction false} SumsConcat(a: seq<OrderItem>, b: seq<OrderItem>)
    ensures SubtotalOf(a + b) == SubtotalOf(a) + SubtotalOf(b)
    ensures ShippingOf(a + b) == ShippingOf(a) + ShippingOf(b)
  {
    if a == [] {
      assert a + b == b;
    } else {
      assert (a + b)[1..] == a[1..] + b;
      SumsConcat(a[1..], b);
    }
  }

  /** Digital products add nothing to the shipping, whatever the quantity. */
  lemma {:induction false} DigitalItemsShipFree(items: seq<OrderItem>)
    requires forall i :: 0 <= i < |items| ==> items[i].product.kind.DigitalKind?
    ensures ShippingOf(items) == 0.0
  {
    if items != [] {
      DigitalItemsShipFree(items[1..]);
    }
  }

  /** The position of the first occurrence of `item`, by reference. */
  function FirstIndexOf(items: seq<OrderItem>, item: OrderItem): (k: nat)
    requires item in items
    ensures k < |items| && items[k] == item && item !in items[..k]
  {
    if items[0] == item then 0
    else
      var k := FirstIndexOf(items[1..], item);
      assert items[..k + 1] == [items[0]] + items[1..][..k];
      k + 1
  }

  /** `List.remove(Object)` without an `equals` of OrderItem: drops the
      first occurrence of that very item, keeping the others in order, or
      changes nothing when the item is absent. */
  function RemoveFirst(items: seq<OrderItem>, item: OrderItem): (r: seq<OrderItem>)
    ensures item !in items ==> r == items
    ensures item in items ==>
      (var k := FirstIndexOf(items, item);
       |r| == |items| - 1 && r[..k] == items[..k] && r[k..] == items[k + 1..])
    ensures multiset(r) == multiset(items) - multiset{item}
  {
    if item in items then
      var k := FirstIndexOf(items, item);
      assert items == items[..k] + [item] + items[k + 1..];
      items[..k] + items[k + 1..]
    else
      assert multiset(items)[item] == 0;
      items
  }

  /** The sums split around any position. */
  lemma SumsSplitAt(items: seq<OrderItem>, k: nat)
    requires k < |items|
    ensures SubtotalOf(items) == SubtotalOf(items[..k]) + items[k].totalPrice + SubtotalOf(items[k + 1..])
    ensures ShippingOf(items) == ShippingOf(items[..k]) + items[k].product.CalculateShipping() + ShippingOf(items[k + 1..])
  {
    var tail := items[k..];
    assert items == items[..k] + tail;
    SumsConcat(items[..k], tail);
    assert tail[1..] == items[k + 1..];
  }

  /** Removing an item takes exactly its line total and its shipping off
      the sums. */
  lemma SumsRemoveFirst(items: seq<OrderItem>, item: OrderItem)
    requires item in items
    ensures SubtotalOf(RemoveFirst(items, item)) == SubtotalOf(items) - item.totalPrice
    ensures ShippingOf(RemoveFirst(items, item)) == ShippingOf(items) - item.product.CalculateShipping()
  {
    var k := FirstIndexOf(items, item);
    var r := RemoveFirst(items, item);
    assert r == items[..k] + items[k + 1..] by {
      assert r == r[..k] + r[k..];
    }
    SumsConcat(items[..k], items[k + 1..]);
    SumsSplitAt(items, k);
  }

  /** Order: the pricing engine and the status machine. */
  class Order {
    var id: Option<int>
    var customer: User?
    var items: seq<OrderItem>
    var subtotal: real
    var shippingCost: real
    var discount: real
    var totalAmount: real
    var status: OrderStatus
    var paymentMethod: string
    var orderDate: Timestamp
    var deliveryDate: Option<Timestamp>

    /** What `calculateTotals` establishes: the subtotal and the shipping
        are the sums over the items, and the total is subtotal plus
        shipping minus discount, not clamped at zero. */
    predicate TotalsConsistent()
      reads this, items
    {
      && subtotal == SubtotalOf(items)
      && shippingCost == ShippingOf(items)
      && totalAmount == subtotal + shippingCost - discount
    }

    /** `Order(id, customer, paymentMethod)`, through `Order()`. */
    constructor (id: Option<int>, customer: User?, paymentMethod: string, now: Timestamp)
      ensures this.id == id && this.customer == customer && this.paymentMethod == paymentMethod
      ensures items == [] && status == Pending && orderDate == now && deliveryDate == None
      ensures subtotal == 0.0 && shippingCost == 0.0 && discount == 0.0 && totalAmount == 0.0
      ensures TotalsConsistent()
    {
      this.id := id;
      this.customer := customer;
      this.items := [];
      this.subtotal := 0.0;
      this.shippingCost := 0.0;
      this.discount := 0.0;
      this.totalAmount := 0.0;
      this.status := Pending;
      this.paymentMethod := paymentMethod;
      this.orderDate := now;
      this.deliveryDate := None;
    }

    /** `calculateTotals()`. */
    method CalculateTotals()
      modifies this`subtotal, this`shippingCost, this`totalAmount
      ensures TotalsConsistent()
    {
      subtotal := SubtotalOf(items);
      shippingCost := ShippingOf(items);
      totalAmount := subtotal + shippingCost - discount;
    }

    /** `addItem(item)`: appends and recomputes; the discount is kept, not
        rescaled. */
    method AddItem(item: OrderItem)
      modifies this`items, this`subtotal, this`shippingCost, this`totalAmount
      ensures items == old(items) + [item]
      ensures TotalsConsistent() && discount == old(discount)
      ensures old(TotalsConsistent()) ==>
        subtotal == old(subtotal) + item.totalPrice
        && shippingCost == old(shippingCost) + item.product.CalculateShipping()
    {
      SumsConcat(items, [item]);
      items := items + [item];
      CalculateTotals();
    }

    /** `removeItem(item)`: drops the first occurrence of that very item
        and recomputes; the discount is kept. */
    method RemoveItem(item: OrderItem)
      modifies this`items, this`subtotal, this`shippingCost, this`totalAmount
      ensures items == RemoveFirst(old(items), item)
      ensures TotalsConsistent() && discount == old(discount)
      ensures old(TotalsConsistent()) && item in old(items) ==>
        subtotal == old(subtotal) - item.totalPrice
        && shippingCost == old(shippingCost) - item.product.CalculateShipping()
    {
      if item in items {
        SumsRemoveFirst(items, item);
      }
      items := RemoveFirst(items, item);
      CalculateTotals();
    }

    /** `setItems(items)`: replaces the list and recomputes. */
    method SetItems(items: seq<OrderItem>)
      modifies this`items, this`subtotal, this`shippingCost, this`totalAmount
      ensures this.items == items
      ensures TotalsConsistent() && discount == old(discount)
    {
      this.items := items;
      CalculateTotals();
    }

    /** `applyDiscount(BigDecimal discountAmount)`: the discount becomes the
        amount, whatever it was, with no range check. */
    method ApplyDiscountAmount(discountAmount: real)
      modifies this`discount, this`subtotal, this`shippingCost, this`totalAmount
      ensures discount == discountAmount && items == old(items)
      ensures TotalsConsistent()
    {
      discount := discountAmount;
      CalculateTotals();
    }

    /** `applyDiscount(int discountPercentage)`: the discount becomes that
        share of the subtotal held at the time of the call, whatever it
        was, with no range check. */
    method ApplyDiscountPercent(discountPercentage: Int32)
      modifies this`discount, this`subtotal, this`shippingCost, this`totalAmount
      ensures discount == old(subtotal) * discountPercentage as real / 100.0 && items == old(items)
      ensures TotalsConsistent()
    {
      discount := subtotal * discountPercentage as real / 100.0;
      CalculateTotals();
    }

    method ConfirmOrder()
      modifies this`status
      ensures status == Step(old(status), Confirm)
    {
      if status == Pending {
        status := Confirmed;
      }
    }

    method ProcessOrder()
      modifies this`status
      ensures status == Step(old(status), Process)
    {
      if status == Confirmed {
        status := Processing;
      }
    }

    method ShipOrder()
      modifies this`status
      ensures status == Step(old(status), Ship)
    {
      if status == Processing {
        status := Shipped;
      }
    }

    /** `deliverOrder()`: also stamps the delivery date, the clock reading
        passed in. */
    method DeliverOrder(now: Timestamp)
      modifies this`status, this`deliveryDate
      ensures status == Step(old(status), Deliver)
      ensures deliveryDate == if old(status) == Shipped then Some(now) else old(deliveryDate)
    {
      if status == Shipped {
        status := Delivered;
        deliveryDate := Some(now);
      }
    }

    method CancelOrder()
      modifies this`status
      ensures status == Step(old(status), Cancel)
    {
      if status != Delivered {
        status := Cancelled;
      }
    }
  }

  /** A price change on the product after the item was made leaves the
      item's prices as they were. */
  method PriceSnapshotScenario() returns (unitPrice: real, totalPrice: real)
    ensures unitPrice == 50.0 && totalPrice == 100.0
  {
    var p := new Product.Physical(Some(1), "Book", "", 50.0, "Books", 12.5, 10, 0);
    var item := new OrderItem(None, p, 2);
    p.SetPrice(80.0);
    unitPrice, totalPrice := item.unitPrice, item.totalPrice;
  }

  /** A percentage discount of 10% on a subtotal of 100 is 10; a fixed
      discount of 5 applied afterwards replaces it. */
  method DiscountScenario() returns (percentTotal: real, amountTotal: real)
    ensures percentTotal == 90.0 && amountTotal == 95.0
  {
    var c := new User.Customer(Some(1), "Ana", "ana@shop.com", "secret1", "", "", "");
    var o := new Order(Some(1), c, "PIX", 0);
    var d := new Product.Digital(Some(2), "E-book", "", 100.0, "Books", "http://x", 1.0, "PDF", 3, 30, 0);
    var item := new OrderItem(None, d, 1);
    o.AddItem(item);
    assert o.subtotal == 100.0 && o.shippingCost == 0.0;
    o.ApplyDiscountPercent(10);
    assert o.discount == 10.0;
    percentTotal := o.totalAmount;
    o.ApplyDiscountAmount(5.0);
    assert o.discount == 5.0;
    amountTotal := o.totalAmount;
  }
}

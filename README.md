# Shop back-end: a Dafny model of the catalog, orders and users

This project models the core of a small Java shop back-end (package
`ecommerce`). The shop has:

- a product catalog of physical goods, which have a stock and a shipping
  price, and digital goods, which have a download link and ship free;
- customers and administrators;
- orders that collect items, add up their prices and move through a
  status machine (PENDING, CONFIRMED, PROCESSING, SHIPPED, DELIVERED and
  CANCELLED).

Three services orchestrate the three in-memory repositories:

- `OrderService` takes stock when an item is added, gives it back on
  cancellation and sums revenue over delivered orders;
- `ProductService` validates and stores products;
- `UserService` validates users, keeps emails apart up to case and
  authenticates.

Two utility classes, `ValidationUtil` and `FormatUtil`, hold the input
checks and the CPF, phone and centring formatters.

The modules follow the Java packages:

| module | Java | form |
|---|---|---|
| `Base` | shared shapes | `Option`, `Result`, `Outcome`, the exceptions as a `Failure` datatype, Java `int` wrap-around |
| `Text` | `java.lang.String` parts in use | `trim`, `replaceAll("[^0-9]", "")`, `equalsIgnoreCase`, `Long.toString` |
| `Format` | `util/FormatUtil` | pure functions and lemmas |
| `Validation` | `util/ValidationUtil` | pure functions: each throw becomes a `Fail(Invalid(message))` with the same message |
| `Model` | `model/*` | classes whose fields the setters update in place |
| `Repository` | `repository/impl/*` | classes over a `map<int, T>` and an id counter |
| `Service` | `service/*` | classes whose methods update the repositories and entities |

The model makes these translations:

- **Class hierarchies.** `Product` stands for `PhysicalProduct` and
  `DigitalProduct`, and `User` for `Customer` and `Admin`. Each is one
  class with a constant `kind`. A variant-only method requires its kind,
  as Java's static type does.
- **Money.** `BigDecimal` money is an exact `real`.
- **Integers.** Java `int` stock and quantities are `Int32`. Every `+=`
  and `-=` wraps through `Wrap32`.
- **Nullable values.** A nullable `Long` id or `String` argument is an
  `Option`. A nullable object argument is a `T?`.
- **Exceptions.** A thrown exception is a `Failure` or `Fail` result.
  A validation failure, `Invalid`, keeps Java's message text. The other
  failures keep only which exception is thrown (see `Base.Failure` under
  "## Left out").
- **Clocks.** `LocalDateTime.now()` and `System.currentTimeMillis()` are
  `now` parameters.
- **String lengths.** A Dafny `string` is a sequence of code points.
  `String.length()` counts UTF-16 units, so the password check and the
  centring padding use `Text.Utf16Length`, which counts a code point
  above U+FFFF twice.

**Cancelling a DELIVERED order.** The status machine makes cancellation
impossible from DELIVERED, and `Order.cancelOrder` does nothing there.
`OrderService.cancelOrder`, however, still gives every physical item's
units back to stock and stores the order again. The model follows the
code: `Service.OrderService.CancelOrder` restores stock whatever the
status was.

**`updateProduct` inside the stock loop.** That loop calls
`updateProduct`, which validates and can throw. When it throws, the
loop stops with the stock of the lines up to and including the refused
one already given back, since `addStock` runs before `updateProduct`,
and the order already marked cancelled in memory. The model states exactly
this outcome, through the `Restored` predicate.

`src/ecommerce/model/User.java` is not part of this model. The fields of
`User` (id, name, email, password, active) are taken from the accessors
that the other classes call.

## Model

| member | source | states |
|---|---|---|
| Base.Wrap32 | src/ecommerce/model/PhysicalProduct.java:63-70 | the Java `int` a result wraps to: equal to it when in range, congruent modulo 2^32 always |
| Base.Wrap32AddWrap32 | src/ecommerce/model/PhysicalProduct.java:69-71 | wrapping after every `+=` is the same as wrapping the exact sum once |
| Base.StockRoundTrip | src/ecommerce/model/PhysicalProduct.java:61-71 | taking units off an `int` stock and adding them back restores it, even across wrap-around |
| Text.TrimStart | src/ecommerce/util/ValidationUtil.java:16 | a suffix of the input whose dropped prefix is all chars up to U+0020 and which does not start with one |
| Text.TrimEnd | src/ecommerce/util/ValidationUtil.java:16 | a prefix of the input whose dropped suffix is all trimmable chars and which does not end with one |
| Text.Trim | src/ecommerce/util/ValidationUtil.java:16 | `trim()` neither starts nor ends with a trimmable char and is no longer than the input |
| Text.BlankIffTrimEmpty | src/ecommerce/util/ValidationUtil.java:15-19 | `s.trim().isEmpty()` holds exactly when every char of `s` is trimmable |
| Text.Digits | src/ecommerce/util/ValidationUtil.java:58 | the digit filter keeps only digits and never lengthens |
| Text.DigitsAppend | src/ecommerce/util/FormatUtil.java:27 | the digit filter distributes over concatenation |
| Text.DigitsOfDigits | src/ecommerce/util/FormatUtil.java:27 | a string of digits passes through the filter unchanged |
| Text.DigitsOfNonDigits | src/ecommerce/util/FormatUtil.java:27 | a string without digits filters to empty |
| Text.BlankHasNoDigits | src/ecommerce/util/ValidationUtil.java:56-63 | a blank string has no digits, so it would also fail the digit-count check |
| Text.ToLowerAscii | src/ecommerce/repository/impl/UserRepositoryImpl.java:65 | lower-casing maps A-Z 32 code points up, to a-z, and fixes every other char |
| Text.EqualsIgnoreCaseIsEquivalence | src/ecommerce/repository/impl/UserRepositoryImpl.java:63-73 | `equalsIgnoreCase` is reflexive, symmetric and transitive |
| Text.EqualsIgnoreCaseIsCoarser | src/ecommerce/repository/impl/ProductRepositoryImpl.java:65-69 | equal strings match ignoring case, and case-only differences also match |
| Text.LongToString | src/ecommerce/model/DigitalProduct.java:53 | `Long.toString` is digits, after a minus sign for a negative number |
| Text.NatToStringRoundTrip | src/ecommerce/model/DigitalProduct.java:53 | reading the decimal rendering of a natural number back gives the number |
| Text.Utf16Units | src/ecommerce/util/FormatUtil.java:65 | a char above U+FFFF takes two UTF-16 units, any other char one |
| Text.Utf16Length | src/ecommerce/util/FormatUtil.java:65 | `String.length()` counts UTF-16 units: at least the number of chars, at most twice it, zero only for the empty string |
| Text.Utf16LengthAppend | src/ecommerce/util/FormatUtil.java:66 | the UTF-16 length of a concatenation is the sum of the lengths |
| Text.Utf16LengthBmp | src/ecommerce/util/ValidationUtil.java:40 | text within the Basic Multilingual Plane has one unit per char |
| Format.FormatCPF | src/ecommerce/util/FormatUtil.java:26-36 | with 11 digits the result is the mask `ddd.ddd.ddd-dd`, otherwise the input unchanged |
| Format.CpfDigits | src/ecommerce/util/FormatUtil.java:31-35 | the CPF mask's digits are its four groups in order |
| Format.FormatCPFKeepsDigits | src/ecommerce/util/FormatUtil.java:26-36 | formatting a CPF keeps exactly its digits, so validation answers the same before and after |
| Format.CpfMaskDigits | src/ecommerce/util/FormatUtil.java:31-35 | the digits of any CPF mask are the mask without its separators |
| Format.FormatCPFIdempotent | src/ecommerce/util/FormatUtil.java:26-36 | formatting a formatted CPF changes nothing |
| Format.FormatPhone | src/ecommerce/util/FormatUtil.java:38-52 | 11 digits give `(dd) ddddd-dddd`, 10 give `(dd) dddd-dddd`, any other count returns the input |
| Format.PhoneMaskOf | src/ecommerce/util/FormatUtil.java:41-49 | the `(%s) %s-%s` rendering of 2, 4 or 5, and 4 digits is a phone mask of the right width |
| Format.PhoneDigits | src/ecommerce/util/FormatUtil.java:41-49 | the digits of a phone mask are its three groups in order |
| Format.FormatPhoneKeepsDigits | src/ecommerce/util/FormatUtil.java:38-52 | formatting a phone keeps exactly its digits |
| Format.FormatPhoneIdempotent | src/ecommerce/util/FormatUtil.java:38-52 | formatting a formatted phone changes nothing |
| Format.TruncDiv | src/ecommerce/util/FormatUtil.java:65 | Java's `/` on `int`: the remainder `a - q * b` has the sign of the dividend and is smaller than the divisor in magnitude |
| Format.CenterPadding | src/ecommerce/util/FormatUtil.java:65 | `(width - length) / 2`: when the subtraction does not overflow, half the room left, rounded toward zero |
| Format.Spaces | src/ecommerce/util/FormatUtil.java:66 | `" ".repeat(n)` is n spaces |
| Format.CenterText | src/ecommerce/util/FormatUtil.java:64-67 | the text, unchanged, after exactly `max(0, (width - length) / 2)` spaces, with Java `int` arithmetic and the length in UTF-16 units |
| Format.SpacesUtf16 | src/ecommerce/util/FormatUtil.java:66 | each padding space is one UTF-16 unit |
| Format.CenterTextCentres | src/ecommerce/util/FormatUtil.java:64-67 | when the text fits, the result stays within the width and the gap on its right is the gap on its left or one more, all in UTF-16 units |
| Format.CenterTextNarrow | src/ecommerce/util/FormatUtil.java:64-67 | text at least as wide as the width is returned unchanged |
| Format.CenterTextWrapsAround | src/ecommerce/util/FormatUtil.java:65 | the `int` subtraction overflows: centring one char in a width of `Integer.MIN_VALUE` gives a string of 2^30 chars |
| Validation.ValidateNotNull | src/ecommerce/util/ValidationUtil.java:9-13 | passes exactly for a non-null object, otherwise fails with the given message |
| Validation.ValidateNotEmpty | src/ecommerce/util/ValidationUtil.java:15-19 | passes exactly for a non-null string with a non-trimmable char, otherwise fails with the given message |
| Validation.ValidatePositive | src/ecommerce/util/ValidationUtil.java:21-25 | passes exactly for a non-null number above zero |
| Validation.FirstAt | src/ecommerce/util/ValidationUtil.java:29 | the index of the first `@`, or the length when there is none |
| Validation.LastDot | src/ecommerce/util/ValidationUtil.java:29 | the index of the last `.`, or -1 |
| Validation.EmailFormatMatches | src/ecommerce/util/ValidationUtil.java:29 | what the executable check accepts matches the regular expression |
| Validation.EmailPatternRecognised | src/ecommerce/util/ValidationUtil.java:29 | every match of the regular expression is accepted by the executable check |
| Validation.RecognisedAt | src/ecommerce/util/ValidationUtil.java:29 | a split at an `@` and a later `.` into local, domain and letter parts is accepted |
| Validation.IsEmailFormatIffPattern | src/ecommerce/util/ValidationUtil.java:29 | the executable check and the regular expression agree on every string |
| Validation.EmailPatternShape | src/ecommerce/util/ValidationUtil.java:29 | a matching email has no char at or below U+0020 and exactly one `@` |
| Validation.PatternNotBlank | src/ecommerce/util/ValidationUtil.java:27-32 | no blank string matches the pattern, so the emptiness check only picks the message |
| Validation.ValidateEmail | src/ecommerce/util/ValidationUtil.java:27-32 | passes exactly on a match of the pattern; null or blank gives "Email cannot be empty", anything else "Invalid email format: " and the email |
| Validation.ValidateUser | src/ecommerce/util/ValidationUtil.java:34-43 | passes exactly for a non-null user with a non-blank name, a matching email and a non-blank password of at least 6 UTF-16 units; each failure carries the first failing check's message, and a bad email fails exactly as `validateEmail` does |
| Validation.CheckProduct | src/ecommerce/util/ValidationUtil.java:47-53 | passes exactly for a non-blank name, a non-blank category and a positive price, failing with the first failing check's message |
| Validation.ValidateProduct | src/ecommerce/util/ValidationUtil.java:45-54 | a null product fails with "Product cannot be null"; otherwise the field checks decide |
| Validation.ValidateCPF | src/ecommerce/util/ValidationUtil.java:56-63 | passes exactly when the string holds 11 digits, with the emptiness message first |
| Validation.ValidatePhone | src/ecommerce/util/ValidationUtil.java:65-72 | passes exactly when the string holds 10 or 11 digits, with the emptiness message first |
| Validation.ValidCPFIsMasked | src/ecommerce/util/ValidationUtil.java:56-63 | a CPF is valid exactly when formatting it gives the mask, and a formatted valid CPF stays valid |
| Validation.ValidPhoneIsMasked | src/ecommerce/util/ValidationUtil.java:65-72 | a phone is valid exactly when formatting it gives one of the two masks, and a formatted valid phone stays valid |
| Model.Product.Physical | src/ecommerce/model/PhysicalProduct.java:16-24 | the fields are the arguments, the product is available and of the physical kind |
| Model.Product.Digital | src/ecommerce/model/DigitalProduct.java:16-24 | the fields are the arguments, the product is available and of the digital kind |
| Model.Product.GetProductType | src/ecommerce/model/PhysicalProduct.java:27-29 | "PHYSICAL" exactly for a physical product and "DIGITAL" exactly for a digital one |
| Model.Product.CalculateShipping | src/ecommerce/model/DigitalProduct.java:48-50 | zero for a digital product, the product's quote for a physical one |
| Model.Product.CalculateDiscountPercent | src/ecommerce/model/Product.java:33-35 | that percentage of the price, exactly: 0% gives zero, 100% the price, and 0..100% of a non-negative price stays within [0, price] |
| Model.Product.GetFinalPrice | src/ecommerce/model/Product.java:41-43 | the price less that percentage of it, which is the remaining percentage of the price, within [0, price] for 0..100% |
| Model.Product.CalculateDiscountAmount | src/ecommerce/model/Product.java:37-39 | a fixed discount is the amount given |
| Model.FinalPriceSplitsPrice | src/ecommerce/model/Product.java:33-43 | final price plus percentage discount is the price; 0% keeps the price, 100% gives zero, and 0..100% stays within [0, price] |
| Model.Product.SetPrice | src/ecommerce/model/Product.java:73-75 | the price becomes the argument |
| Model.Product.SetAvailable | src/ecommerce/model/Product.java:97-99 | availability becomes the argument |
| Model.Product.HasStock | src/ecommerce/model/PhysicalProduct.java:53-55 | `hasStock()` holds exactly when `hasStock(1)` does |
| Model.Product.HasStockFor | src/ecommerce/model/PhysicalProduct.java:57-59 | when it holds for a quantity that is not negative, taking that quantity off cannot wrap around; any negative quantity passes on a non-negative stock |
| Model.StockChecksAgree | src/ecommerce/model/PhysicalProduct.java:53-59 | `hasStock()` is `hasStock(1)`, and enough stock for q is enough for any smaller q |
| Model.Product.ReduceStock | src/ecommerce/model/PhysicalProduct.java:61-67 | with enough stock, the stock drops by the quantity (wrapped); otherwise InsufficientStock and nothing changes |
| Model.Product.AddStock | src/ecommerce/model/PhysicalProduct.java:69-71 | the stock grows by the quantity, wrapped to `int` |
| Model.Product.GenerateDownloadLink | src/ecommerce/model/DigitalProduct.java:52-54 | the URL, then `?token=`, then the clock reading in decimal |
| Model.Product.SetDownloadUrl | src/ecommerce/model/DigitalProduct.java:60-62 | the download URL becomes the argument |
| Model.Product.SetFileSizeMB | src/ecommerce/model/DigitalProduct.java:68-70 | the file size becomes the argument |
| Model.Product.SetFileFormat | src/ecommerce/model/DigitalProduct.java:76-78 | the file format becomes the argument |
| Model.Product.SetDownloadLimit | src/ecommerce/model/DigitalProduct.java:84-86 | the download limit becomes the argument |
| Model.Product.SetValidityDays | src/ecommerce/model/DigitalProduct.java:92-94 | the validity becomes the argument |
| Model.User.Customer | src/ecommerce/model/Customer.java:17-23 | the fields are the arguments, the customer is active and has no orders |
| Model.User.Admin | src/ecommerce/model/Admin.java:15-20 | the fields are the arguments, the admin is active and holds the four default permissions |
| Model.User.GetUserType | src/ecommerce/model/Customer.java:26-28 | "CUSTOMER" exactly for a customer and "ADMIN" exactly for an admin |
| Model.User.SetEmail | src/ecommerce/service/UserService.java:53 | the email becomes the argument |
| Model.User.SetActive | src/ecommerce/service/UserService.java:65-77 | the active flag becomes the argument |
| Model.User.AddOrder | src/ecommerce/model/Customer.java:43-45 | the order is appended to the customer's list |
| Model.User.SetOrders | src/ecommerce/model/Customer.java:75-77 | the list becomes the argument |
| Model.User.SetPermissions | src/ecommerce/model/Admin.java:55-57 | the list becomes the argument, and `hasPermission` then holds exactly for its members |
| Model.User.HasPermission | src/ecommerce/model/Admin.java:39-41 | holds exactly when some entry of the list equals the argument, case-sensitively |
| Model.NewAdminPermissions | src/ecommerce/model/Admin.java:19 | a new admin has exactly CREATE, READ, UPDATE and DELETE, matched case-sensitively |
| Model.OrderItem.constructor | src/ecommerce/model/OrderItem.java:15-21 | the unit price is the product's price at creation and the total is unit price times quantity |
| Model.OrderItem.CalculateTotal | src/ecommerce/model/OrderItem.java:23-25 | the total becomes unit price times quantity |
| Model.OrderItem.SetProduct | src/ecommerce/model/OrderItem.java:39-43 | the product and its current price are taken, and the total follows |
| Model.OrderItem.SetQuantity | src/ecommerce/model/OrderItem.java:49-52 | the quantity is taken and the total follows |
| Model.OrderItem.SetUnitPrice | src/ecommerce/model/OrderItem.java:58-61 | the unit price is taken and the total follows |
| Model.NonPositiveQuantityTotal | src/ecommerce/model/OrderItem.java:23-25 | nothing rejects a zero or negative quantity: its total is zero or negative |
| Model.Step | src/ecommerce/model/Order.java:75-109 | one call either leaves the status as it is or moves it strictly forward in the order PENDING..DELIVERED, CANCELLED; DELIVERED and CANCELLED never move |
| Model.SubtotalOf | src/ecommerce/model/Order.java:53-55 | the sum of the line totals, never negative when no line total is |
| Model.ShippingOf | src/ecommerce/model/Order.java:57-59 | the sum of the products' shipping over the items, never negative when no quote is |
| Model.PriceSnapshotScenario | src/ecommerce/model/OrderItem.java:19-20 | an item made from a product priced 50, quantity 2, keeps unit price 50 and total 100 after the product's price changes to 80 |
| Model.DiscountScenario | src/ecommerce/model/Order.java:64-73 | on a subtotal of 100 with free shipping, a 10% discount gives a total of 90, and a fixed discount of 5 applied afterwards replaces it, giving 95 |
| Model.TerminalStatesAbsorb | src/ecommerce/model/Order.java:75-109 | no run of calls leaves DELIVERED or CANCELLED |
| Model.RunNeverGoesBack | src/ecommerce/model/Order.java:75-109 | a run of calls either cancels or never moves backward along PENDING..DELIVERED |
| Model.StepEntries | src/ecommerce/model/Order.java:75-109 | DELIVERED is entered only by deliver from SHIPPED, CANCELLED only by cancel, and cancel succeeds exactly outside DELIVERED |
| Model.EveryStatusReachable | src/ecommerce/model/Order.java:75-109 | every status is reachable from PENDING |
| Model.SumsConcat | src/ecommerce/model/Order.java:52-62 | subtotal and shipping of concatenated item lists add up |
| Model.DigitalItemsShipFree | src/ecommerce/model/Order.java:57-59 | an order of digital items only has zero shipping |
| Model.FirstIndexOf | src/ecommerce/model/Order.java:48 | the first position of the item in the list |
| Model.RemoveFirst | src/ecommerce/model/Order.java:48 | `List.remove(item)` drops the first occurrence only, keeps the rest in order, or changes nothing when absent |
| Model.SumsSplitAt | src/ecommerce/model/Order.java:52-62 | the sums split around any position |
| Model.SumsRemoveFirst | src/ecommerce/model/Order.java:47-50 | removing an item takes its total off the subtotal and its shipping off the shipping |
| Model.Order.constructor | src/ecommerce/model/Order.java:25-40 | a PENDING order without items, all sums zero, no delivery date |
| Model.Order.CalculateTotals | src/ecommerce/model/Order.java:52-62 | subtotal and shipping are the sums over the items and the total is subtotal + shipping - discount, unclamped |
| Model.Order.AddItem | src/ecommerce/model/Order.java:42-45 | the item is appended, the totals are consistent, and subtotal and shipping grow by the item's share |
| Model.Order.RemoveItem | src/ecommerce/model/Order.java:47-50 | the first occurrence is removed and the sums shrink by its share; the discount is kept |
| Model.Order.SetItems | src/ecommerce/model/Order.java:150-153 | the list is replaced and the totals are consistent again |
| Model.Order.ApplyDiscountAmount | src/ecommerce/model/Order.java:64-67 | the discount becomes the amount and the totals follow |
| Model.Order.ApplyDiscountPercent | src/ecommerce/model/Order.java:69-73 | the discount becomes that percentage of the stored subtotal and the totals follow |
| Model.Order.ConfirmOrder | src/ecommerce/model/Order.java:75-80 | the status takes the confirm step: PENDING to CONFIRMED, otherwise unchanged |
| Model.Order.ProcessOrder | src/ecommerce/model/Order.java:82-87 | CONFIRMED to PROCESSING, otherwise unchanged |
| Model.Order.ShipOrder | src/ecommerce/model/Order.java:89-94 | PROCESSING to SHIPPED, otherwise unchanged |
| Model.Order.DeliverOrder | src/ecommerce/model/Order.java:96-102 | SHIPPED to DELIVERED with the delivery time set, otherwise nothing changes |
| Model.Order.CancelOrder | src/ecommerce/model/Order.java:104-109 | any status but DELIVERED becomes CANCELLED |
| Repository.OrderRepository.constructor | src/ecommerce/repository/impl/OrderRepositoryImpl.java:12-16 | an empty store whose counter starts at 1 |
| Repository.OrderRepository.Save | src/ecommerce/repository/impl/OrderRepositoryImpl.java:18-25 | an order without id takes the counter, which advances; an order with an id keeps it; the order is stored under its id |
| Repository.OrderRepository.Update | src/ecommerce/repository/impl/OrderRepositoryImpl.java:27-34 | NotFound exactly when the id is not stored; otherwise the entry is replaced and the count is unchanged |
| Repository.OrderRepository.Delete | src/ecommerce/repository/impl/OrderRepositoryImpl.java:36-41 | NotFound exactly when the id is not stored; otherwise only that entry goes |
| Repository.OrderRepository.FindById | src/ecommerce/repository/impl/OrderRepositoryImpl.java:44-46 | found exactly when the id is stored, and then a stored order |
| Repository.OrderRepository.FindByCustomerId | src/ecommerce/repository/impl/OrderRepositoryImpl.java:64-68 | a stored order without a customer id throws; otherwise exactly the orders of that customer |
| Repository.OrderRepository.FindByStatus | src/ecommerce/repository/impl/OrderRepositoryImpl.java:71-75 | exactly the stored orders with that status |
| Repository.OrderRepository.ExistsById | src/ecommerce/repository/impl/OrderRepositoryImpl.java:54-56 | a null id is never present |
| Repository.OrderRepository.Count | src/ecommerce/repository/impl/OrderRepositoryImpl.java:59-61 | zero exactly when nothing is stored |
| Repository.OrderRepository.FindAll | src/ecommerce/repository/impl/OrderRepositoryImpl.java:49-51 | every stored order is listed |
| Repository.OrderFoundUnderOwnId | src/ecommerce/repository/impl/OrderRepositoryImpl.java:18-25 | a stored order is found under its key and carries that key as its id |
| Repository.FindByStatusPartitions | src/ecommerce/repository/impl/OrderRepositoryImpl.java:71-75 | every stored order is found under its own status, and different statuses find disjoint sets |
| Repository.ProductRepository.constructor | src/ecommerce/repository/impl/ProductRepositoryImpl.java:13-17 | an empty store whose counter starts at 1 |
| Repository.ProductRepository.Save | src/ecommerce/repository/impl/ProductRepositoryImpl.java:19-26 | as for orders: a fresh id from the counter, or the product's own id |
| Repository.ProductRepository.Update | src/ecommerce/repository/impl/ProductRepositoryImpl.java:28-35 | NotFound exactly when the id is not stored; otherwise the entry is replaced |
| Repository.ProductRepository.Delete | src/ecommerce/repository/impl/ProductRepositoryImpl.java:37-42 | NotFound exactly when the id is not stored; otherwise only that entry goes |
| Repository.ProductRepository.FindById | src/ecommerce/repository/impl/ProductRepositoryImpl.java:45-47 | found exactly when the id is stored |
| Repository.ProductRepository.FindByCategory | src/ecommerce/repository/impl/ProductRepositoryImpl.java:65-69 | exactly the stored products whose category equals the argument ignoring case; none for null |
| Repository.ProductRepository.FindAvailableProducts | src/ecommerce/repository/impl/ProductRepositoryImpl.java:72-76 | exactly the stored available products |
| Repository.ProductRepository.FindByPriceRange | src/ecommerce/repository/impl/ProductRepositoryImpl.java:79-84 | exactly the stored products priced within both bounds inclusive; a null bound throws when it is first unboxed, and gives the empty list when no product unboxes it |
| Repository.ProductRepository.ExistsById | src/ecommerce/repository/impl/ProductRepositoryImpl.java:55-57 | a null id is never present |
| Repository.ProductRepository.Count | src/ecommerce/repository/impl/ProductRepositoryImpl.java:60-62 | zero exactly when nothing is stored |
| Repository.ProductRepository.FindAll | src/ecommerce/repository/impl/ProductRepositoryImpl.java:50-52 | every stored product is listed |
| Repository.FindByCategoryIgnoresCase | src/ecommerce/repository/impl/ProductRepositoryImpl.java:65-69 | categories equal up to case find the same products |
| Repository.ProductFoundUnderOwnId | src/ecommerce/repository/impl/ProductRepositoryImpl.java:19-26 | a stored product is found under its key and carries it as id |
| Repository.FindByPriceRangeBounds | src/ecommerce/repository/impl/ProductRepositoryImpl.java:79-84 | non-null bounds never throw, an inverted range is empty, and a wider range finds more |
| Repository.UserRepository.constructor | src/ecommerce/repository/impl/UserRepositoryImpl.java:11-14 | an empty store whose counter starts at 1 |
| Repository.UserRepository.Save | src/ecommerce/repository/impl/UserRepositoryImpl.java:17-23 | as for orders: a fresh id from the counter, or the user's own id |
| Repository.UserRepository.Update | src/ecommerce/repository/impl/UserRepositoryImpl.java:26-32 | NotFound exactly when the id is not stored; otherwise the entry is replaced |
| Repository.UserRepository.Delete | src/ecommerce/repository/impl/UserRepositoryImpl.java:35-40 | NotFound exactly when the id is not stored; otherwise only that entry goes |
| Repository.UserRepository.FindById | src/ecommerce/repository/impl/UserRepositoryImpl.java:43-45 | found exactly when the id is stored |
| Repository.UserRepository.FindByEmail | src/ecommerce/repository/impl/UserRepositoryImpl.java:63-67 | found exactly when some stored email matches ignoring case, and then such a user |
| Repository.UserRepository.ExistsById | src/ecommerce/repository/impl/UserRepositoryImpl.java:53-55 | a null id is never present |
| Repository.UserRepository.Count | src/ecommerce/repository/impl/UserRepositoryImpl.java:58-60 | zero exactly when nothing is stored |
| Repository.UserRepository.FindAll | src/ecommerce/repository/impl/UserRepositoryImpl.java:48-50 | every stored user is listed |
| Repository.UserRepository.ExistsByEmail | src/ecommerce/repository/impl/UserRepositoryImpl.java:70-73 | a null email is never taken, and a stored user's exact email is |
| Repository.UserFoundUnderOwnId | src/ecommerce/repository/impl/UserRepositoryImpl.java:17-23 | a stored user is found under its key and carries it as id |
| Repository.ExistsByEmailIgnoresCase | src/ecommerce/repository/impl/UserRepositoryImpl.java:70-73 | emails equal up to case are both taken or both free |
| Repository.StoredEmailExists | src/ecommerce/repository/impl/UserRepositoryImpl.java:70-73 | a stored user's email, in any case, counts as taken |
| Service.ProductService.constructor | src/ecommerce/service/ProductService.java:13-15 | the service wraps the given repository |
| Service.ProductService.StoreAgain | src/ecommerce/service/OrderService.java:115 | `updateProduct` in the cancel loop answers with the product's verdict and keeps the stored ids; on success the product is stored under its id, on failure the store is unchanged |
| Service.ProductService.CreateProduct | src/ecommerce/service/ProductService.java:17-21 | fails exactly when validation fails, with its message and nothing stored; otherwise saved under a fresh id from the counter, or under its own id with the counter unchanged; only the product's id is written |
| Service.ProductService.GetProduct | src/ecommerce/service/ProductService.java:23-26 | the stored product, or NotFound exactly when the id is not stored |
| Service.ProductService.UpdateProduct | src/ecommerce/service/ProductService.java:44-51 | validation first, then NotFound for an unstored id, otherwise the entry is replaced |
| Service.ProductService.UpdateProductPrice | src/ecommerce/service/ProductService.java:53-57 | NotFound for an unstored id; otherwise the stored product takes the new price, unvalidated |
| Service.ProductService.DeleteProduct | src/ecommerce/service/ProductService.java:59-65 | NotFound exactly when the id is not stored; otherwise only that entry goes |
| Service.ProductService.UpdateStock | src/ecommerce/service/ProductService.java:67-77 | NotFound for an unstored id; a physical product's stock grows by the quantity (wrapped), a digital one's is untouched |
| Service.ProductService.SetProductAvailability | src/ecommerce/service/ProductService.java:79-84 | NotFound for an unstored id; otherwise the flag is set |
| Service.ProductService.GetTotalProducts | src/ecommerce/service/ProductService.java:97-99 | the number of stored products |
| Service.LinesOf | src/ecommerce/service/OrderService.java:110-117 | each item's product and quantity, in order |
| Service.Stocks | src/ecommerce/service/OrderService.java:110-117 | the current stock of each line's product |
| Service.ReplayIsRestock | src/ecommerce/service/OrderService.java:110-117 | after n passes of the loop a physical product holds its start stock plus its units in the first n lines, wrapped; a digital product is untouched |
| Service.Verdicts | src/ecommerce/service/OrderService.java:115 | what `updateProduct` answers for each line's product |
| Service.StopFrom | src/ecommerce/service/OrderService.java:110-117 | the first physical line whose product `updateProduct` refuses, or the end; every physical line before it is accepted |
| Service.Replay | src/ecommerce/service/OrderService.java:110-117 | after n passes each physical line's product holds its start stock plus its units in the first n lines, wrapped to `int`; a digital line's product holds its start stock |
| Service.StoreReplay | src/ecommerce/service/OrderService.java:115 | the product store after n passes keeps exactly its ids |
| Service.StoreReplayEntries | src/ecommerce/service/OrderService.java:110-117 | after n passes every stored product is the one stored before or a physical line's product among the first n, under its own id |
| Service.Ids | src/ecommerce/service/OrderService.java:115 | the id of each line's product |
| Service.RestoredOne | src/ecommerce/service/OrderService.java:110-117 | the loop over one physical line whose product is accepted passes and gives the line's units back |
| Service.ReplaySkip | src/ecommerce/service/OrderService.java:112 | a pass over a digital line changes no stock |
| Service.RevenueRemove | src/ecommerce/service/OrderService.java:140-145 | the revenue splits into one order's contribution and the rest's, whatever order the map is walked in |
| Service.RevenueOnlyDelivered | src/ecommerce/service/OrderService.java:140-145 | orders that are not DELIVERED add nothing to revenue |
| Service.OrderService.constructor | src/ecommerce/service/OrderService.java:13-16 | the service wraps the given repository and product service |
| Service.OrderService.SaveNewOrder | src/ecommerce/service/OrderService.java:22-24 | a fresh PENDING order for the customer is stored under the next id |
| Service.OrderService.CreateOrder | src/ecommerce/service/OrderService.java:18-25 | null customer, then blank payment method fail with their messages and store nothing; otherwise a fresh PENDING empty order under the next id, not added to the customer's list |
| Service.OrderService.AddEach | src/ecommerce/service/OrderService.java:29 | every item is appended in order and the totals are consistent |
| Service.OrderService.CreateOrderWithItems | src/ecommerce/service/OrderService.java:27-31 | the null-customer and blank-payment failures with their messages and nothing stored; otherwise a fresh PENDING order for that customer, payment method and time under the next id, the counter up by one, holding exactly the given items with consistent totals; no stock is taken |
| Service.OrderService.FillNewOrder | src/ecommerce/service/OrderService.java:29-30 | the items are appended to the stored order, its totals are consistent and the order store maps the same ids to the same orders |
| Service.OrderService.GetOrder | src/ecommerce/service/OrderService.java:33-36 | the stored order, or NotFound exactly when the id is not stored |
| Service.OrderService.TakeStock | src/ecommerce/service/OrderService.java:53-60 | a digital product passes untouched; too little stock fails with InsufficientStock and nothing changes; otherwise the stock drops, and storing the product again fails exactly when `updateProduct` refuses it |
| Service.OrderService.AppendItem | src/ecommerce/service/OrderService.java:62-64 | a fresh item at the product's current price is appended and the order is stored again |
| Service.OrderService.AddItemToFoundOrder | src/ecommerce/service/OrderService.java:52-65 | stock first (as TakeStock); the product store changes only when a physical product with enough stock is accepted, and then only its entry; on failure the order is untouched, on success one fresh item is appended with consistent totals |
| Service.OrderService.AddItemToOrder | src/ecommerce/service/OrderService.java:50-66 | NotFound for an unstored order with the product's stock and the product store untouched; otherwise as AddItemToFoundOrder on the stored order, product store included |
| Service.OrderService.ApplyDiscountPercent | src/ecommerce/service/OrderService.java:68-73 | NotFound for an unstored order; otherwise its discount becomes the percentage of its subtotal, totals follow |
| Service.OrderService.ApplyDiscountAmount | src/ecommerce/service/OrderService.java:75-80 | NotFound for an unstored order; otherwise its discount becomes the amount, totals follow |
| Service.OrderService.ConfirmOrder | src/ecommerce/service/OrderService.java:82-86 | NotFound for an unstored order; otherwise the stored order takes the confirm step |
| Service.OrderService.ProcessOrder | src/ecommerce/service/OrderService.java:88-92 | the same with the process step |
| Service.OrderService.ShipOrder | src/ecommerce/service/OrderService.java:94-98 | the same with the ship step |
| Service.OrderService.DeliverOrder | src/ecommerce/service/OrderService.java:100-104 | the same with the deliver step, setting the delivery time |
| Service.OrderService.GiveBack | src/ecommerce/service/OrderService.java:114 | one pass of the loop over a physical line moves the stocks from n passes to n + 1 |
| Service.OrderService.RestoreItem | src/ecommerce/service/OrderService.java:111-116 | one pass: a physical line gives back its units and answers `updateProduct`'s verdict, a digital line passes; a pass moves the product store one step of StoreReplay, a failure leaves it unchanged |
| Service.OrderService.RestoreStock | src/ecommerce/service/OrderService.java:110-117 | the loop stops at the first refused physical line with its failure, or passes; the stocks are exactly the replay of the lines up to and including that one, and the product store is StoreReplay of the lines before it |
| Service.OrderService.MarkCancelled | src/ecommerce/service/OrderService.java:108 | the status takes the cancel step and no stock or verdict changes |
| Service.OrderService.WriteBack | src/ecommerce/service/OrderService.java:119 | storing the order again leaves the store as it was |
| Service.OrderService.CancelFound | src/ecommerce/service/OrderService.java:107-119 | the status takes the cancel step whatever it was, then the stock loop runs as RestoreStock states, stocks and product store included, and the order store is unchanged |
| Service.OrderService.CancelOrder | src/ecommerce/service/OrderService.java:106-120 | NotFound for an unstored order with the product store untouched; otherwise cancel step plus stock and product store restored as RestoreStock states, even for a DELIVERED order |
| Service.OrderService.CancelSingle | src/ecommerce/service/OrderService.java:106-120 | cancelling a stored order whose one item is a physical product that `updateProduct` accepts passes and gives the item's units back |
| Service.OrderService.AddThenCancel | src/ecommerce/service/OrderService.java:50-120 | adding 3 units of a product holding 10 to an empty stored order leaves 7, and cancelling that order brings it back to 10 |
| Service.OrderService.DeleteOrder | src/ecommerce/service/OrderService.java:122-128 | NotFound exactly when the id is not stored; otherwise only that entry goes |
| Service.OrderService.CalculateTotalRevenue | src/ecommerce/service/OrderService.java:140-145 | the sum of the totals of the DELIVERED orders |
| Service.OrderService.GetTotalOrders | src/ecommerce/service/OrderService.java:147-149 | the number of stored orders |
| Service.UserService.constructor | src/ecommerce/service/UserService.java:12-14 | the service wraps the given repository |
| Service.UserService.CreateUser | src/ecommerce/service/UserService.java:16-23 | validation first; then Conflict exactly when the email is taken up to case; otherwise saved under a fresh id from the counter, or its own id with the counter unchanged; only the user's id is written; distinct emails stay distinct |
| Service.UserService.GetUser | src/ecommerce/service/UserService.java:25-28 | the stored user, or NotFound exactly when the id is not stored |
| Service.UserService.GetUserByEmail | src/ecommerce/service/UserService.java:30-33 | a stored user whose email matches, NotFound exactly when none does, the only one when emails are distinct |
| Service.UserService.UpdateUser | src/ecommerce/service/UserService.java:39-46 | validation first, then NotFound for an unstored id, otherwise the entry is replaced |
| Service.UserService.UpdateUserEmail | src/ecommerce/service/UserService.java:48-55 | NotFound for an unstored id; Conflict exactly when the email is taken up to case and differs from the user's own; otherwise the email is set; distinct emails stay distinct |
| Service.UserService.DeleteUser | src/ecommerce/service/UserService.java:57-63 | NotFound exactly when the id is not stored; otherwise only that entry goes |
| Service.UserService.SetUserActive | src/ecommerce/service/UserService.java:65-77 | NotFound for an unstored id; otherwise the active flag is set |
| Service.UserService.AuthenticateUser | src/ecommerce/service/UserService.java:79-83 | true only for an active user with that email and password; false for a null password or when no email matches; with distinct emails, exactly when such a user exists |
| Service.UserService.GetTotalUsers | src/ecommerce/service/UserService.java:105-107 | the number of stored users |

## Left out

- Console output is not modelled, because it is I/O. This covers:
  - `displayOrderSummary`, `displayProductDetails` and `displayInfo`;
  - `displayAllOrders`, `displayAllProducts`, `displayAllUsers` and
    `displayCustomers`;
  - `FormatUtil.printSeparator` and `printHeader`;
  - the status messages that the order transitions print.
- `FormatUtil.formatCurrency`, `formatDateTime` and `formatDate` are not
  modelled. They depend on Java's locale and date formatting.
- Model.Product.CalculateShipping: a physical product's shipping is a
  constant quote per product. The `double` volumetric formula of
  `PhysicalProduct.calculateShipping` is not modelled, because it is
  floating point. The product's dimensions and weight are dropped with
  it.
- `double` fields and arguments are exact reals, without rounding. These
  are the file size and the price-range bounds.
- The no-argument constructors are not modelled on their own. `Order()`
  sets an empty item list, the clock time, PENDING and zero sums;
  `Product()` sets the clock time and availability; `Customer()` sets an
  empty order list. Every other field stays null, which the model's
  non-null fields cannot hold. The constructors with arguments, which
  call them, are modelled with those defaults.
- The plain getters and setters that only read or assign one field are
  not modelled. These include `setId`, `setName`, `setCategory`,
  `setStatus` and `setCustomer`.
- Some service queries are not restated. They return a repository
  finder's result unchanged, so the finder's contract covers them:
  - `ProductService.getAllProducts`, `getAvailableProducts`,
    `getProductsByCategory` and `getProductsByPriceRange`;
  - `OrderService.getAllOrders`, `getCustomerOrders` and
    `getOrdersByStatus`;
  - `UserService.getAllUsers`.
- Finders return sets. The order of the lists built from `HashMap`
  values is unspecified in Java and is not modelled.
- Repository.UserRepository.FindByEmail: it returns some matching user,
  not the first one in `HashMap` order. GetUserByEmail and
  AuthenticateUser are exact only when emails are distinct up to case.
- Text.EqualsIgnoreCase covers ASCII letters only. Java's
  `equalsIgnoreCase` also folds other Unicode letters.
- Text.Trim: its ensures clause does not say which chars are removed.
  TrimStart and TrimEnd state that, and Trim is their composition.
- Text.Digits: its ensures clause states only a bound and that the
  result is all digits. DigitsAppend, DigitsOfDigits and
  DigitsOfNonDigits pin down the exact result.
- String fields of the entities are non-null. Null elements inside an
  item list are not modelled.
- Service.UserService.UpdateUserEmail takes a non-null new email. Java
  would store a null.
- Validation.ValidateProduct does not model "Product price cannot be
  null", because a price is never null here: the only way to store one
  is `updateProductPrice` with a null price, which is left out below.
- Service.ProductService.UpdateProductPrice takes a non-null price. Java
  would store the product with a null price, and a later
  `updateProduct` of it would fail with "Product price cannot be null".
- Model.Order.ApplyDiscountAmount takes a non-null amount. A null
  amount makes Java throw a NullPointerException in `calculateTotals`
  after the discount is already set.
- Service.OrderService.ApplyDiscountAmount takes a non-null amount, for
  the same reason.
- Format.FormatCPF takes a non-null string. A null argument makes Java
  throw a NullPointerException.
- Format.FormatPhone takes a non-null string, for the same reason.
- Validation.ValidatePositive compares the exact value, where Java
  compares `doubleValue()`. They differ only for a positive number too
  small to survive the conversion to `double`, which Java refuses.
- Model.User.Customer: a new customer is active. `User.java` is not
  part of this model, so this default of the `User` constructor is
  assumed, not read.
- Model.User.Admin: a new administrator is active, assumed for the same
  reason.
- Service.UserService.UpdateUser does not keep emails distinct. Neither
  does `updateUser`, which never compares emails.
- Service.OrderService.CreateOrderWithItems takes a non-null list. A
  null list makes Java throw inside `forEach`.
- All entity ids (orders, products and users) are unbounded integers.
  The `Long` counters' overflow after 2^63 saves is not modelled.
- Base.Failure: NotFound, Conflict and InsufficientStock record which
  exception is thrown, not its message text. The dropped texts are a
  fixed prefix followed by the caller's own input or the product's name:
  "Product not found with ID: ", "Order not found with ID: ", "User not
  found with ID: ", "User not found with email: ", "Email already
  registered: ", "Email already in use: ", "Insufficient stock for
  product: ", "Insufficient stock", and the repositories' "… not found
  with ID: ". The demo application prints these messages, and it is not
  part of this model. NullReference carries no message either.
- Concurrency is not modelled. The services are single-threaded.
- The demo application's entry point and the repository interfaces are
  not part of this model.

/** The three in-memory stores: a hash map from id to entity and the next
    id to hand out. Lists returned by the finders come from the map's values
    in no defined order, so they are sets here. */
module Repository {
  import opened Base
  import opened Text
  import opened Model

  // ================================================================ orders

  /** OrderRepositoryImpl. */
  class OrderRepository {
    var database: map<int, Order>
    var nextId: int

    /** Every stored order carries the id it is stored under, and the
        counter has not gone below its start. */
    ghost predicate Valid()
      reads this, database.Values
    {
      nextId >= 1 && forall k :: k in database ==> database[k].id == Some(k)
    }

    constructor ()
      ensures Valid() && database == map[] && nextId == 1
    {
      database := map[];
      nextId := 1;
    }

    /** `save(entity)`: a null id takes the counter, which then moves on;
        a given id is kept; either way the entry under the id is replaced. */
    method Save(entity: Order) returns (r: Order)
      requires Valid()
      modifies this, entity`id
      ensures Valid() && r == entity && entity.id.Some?
      ensures old(entity.id).None? ==> entity.id == Some(old(nextId)) && nextId == old(nextId) + 1
      ensures old(entity.id).Some? ==> entity.id == old(entity.id) && nextId == old(nextId)
      ensures database == old(database)[entity.id.value := entity]
    {
      if entity.id.None? {
        entity.id := Some(nextId);
        nextId := nextId + 1;
      }
      database := database[entity.id.value := entity];
      r := entity;
    }

    /** `update(entity)`: replaces an existing entry; a null or unknown id
        fails and changes nothing. */
    method Update(entity: Order) returns (r: Result<Order, Failure>)
      requires Valid()
      modifies this`database
      ensures Valid()
      ensures r.Failure? <==> !ExistsById(entity.id)
      ensures r.Failure? ==> r.error == NotFound && database == old(database)
      ensures r.Success? ==>
        r.value == entity && database == old(database)[entity.id.value := entity] && Count() == old(Count())
    {
      if entity.id.None? || entity.id.value !in database {
        return Failure(NotFound);
      }
      database := database[entity.id.value := entity];
      r := Success(entity);
    }

    /** `delete(id)`: removes an existing entry; the counter stays, so an
        id is never handed out twice. */
    method Delete(id: Option<int>) returns (r: Outcome<Failure>)
      requires Valid()
      modifies this`database
      ensures Valid()
      ensures r.Fail? <==> !old(ExistsById(id))
      ensures r.Fail? ==> r.error == NotFound && database == old(database)
      ensures r.Pass? ==>
        database == old(database) - {id.value} && Count() == old(Count()) - 1 && FindById(id) == None
    {
      if id.None? || id.value !in database {
        return Fail(NotFound);
      }
      database := database - {id.value};
      r := Pass;
    }

    /** `findById(id)`. */
    function FindById(id: Option<int>): (r: Option<Order>)
      reads this
      ensures r.Some? <==> ExistsById(id)
      ensures r.Some? ==> r.value in database.Values
    {
      if id.Some? && id.value in database then Some(database[id.value]) else None
    }

    /** `existsById(id)`: a null id is never present. */
    predicate ExistsById(id: Option<int>)
      reads this
      ensures id.None? ==> !ExistsById(id)
    {
      id.Some? && id.value in database
    }

    /** `count()`: zero exactly when nothing is stored. */
    function Count(): (r: nat)
      reads this
      ensures r == 0 <==> database == map[]
    {
      |database|
    }

    /** `findAll()`: every stored entity is listed. */
    function FindAll(): (r: set<Order>)
      reads this
      ensures forall k :: k in database ==> database[k] in r
    {
      database.Values
    }

    /** `findByCustomerId(customerId)`: an order without a customer, or
        whose customer has no id, throws on the way; otherwise exactly the
        orders whose customer's id equals the argument. */
    function FindByCustomerId(customerId: Option<int>): (r: Result<set<Order>, Failure>)
      reads this, database.Values, CustomersOf(database.Values)
      ensures r.Failure? <==> exists o :: o in database.Values && (o.customer == null || o.customer.id.None?)
      ensures r.Failure? ==> r.error == NullReference
      ensures r.Success? ==> r.value <= database.Values && forall o :: o in database.Values ==>
        (o in r.value <==> o.customer != null && customerId.Some? && o.customer.id == customerId)
    {
      if exists o :: o in database.Values && (o.customer == null || o.customer.id.None?) then Failure(NullReference)
      else Success(set o | o in database.Values && o.customer.id == customerId)
    }

    /** `findByStatus(status)`. */
    function FindByStatus(status: OrderStatus): (r: set<Order>)
      reads this, database.Values
      ensures r <= database.Values && forall o :: o in database.Values ==> (o in r <==> o.status == status)
    {
      set o | o in database.Values && o.status == status
    }
  }

  /** The customers the stored orders point to. */
  function CustomersOf(orders: set<Order>): set<User>
    reads orders
  {
    set o | o in orders && o.customer != null :: o.customer
  }

  /** A stored order is found under its own id. */
  lemma OrderFoundUnderOwnId(repo: OrderRepository, k: int)
    requires repo.Valid() && k in repo.database
    ensures repo.FindById(Some(k)) == Some(repo.database[k]) && repo.database[k].id == Some(k)
  {
  }

  /** The status finder splits the stored orders: each one is found under
      exactly one status. */
  lemma FindByStatusPartitions(repo: OrderRepository, o: Order, s: OrderStatus, s': OrderStatus)
    ensures o in repo.FindAll() ==> o in repo.FindByStatus(o.status)
    ensures s != s' ==> repo.FindByStatus(s) !! repo.FindByStatus(s')
  {
  }

  // ================================================================ products

  /** ProductRepositoryImpl. */
  class ProductRepository {
    var database: map<int, Product>
    var nextId: int

    ghost predicate Valid()
      reads this, database.Values
    {
      nextId >= 1 && forall k :: k in database ==> database[k].id == Some(k)
    }

    constructor ()
      ensures Valid() && database == map[] && nextId == 1
    {
      database := map[];
      nextId := 1;
    }

    /** `save(entity)`. */
    method Save(entity: Product) returns (r: Product)
      requires Valid()
      modifies this, entity`id
      ensures Valid() && r == entity && entity.id.Some?
      ensures old(entity.id).None? ==> entity.id == Some(old(nextId)) && nextId == old(nextId) + 1
      ensures old(entity.id).Some? ==> entity.id == old(entity.id) && nextId == old(nextId)
      ensures database == old(database)[entity.id.value := entity]
    {
      if entity.id.None? {
        entity.id := Some(nextId);
        nextId := nextId + 1;
      }
      database := database[entity.id.value := entity];
      r := entity;
    }

    /** `update(entity)`. */
    method Update(entity: Product) returns (r: Result<Product, Failure>)
      requires Valid()
      modifies this`database
      ensures Valid()
      ensures r.Failure? <==> !ExistsById(entity.id)
      ensures r.Failure? ==> r.error == NotFound && database == old(database)
      ensures r.Success? ==>
        r.value == entity && database == old(database)[entity.id.value := entity] && Count() == old(Count())
    {
      if entity.id.None? || entity.id.value !in database {
        return Failure(NotFound);
      }
      database := database[entity.id.value := entity];
      r := Success(entity);
    }

    /** `delete(id)`. */
    method Delete(id: Option<int>) returns (r: Outcome<Failure>)
      requires Valid()
      modifies this`database
      ensures Valid()
      ensures r.Fail? <==> !old(ExistsById(id))
      ensures r.Fail? ==> r.error == NotFound && database == old(database)
      ensures r.Pass? ==>
        database == old(database) - {id.value} && Count() == old(Count()) - 1 && FindById(id) == None
    {
      if id.None? || id.value !in database {
        return Fail(NotFound);
      }
      database := database - {id.value};
      r := Pass;
    }

    /** `findById(id)`. */
    function FindById(id: Option<int>): (r: Option<Product>)
      reads this
      ensures r.Some? <==> ExistsById(id)
      ensures r.Some? ==> r.value in database.Values
    {
      if id.Some? && id.value in database then Some(database[id.value]) else None
    }

    /** `existsById(id)`: a null id is never present. */
    predicate ExistsById(id: Option<int>)
      reads this
      ensures id.None? ==> !ExistsById(id)
    {
      id.Some? && id.value in database
    }

    /** `count()`: zero exactly when nothing is stored. */
    function Count(): (r: nat)
      reads this
      ensures r == 0 <==> database == map[]
    {
      |database|
    }

    /** `findAll()`: every stored entity is listed. */
    function FindAll(): (r: set<Product>)
      reads this
      ensures forall k :: k in database ==> database[k] in r
    {
      database.Values
    }

    /** `findByCategory(category)`: a null category matches nothing. */
    function FindByCategory(category: Option<string>): (r: set<Product>)
      reads this, database.Values
      ensures r <= database.Values
      ensures forall p :: p in database.Values ==>
        (p in r <==> category.Some? && EqualsIgnoreCase(p.category, category.value))
    {
      set p | p in database.Values && category.Some? && EqualsIgnoreCase(p.category, category.value)
    }

    /** `findAvailableProducts()`. */
    function FindAvailableProducts(): (r: set<Product>)
      reads this, database.Values
      ensures r <= database.Values && forall p :: p in database.Values ==> (p in r <==> p.available)
    {
      set p | p in database.Values && p.available
    }

    /** `findByPriceRange(minPrice, maxPrice)`, inclusive at both ends. A
        null bound throws when it is first unboxed: the lower one for any
        stored product, the upper one for a product at or above the lower
        bound. */
    function FindByPriceRange(minPrice: Option<real>, maxPrice: Option<real>): (r: Result<set<Product>, Failure>)
      reads this, database.Values
      ensures r.Failure? <==>
        exists p :: p in database.Values && (minPrice.None? || (p.price >= minPrice.value && maxPrice.None?))
      ensures r.Failure? ==> r.error == NullReference
      ensures r.Success? && minPrice.Some? && maxPrice.Some? ==>
        r.value <= database.Values
        && forall p :: p in database.Values ==> (p in r.value <==> minPrice.value <= p.price <= maxPrice.value)
      ensures r.Success? && (minPrice.None? || maxPrice.None?) ==> r.value == {}
    {
      if exists p :: p in database.Values && (minPrice.None? || (p.price >= minPrice.value && maxPrice.None?)) then
        Failure(NullReference)
      else
        Success(set p | p in database.Values && minPrice.Some? && maxPrice.Some?
                        && minPrice.value <= p.price <= maxPrice.value)
    }
  }

  /** Categories that are equal ignoring case find the same products. */
  lemma FindByCategoryIgnoresCase(repo: ProductRepository, a: string, b: string)
    requires EqualsIgnoreCase(a, b)
    ensures repo.FindByCategory(Some(a)) == repo.FindByCategory(Some(b))
  {
    forall p | p in repo.database.Values
      ensures EqualsIgnoreCase(p.category, a) <==> EqualsIgnoreCase(p.category, b)
    {
      EqualsIgnoreCaseIsEquivalence(p.category, a, b);
      EqualsIgnoreCaseIsEquivalence(p.category, b, a);
    }
  }

  /** A stored product is found under its own id. */
  lemma ProductFoundUnderOwnId(repo: ProductRepository, k: int)
    requires repo.Valid() && k in repo.database
    ensures repo.FindById(Some(k)) == Some(repo.database[k]) && repo.database[k].id == Some(k)
  {
  }

  /** An empty range finds nothing, and widening a range loses nothing. */
  lemma FindByPriceRangeBounds(repo: ProductRepository, lo: real, hi: real, lo': real, hi': real)
    ensures repo.FindByPriceRange(Some(lo), Some(hi)).Success?
    ensures hi < lo ==> repo.FindByPriceRange(Some(lo), Some(hi)).value == {}
    ensures lo' <= lo && hi <= hi' ==>
      repo.FindByPriceRange(Some(lo), Some(hi)).value <= repo.FindByPriceRange(Some(lo'), Some(hi')).value
  {
  }

  // ================================================================ users

  /** `u.getEmail().equalsIgnoreCase(email)`: false for a null argument. */
  predicate EmailMatches(u: User, email: Option<string>)
    reads u
  {
    email.Some? && EqualsIgnoreCase(u.email, email.value)
  }

  /** UserRepositoryImpl. */
  class UserRepository {
    var database: map<int, User>
    var nextId: int

    ghost predicate Valid()
      reads this, database.Values
    {
      nextId >= 1 && forall k :: k in database ==> database[k].id == Some(k)
    }

    constructor ()
      ensures Valid() && database == map[] && nextId == 1
    {
      database := map[];
      nextId := 1;
    }

    /** `save(entity)`. */
    method Save(entity: User) returns (r: User)
      requires Valid()
      modifies this, entity`id
      ensures Valid() && r == entity && entity.id.Some?
      ensures old(entity.id).None? ==> entity.id == Some(old(nextId)) && nextId == old(nextId) + 1
      ensures old(entity.id).Some? ==> entity.id == old(entity.id) && nextId == old(nextId)
      ensures database == old(database)[entity.id.value := entity]
    {
      if entity.id.None? {
        entity.id := Some(nextId);
        nextId := nextId + 1;
      }
      database := database[entity.id.value := entity];
      r := entity;
    }

    /** `update(entity)`. */
    method Update(entity: User) returns (r: Result<User, Failure>)
      requires Valid()
      modifies this`database
      ensures Valid()
      ensures r.Failure? <==> !ExistsById(entity.id)
      ensures r.Failure? ==> r.error == NotFound && database == old(database)
      ensures r.Success? ==>
        r.value == entity && database == old(database)[entity.id.value := entity] && Count() == old(Count())
    {
      if entity.id.None? || entity.id.value !in database {
        return Failure(NotFound);
      }
      database := database[entity.id.value := entity];
      r := Success(entity);
    }

    /** `delete(id)`. */
    method Delete(id: Option<int>) returns (r: Outcome<Failure>)
      requires Valid()
      modifies this`database
      ensures Valid()
      ensures r.Fail? <==> !old(ExistsById(id))
      ensures r.Fail? ==> r.error == NotFound && database == old(database)
      ensures r.Pass? ==>
        database == old(database) - {id.value} && Count() == old(Count()) - 1 && FindById(id) == None
    {
      if id.None? || id.value !in database {
        return Fail(NotFound);
      }
      database := database - {id.value};
      r := Pass;
    }

    /** `findById(id)`. */
    function FindById(id: Option<int>): (r: Option<User>)
      reads this
      ensures r.Some? <==> ExistsById(id)
      ensures r.Some? ==> r.value in database.Values
    {
      if id.Some? && id.value in database then Some(database[id.value]) else None
    }

    /** `existsById(id)`: a null id is never present. */
    predicate ExistsById(id: Option<int>)
      reads this
      ensures id.None? ==> !ExistsById(id)
    {
      id.Some? && id.value in database
    }

    /** `count()`: zero exactly when nothing is stored. */
    function Count(): (r: nat)
      reads this
      ensures r == 0 <==> database == map[]
    {
      |database|
    }

    /** `findAll()`: every stored entity is listed. */
    function FindAll(): (r: set<User>)
      reads this
      ensures forall k :: k in database ==> database[k] in r
    {
      database.Values
    }

    /** `existsByEmail(email)`: some stored user's email equals it,
        ignoring case. */
    predicate ExistsByEmail(email: Option<string>)
      reads this, database.Values
      ensures email.None? ==> !ExistsByEmail(email)
      ensures email.Some? && (exists u :: u in database.Values && u.email == email.value) ==> ExistsByEmail(email)
    {
      exists u :: u in database.Values && EmailMatches(u, email)
    }

    /** `findByEmail(email)`: the first match in the map's iteration order,
        which is unspecified, so any match. */
    method FindByEmail(email: Option<string>) returns (r: Option<User>)
      ensures r.Some? <==> ExistsByEmail(email)
      ensures r.Some? ==> r.value in database.Values && EmailMatches(r.value, email)
    {
      if ExistsByEmail(email) {
        var u :| u in database.Values && EmailMatches(u, email);
        r := Some(u);
      } else {
        r := None;
      }
    }

    /** No two stored users share an email up to case. */
    ghost predicate EmailsUnique()
      reads this, database.Values
    {
      forall u, v :: u in database.Values && v in database.Values && EqualsIgnoreCase(u.email, v.email) ==> u == v
    }
  }

  /** A stored user is found under its own id. */
  lemma UserFoundUnderOwnId(repo: UserRepository, k: int)
    requires repo.Valid() && k in repo.database
    ensures repo.FindById(Some(k)) == Some(repo.database[k]) && repo.database[k].id == Some(k)
  {
  }

  /** Emails equal up to case are found alike. */
  lemma ExistsByEmailIgnoresCase(repo: UserRepository, a: string, b: string)
    requires EqualsIgnoreCase(a, b)
    ensures repo.ExistsByEmail(Some(a)) <==> repo.ExistsByEmail(Some(b))
  {
    if repo.ExistsByEmail(Some(a)) {
      var u :| u in repo.database.Values && EmailMatches(u, Some(a));
      EqualsIgnoreCaseIsEquivalence(u.email, a, b);
      assert EmailMatches(u, Some(b));
    }
    if repo.ExistsByEmail(Some(b)) {
      var u :| u in repo.database.Values && EmailMatches(u, Some(b));
      EqualsIgnoreCaseIsEquivalence(u.email, b, a);
      EqualsIgnoreCaseIsEquivalence(a, b, a);
      assert EmailMatches(u, Some(a));
    }
  }

  /** A stored user is found by its own email, whatever case it is
      written in. */
  lemma StoredEmailExists(repo: UserRepository, u: User, e: string)
    requires u in repo.database.Values && EqualsIgnoreCase(u.email, e)
    ensures repo.ExistsByEmail(Some(e))
  {
    assert EmailMatches(u, Some(e));
  }
}

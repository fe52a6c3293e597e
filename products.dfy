/** The `Product` entity (a row of the `products` table), the two request
    payloads the service receives, and the two record transformations the
    service applies: building a new product from a create request and merging
    an update patch into a stored product. Prices are whole numbers of the
    smallest currency unit; instants are milliseconds of an abstract clock. */
module Products {
  import opened Wrappers

  /** A stored product. `name` and `price` are NOT NULL columns; every other
      column may be null. */
  datatype Product = Product(
    id: int,
    name: string,
    description: Option<string>,
    price: int,
    category: Option<string>,
    stock: Option<int>,
    createdAt: Option<nat>,
    updatedAt: Option<nat>)

  /** The create payload; `name` and `price` are required by the transport's
      bean validation, so they are never null by the time the service runs. */
  datatype ProductRequest = ProductRequest(
    name: string,
    description: Option<string>,
    price: int,
    category: Option<string>,
    stock: Option<int>)

  /** The update payload: every field may be absent (null), meaning "leave
      the stored value alone". */
  datatype ProductUpdate = ProductUpdate(
    name: Option<string>,
    description: Option<string>,
    category: Option<string>,
    stock: Option<int>,
    price: Option<int>)

  /** The creation instant used for ordering; a record without one sorts as
      the oldest. */
  function CreatedTime(p: Product): nat {
    p.createdAt.GetOr(0)
  }

  /** The product createProduct builds from a request at `now` and the id the
      store assigns on save: name, price and createdAt always, each optional
      field only when the request carries it, no updatedAt. */
  function NewProduct(id: int, request: ProductRequest, now: nat): Product {
    Product(id, request.name, request.description, request.price,
            request.category, request.stock, Some(now), None)
  }

  /** The request-shaped part of a product: what a create request fixes. */
  function RequestOf(p: Product): ProductRequest {
    ProductRequest(p.name, p.description, p.price, p.category, p.stock)
  }

  /** The product updateProduct saves: every present patch field replaces the
      stored one, absent ones keep it, and updatedAt becomes `now`. */
  function Merge(p: Product, patch: ProductUpdate, now: nat): Product {
    Product(p.id,
            patch.name.GetOr(p.name),
            patch.description.OrElse(p.description),
            patch.price.GetOr(p.price),
            patch.category.OrElse(p.category),
            patch.stock.OrElse(p.stock),
            p.createdAt,
            Some(now))
  }

  /** Applying `first` and then `second` as one patch: a field of `second`
      wins where present. */
  function Then(first: ProductUpdate, second: ProductUpdate): ProductUpdate {
    ProductUpdate(second.name.OrElse(first.name),
                  second.description.OrElse(first.description),
                  second.category.OrElse(first.category),
                  second.stock.OrElse(first.stock),
                  second.price.OrElse(first.price))
  }

  const EMPTY_PATCH := ProductUpdate(None, None, None, None, None)

  /** findByName finds a product: some stored row carries `name`. */
  predicate NameTaken(table: map<int, Product>, name: string) {
    exists k :: k in table && table[k].name == name
  }

  /** No two stored rows share a name. */
  ghost predicate UniqueNames(table: map<int, Product>) {
    forall a, b :: a in table && b in table && table[a].name == table[b].name ==> a == b
  }

  /** A created product carries exactly the request's fields, the given id,
      createdAt `now` and no updatedAt. */
  lemma NewProductFromRequest(id: int, request: ProductRequest, now: nat)
    ensures RequestOf(NewProduct(id, request, now)) == request
    ensures NewProduct(id, request, now).id == id
    ensures NewProduct(id, request, now).createdAt == Some(now)
    ensures NewProduct(id, request, now).updatedAt == None
  {
  }

  /** Field by field: a present patch field overwrites, an absent one keeps
      the stored value, updatedAt is `now`, id and createdAt are untouched. */
  lemma MergeOverwritesPresentFields(p: Product, patch: ProductUpdate, now: nat)
    ensures var q := Merge(p, patch, now);
      && q.id == p.id && q.createdAt == p.createdAt && q.updatedAt == Some(now)
      && q.name == (if patch.name.Some? then patch.name.value else p.name)
      && q.description == (if patch.description.Some? then patch.description else p.description)
      && q.category == (if patch.category.Some? then patch.category else p.category)
      && q.stock == (if patch.stock.Some? then patch.stock else p.stock)
      && q.price == (if patch.price.Some? then patch.price.value else p.price)
  {
  }

  /** A patch carrying only a stock value changes stock and updatedAt and
      nothing else. */
  lemma StockOnlyPatch(p: Product, stock: int, now: nat)
    ensures Merge(p, EMPTY_PATCH.(stock := Some(stock)), now)
         == p.(stock := Some(stock), updatedAt := Some(now))
  {
  }

  /** Applying the same patch twice is the same as applying it once. */
  lemma MergeIdempotent(p: Product, patch: ProductUpdate, now: nat)
    ensures Merge(Merge(p, patch, now), patch, now) == Merge(p, patch, now)
  {
  }

  /** Two updates in a row equal one update with the combined patch, stamped
      with the later instant: the last write wins per field. */
  lemma MergeThen(p: Product, first: ProductUpdate, second: ProductUpdate, t1: nat, t2: nat)
    ensures Merge(Merge(p, first, t1), second, t2) == Merge(p, Then(first, second), t2)
  {
  }

  /** Inserting a product whose name is not taken keeps names unique. */
  lemma InsertKeepsNamesUnique(table: map<int, Product>, id: int, request: ProductRequest, now: nat)
    requires UniqueNames(table) && !NameTaken(table, request.name) && id !in table
    ensures UniqueNames(table[id := NewProduct(id, request, now)])
  {
  }

  /** An update does not re-check names: renaming one product to the name of
      another turns a table with unique names into one without. */
  lemma MergeCanDuplicateNames()
    ensures exists table: map<int, Product>, id: int, patch: ProductUpdate, now: nat ::
      && UniqueNames(table) && id in table
      && !UniqueNames(table[id := Merge(table[id], patch, now)])
  {
    var a := Product(1, "A", None, 1, None, None, Some(0), None);
    var b := Product(2, "B", None, 1, None, None, Some(0), None);
    var table := map[1 := a, 2 := b];
    var patch := EMPTY_PATCH.(name := Some("A"));
    var t := table[2 := Merge(table[2], patch, 0)];
    assert t[1].name == t[2].name;
    assert UniqueNames(table) by {
      forall x, y | x in table && y in table && table[x].name == table[y].name
        ensures x == y
      {
        assert "A" != "B" by { assert "A"[0] != "B"[0]; }
      }
    }
  }
}

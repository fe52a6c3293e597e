/** ProductServiceImpl over an in-memory product table, and the variant of
    the service whose mutating calls are gated by the rate limiter. The
    mapper's `toDto`/`toDtos` are taken as the identity, so a response is the
    product record itself. */
module ProductCatalog {
  import opened Wrappers
  import opened Errors
  import opened Products
  import RateLimiting

  /** Larger page sizes are silently reduced to this. */
  const MAX_PAGE_SIZE: int := 100

  /** ProductPageResponseDto. */
  datatype ProductPage = ProductPage(
    products: seq<Product>,
    currentPage: int,
    totalPages: int,
    totalElements: int,
    isLastPage: bool)

  /** Ordered by createdAt, most recent first. */
  ghost predicate NewestFirst(s: seq<Product>) {
    forall i, j :: 0 <= i < j < |s| ==> CreatedTime(s[j]) <= CreatedTime(s[i])
  }

  function Min(a: int, b: int): int {
    if a <= b then a else b
  }

  /** `k < ceil(total / size)` exactly when `k` full pages do not reach the
      end of the listing. */
  lemma PagesBeyond(k: nat, size: int, total: nat)
    requires size >= 1
    ensures k < (total + size - 1) / size <==> k * size < total
  {
    var n := total + size - 1;
    var q := n / size;
    assert n == q * size + n % size && 0 <= n % size < size;
    if k < q {
      MulMonotone(k + 1, q, size);
      assert (k + 1) * size == k * size + size;
    } else {
      MulMonotone(q, k, size);
    }
  }

  lemma MulMonotone(a: int, b: int, c: int)
    requires a <= b && c >= 0
    ensures a * c <= b * c
  {
    assert b * c - a * c == (b - a) * c;
  }

  /** Page `k` of pages of `size` rows starts inside a listing of `total` rows. */
  predicate PageStartsInListing(k: nat, size: int, total: nat) {
    k * size < total
  }

  /** The page count `ceil(total / size)` counts exactly the pages that start
      inside the listing. */
  lemma PageCount(size: int, total: nat)
    requires size >= 1
    ensures forall k: nat :: k < (total + size - 1) / size <==> PageStartsInListing(k, size, total)
  {
    forall k: nat ensures k < (total + size - 1) / size <==> PageStartsInListing(k, size, total) {
      PagesBeyond(k, size, total);
    }
  }

  /** The rows of `listing` from `offset` on, at most `size` of them. */
  function Window(listing: seq<Product>, offset: nat, size: nat): (c: seq<Product>)
    ensures |c| <= size
    ensures forall i :: 0 <= i < |c| ==> offset + i < |listing| && c[i] == listing[offset + i]
    ensures |c| == size || offset + |c| >= |listing|
  {
    if offset < |listing| then listing[offset .. Min(offset + size, |listing|)] else []
  }

  /** `findAll(PageRequest.of(page, size, createdAt DESC))` and the page
      metadata, over the table listed newest first. PageRequest refuses a
      negative page index and a size below one. */
  function PageOf(listing: seq<Product>, page: int, size: int): (r: Result<ProductPage, Error>)
    ensures r.Ok? <==> 0 <= page && 1 <= size
    ensures r.Err? ==> r.error.IllegalArgument?
    ensures r.Ok? ==> r.value.currentPage == page && r.value.totalElements == |listing|
    ensures r.Ok? ==> 0 <= r.value.totalPages
    ensures r.Ok? ==> var c := r.value.products;
      && |c| <= size
      && (forall i :: 0 <= i < |c| ==> page * size + i < |listing| && c[i] == listing[page * size + i])
      && (|c| == size || page * size + |c| >= |listing|)
    ensures r.Ok? ==> forall k: nat :: k < r.value.totalPages <==> PageStartsInListing(k, size, |listing|)
    ensures r.Ok? ==> (r.value.isLastPage <==> |listing| <= page * size + size)
  {
    if page < 0 then Err(IllegalArgument("Page index must not be less than zero"))
    else if size < 1 then Err(IllegalArgument("Page size must not be less than one"))
    else
      var total := |listing|;
      var offset := page * size;
      assert offset >= 0 by {
        assert page * size >= 0;
      }
      var totalPages := (total + size - 1) / size;
      PagesBeyond(page + 1, size, total);
      PageCount(size, total);
      assert (page + 1) * size == offset + size;
      Ok(ProductPage(Window(listing, offset, size), page, totalPages, total, !(page + 1 < totalPages)))
  }

  /** Consecutive rows of a newest-first listing of `table` are stored rows,
      newest first. */
  lemma RowsOfListing(listing: seq<Product>, table: map<int, Product>, offset: int, c: seq<Product>)
    requires forall i :: 0 <= i < |listing| ==> listing[i].id in table && table[listing[i].id] == listing[i]
    requires NewestFirst(listing)
    requires offset >= 0
    requires forall i :: 0 <= i < |c| ==> offset + i < |listing| && c[i] == listing[offset + i]
    ensures NewestFirst(c)
    ensures forall p :: p in c ==> p.id in table && table[p.id] == p
  {
    forall i, j | 0 <= i < j < |c| ensures CreatedTime(c[j]) <= CreatedTime(c[i]) {
      var x, y := c[i], c[j];
      assert x == listing[offset + i] && y == listing[offset + j];
    }
    forall p | p in c ensures p.id in table && table[p.id] == p {
      var i :| 0 <= i < |c| && c[i] == p;
      assert p == listing[offset + i];
    }
  }

  class ProductServiceImpl {
    /** The products table, by id. */
    var products: map<int, Product>
    /** The table's identity sequence: the id the next insert receives. */
    var nextId: int

    /** Every row is stored under its own id, below the next identity value,
        and carries a creation instant. */
    ghost predicate Valid()
      reads this
    {
      forall k :: k in products ==> k < nextId && products[k].id == k && products[k].createdAt.Some?
    }

    /** `listing` is the whole table, each row once, newest first: what the
        database returns for ORDER BY created_at DESC. */
    ghost predicate IsNewestFirstListing(listing: seq<Product>)
      reads this
    {
      && |listing| == |products|
      && (forall i :: 0 <= i < |listing| ==> listing[i].id in products && products[listing[i].id] == listing[i])
      && (forall i, j :: 0 <= i < j < |listing| ==> listing[i].id != listing[j].id)
      && NewestFirst(listing)
    }

    constructor ()
      ensures Valid() && products == map[] && nextId == 1
    {
      products := map[];
      nextId := 1;
    }

    /** findProductByIdOrThrowException: the stored record, or NotFound. */
    function FindProductByIdOrThrowException(id: int): (r: Result<Product, Error>)
      reads this
      ensures r.Ok? <==> id in products
      ensures r.Ok? ==> r.value == products[id]
      ensures r.Err? ==> r.error == NotFound(id) && Message(r.error) == NOT_FOUND_PREFIX + Decimal.IntToString(id)
    {
      if id in products then Ok(products[id]) else Err(NotFound(id))
    }

    /** getProduct: the stored record when present, NotFound otherwise; the
        table is not touched either way. */
    method GetProduct(id: int) returns (r: Result<Product, Error>)
      ensures id in products ==> r == Ok(products[id])
      ensures id !in products ==> r == Err(NotFound(id))
    {
      r := FindProductByIdOrThrowException(id);
    }

    /** getProducts: the size is clamped to MAX_PAGE_SIZE, then the page is
        cut from the newest-first listing. */
    method GetProducts(page: int, size: int, listing: seq<Product>) returns (r: Result<ProductPage, Error>)
      requires Valid() && IsNewestFirstListing(listing)
      ensures size > MAX_PAGE_SIZE ==> r == PageOf(listing, page, MAX_PAGE_SIZE)
      ensures size <= MAX_PAGE_SIZE ==> r == PageOf(listing, page, size)
      ensures r.Ok? <==> 0 <= page && 1 <= size
      ensures r.Ok? ==> |r.value.products| <= MAX_PAGE_SIZE && r.value.totalElements == |products|
      ensures r.Ok? ==> NewestFirst(r.value.products)
      ensures r.Ok? ==> forall p :: p in r.value.products ==> p.id in products && products[p.id] == p
    {
      var size := size;
      if size > 100 {
        size := 100;
      }
      r := PageOf(listing, page, size);
      if r.Ok? {
        var offset := page * size;
        assert offset >= 0;
        RowsOfListing(listing, products, offset, r.value.products);
      }
    }

    /** The save half of createProduct (lines 69-82): build the record and
        insert it under the next identity value. */
    method SaveNewProduct(request: ProductRequest, now: nat) returns (r: Result<Product, Error>)
      requires Valid()
      modifies this
      ensures Valid()
      ensures old(nextId) !in old(products)
      ensures r == Ok(NewProduct(old(nextId), request, now))
      ensures products == old(products)[old(nextId) := r.value]
      ensures nextId == old(nextId) + 1
    {
      var saved := NewProduct(nextId, request, now);
      products := products[nextId := saved];
      nextId := nextId + 1;
      r := Ok(saved);
    }

    /** createProduct: refused with BadRequest, changing nothing, when the
        name is already stored; otherwise exactly one new row under a fresh
        id, every existing row unchanged. */
    method CreateProduct(request: ProductRequest, now: nat) returns (r: Result<Product, Error>)
      requires Valid()
      modifies this
      ensures Valid()
      ensures NameTaken(old(products), request.name) ==>
        r == Err(BadRequest(request.name)) && products == old(products) && nextId == old(nextId)
      ensures !NameTaken(old(products), request.name) ==>
        && old(nextId) !in old(products)
        && r == Ok(NewProduct(old(nextId), request, now))
        && products == old(products)[old(nextId) := r.value]
        && nextId == old(nextId) + 1
    {
      if NameTaken(products, request.name) {
        return Err(BadRequest(request.name));
      }
      r := SaveNewProduct(request, now);
    }

    /** The merge-and-save half of updateProduct (lines 90-100): the setters
        applied one by one to the fetched record, which is then saved. */
    method SaveMerged(id: int, patch: ProductUpdate, now: nat) returns (r: Result<Product, Error>)
      requires Valid() && id in products
      modifies this
      ensures Valid() && nextId == old(nextId)
      ensures r == Ok(Merge(old(products)[id], patch, now))
      ensures products == old(products)[id := r.value]
    {
      var p := products[id];
      if patch.name.Some? {
        p := p.(name := patch.name.value);
      }
      if patch.description.Some? {
        p := p.(description := patch.description);
      }
      if patch.category.Some? {
        p := p.(category := patch.category);
      }
      if patch.stock.Some? {
        p := p.(stock := patch.stock);
      }
      if patch.price.Some? {
        p := p.(price := patch.price.value);
      }
      p := p.(updatedAt := Some(now));
      products := products[id := p];
      r := Ok(p);
    }

    /** updateProduct: NotFound and nothing saved when the id is missing;
        otherwise the stored row becomes the merge of the patch, stamped
        `now`. Name uniqueness is not re-checked. */
    method UpdateProduct(id: int, patch: ProductUpdate, now: nat) returns (r: Result<Product, Error>)
      requires Valid()
      modifies this
      ensures Valid() && nextId == old(nextId)
      ensures id !in old(products) ==> r == Err(NotFound(id)) && products == old(products)
      ensures id in old(products) ==>
        r == Ok(Merge(old(products)[id], patch, now)) && products == old(products)[id := r.value]
    {
      var found := FindProductByIdOrThrowException(id);
      if found.Err? {
        return Err(found.error);
      }
      r := SaveMerged(id, patch, now);
    }

    /** deleteProduct: removes exactly that row, or fails with NotFound and
        removes nothing. */
    method DeleteProduct(id: int) returns (r: Outcome<Error>)
      requires Valid()
      modifies this
      ensures Valid() && nextId == old(nextId)
      ensures id in old(products) ==> r == Pass && products == old(products) - {id}
      ensures id !in old(products) ==> r == Fail(NotFound(id)) && products == old(products)
    {
      var found := FindProductByIdOrThrowException(id);
      if found.Err? {
        return Fail(found.error);
      }
      products := products - {found.value.id};
      r := Pass;
    }
  }

  /** The variant of the service the controller and the tests call: create
      and update take the acting user's id and consult the rate limiter,
      after the name check on create and after the lookup on update. Reads
      and deletes are not gated and are those of ProductServiceImpl. */
  class RateLimitedProductService {
    const catalog: ProductServiceImpl
    const limiter: RateLimiting.RequestRateLimiter

    ghost predicate Valid()
      reads catalog
    {
      catalog.Valid()
    }

    constructor (catalog: ProductServiceImpl, limiter: RateLimiting.RequestRateLimiter)
      requires catalog.Valid()
      ensures Valid()
      ensures this.catalog == catalog && this.limiter == limiter
    {
      this.catalog := catalog;
      this.limiter := limiter;
    }

    method CreateProduct(request: ProductRequest, userId: int, now: nat) returns (r: Result<Product, Error>)
      requires Valid()
      modifies catalog, limiter
      ensures Valid()
      ensures NameTaken(old(catalog.products), request.name) ==>
        && r == Err(BadRequest(request.name))
        && unchanged(catalog) && unchanged(limiter)
      ensures !NameTaken(old(catalog.products), request.name) ==>
        limiter.store == RateLimiting.Limit(old(limiter.store), userId, now).store
      ensures (!NameTaken(old(catalog.products), request.name)
               && RateLimiting.Limit(old(limiter.store), userId, now).outcome.Fail?) ==>
        r == Err(TooManyRequests(RateLimiting.MAX_REQUESTS)) && unchanged(catalog)
      ensures (!NameTaken(old(catalog.products), request.name)
               && RateLimiting.Limit(old(limiter.store), userId, now).outcome.Pass?) ==>
        && old(catalog.nextId) !in old(catalog.products)
        && r == Ok(NewProduct(old(catalog.nextId), request, now))
        && catalog.products == old(catalog.products)[old(catalog.nextId) := r.value]
        && catalog.nextId == old(catalog.nextId) + 1
    {
      if NameTaken(catalog.products, request.name) {
        return Err(BadRequest(request.name));
      }
      var gate := limiter.LimitRequestsByUserId(userId, now);
      if gate.Fail? {
        return Err(gate.error);
      }
      r := catalog.SaveNewProduct(request, now);
    }

    method UpdateProduct(id: int, patch: ProductUpdate, userId: int, now: nat) returns (r: Result<Product, Error>)
      requires Valid()
      modifies catalog, limiter
      ensures Valid() && catalog.nextId == old(catalog.nextId)
      ensures id !in old(catalog.products) ==>
        r == Err(NotFound(id)) && unchanged(catalog) && unchanged(limiter)
      ensures id in old(catalog.products) ==>
        limiter.store == RateLimiting.Limit(old(limiter.store), userId, now).store
      ensures id in old(catalog.products) && RateLimiting.Limit(old(limiter.store), userId, now).outcome.Fail? ==>
        r == Err(TooManyRequests(RateLimiting.MAX_REQUESTS)) && unchanged(catalog)
      ensures id in old(catalog.products) && RateLimiting.Limit(old(limiter.store), userId, now).outcome.Pass? ==>
        && r == Ok(Merge(old(catalog.products)[id], patch, now))
        && catalog.products == old(catalog.products)[id := r.value]
    {
      var found := catalog.FindProductByIdOrThrowException(id);
      if found.Err? {
        return Err(found.error);
      }
      var gate := limiter.LimitRequestsByUserId(userId, now);
      if gate.Fail? {
        return Err(gate.error);
      }
      r := catalog.SaveMerged(id, patch, now);
    }
  }

  /** Create "Widget", give it stock 5, delete it, then read it back. */
  method WidgetLifecycle() returns (created: Result<Product, Error>, updated: Result<Product, Error>,
                                    deleted: Outcome<Error>, fetched: Result<Product, Error>)
    ensures created.Ok? && created.value.name == "Widget" && created.value.price == 999
    ensures created.Ok? && created.value.createdAt == Some(0) && created.value.updatedAt == None
    ensures updated.Ok? && updated.value.stock == Some(5) && updated.value.price == 999
    ensures updated.Ok? && updated.value.updatedAt == Some(1) && updated.value.createdAt == Some(0)
    ensures deleted == Pass
    ensures created.Ok? && fetched == Err(NotFound(created.value.id))
  {
    var service := new ProductServiceImpl();
    created := service.CreateProduct(ProductRequest("Widget", None, 999, None, None), 0);
    var id := created.value.id;
    var found := service.GetProduct(id);
    assert found == created;
    updated := service.UpdateProduct(id, EMPTY_PATCH.(stock := Some(5)), 1);
    deleted := service.DeleteProduct(id);
    fetched := service.GetProduct(id);
  }

  /** Creating the same name twice with no delete in between: one success,
      one BadRequest, one row. */
  method CreateSameNameTwice() returns (first: Result<Product, Error>, second: Result<Product, Error>, rows: nat)
    ensures first.Ok? && second == Err(BadRequest("Gadget"))
    ensures Message(second.error) == "Product with name 'Gadget' already exists"
    ensures rows == 1
  {
    var service := new ProductServiceImpl();
    first := service.CreateProduct(ProductRequest("Gadget", None, 100, None, None), 0);
    second := service.CreateProduct(ProductRequest("Gadget", Some("again"), 200, None, None), 1);
    rows := |service.products|;
  }

  /** Renaming a product to the name another product holds succeeds: update
      does not re-check names, so the table ends with a duplicate. */
  method RenameToTakenName() returns (renamed: Result<Product, Error>, other: Result<Product, Error>)
    ensures renamed.Ok? && other.Ok?
    ensures renamed.value.id != other.value.id && renamed.value.name == other.value.name
  {
    var service := new ProductServiceImpl();
    other := service.CreateProduct(ProductRequest("A", None, 1, None, None), 0);
    assert !NameTaken(service.products, "B") by {
      assert "A" != "B" by { assert "A"[0] != "B"[0]; }
    }
    var b := service.CreateProduct(ProductRequest("B", None, 1, None, None), 0);
    renamed := service.UpdateProduct(b.value.id, EMPTY_PATCH.(name := Some("A")), 1);
    var current := service.GetProduct(other.value.id);
    other := current;
  }
}

/** The kiosk hook: the state the screens read (screen, cart, the day, its
    orders, the catalogue, the category filter and the search query) and
    the actions that change it. The browser database behind it is the field
    `db`; every pause on it is one atomic step here. */
module UseKioskStore {
  import opened Types
  import opened Ordering
  import opened Normalize
  import opened KioskHelpers
  import Text
  import Store
  import Cart

  /** The object stores the hook uses: products by id, categories by key,
      orders by id, and the start and end rows of the day store. */
  datatype Database = Database(
    products: seq<Product>,
    categories: seq<Category>,
    orders: seq<Order>,
    dayStart: Option<string>,
    dayEnd: Option<string>)

  /** Each object store lists its records in ascending key order. */
  ghost predicate WellKeyed(d: Database)
  {
    && Store.Keyed(d.products, ProductId)
    && Store.Keyed(d.categories, CategoryKeyOf)
    && Store.Keyed(d.orders, OrderId)
  }

  /** The categories shown hold one category per key, and exactly the
      categories of the store. */
  ghost predicate CategoriesAgree(shown: seq<Category>, stored: seq<Category>)
  {
    && Store.Keyed(stored, CategoryKeyOf)
    && Store.KeysUnique(shown, CategoryKeyOf)
    && (forall c :: c in shown <==> c in stored)
  }

  /** The answer of `createCategory`. */
  datatype CreateCategoryResult =
    | Created(category: Category)
    | EmptyName
    | AlreadyExists(existingName: string)

  class KioskStore {
    var screen: Screen
    var cart: seq<CartItem>
    var dayStart: Option<string>
    var dayEnd: Option<string>
    var orders: seq<Order>
    var products: seq<Product>
    var categories: seq<Category>
    var selectedCategory: string
    var query: string
    var db: Database

    /** The day and its orders mirror the database, the cart has one line
        per product, and the categories shown are those stored, one per key. */
    ghost predicate Valid()
      reads this
    {
      && WellKeyed(db)
      && orders == db.orders
      && dayStart == db.dayStart
      && dayEnd == db.dayEnd
      && Cart.WellFormed(cart)
      && CategoriesAgree(categories, db.categories)
    }

    /** `total`; its properties are those of `Cart.TotalOf` (Cart.TotalOfAppend,
        Cart.TotalAfterAdd, KioskHelpers.LinesTotal). */
    function Total(): int
      reads this
    {
      Cart.TotalOf(cart)
    }

    /** `filteredProducts`; KioskHelpers.FilterProducts,
        KioskHelpers.FilterProductsMembership and KioskHelpers.FilterProductsAll
        say what it lists. */
    function FilteredProducts(): seq<Product>
      reads this
    {
      FilterProducts(products, selectedCategory, query)
    }

    /** `categoryNames`; KioskHelpers.CategoryNames says what it holds. */
    function Names(): seq<string>
      reads this
    {
      CategoryNames(categories)
    }

    /** The initial load: the day and the orders as stored; the stored
        products, or the default catalogue (written to the database) when
        there are none; the stored categories, or those derived from the
        products (written to the database one by one) when there are none.
        The hook always starts on the welcome screen with an empty cart. */
    constructor Load(stored: Database, defaults: seq<Product>)
      requires WellKeyed(stored)
      ensures Valid()
      ensures screen == WelcomeScreen && cart == [] && selectedCategory == AllCategories && query == ""
      ensures dayStart == stored.dayStart && dayEnd == stored.dayEnd && orders == stored.orders
      ensures db.orders == stored.orders && db.dayStart == stored.dayStart && db.dayEnd == stored.dayEnd
      ensures stored.products != [] ==> products == stored.products && db.products == stored.products
      ensures stored.products == [] ==> products == defaults && db.products == Store.PutAll([], defaults, ProductId)
      ensures stored.categories != [] ==> categories == stored.categories && db.categories == stored.categories
      ensures stored.categories == [] ==>
        && categories == SortBy(FirstByKey(TagsOf(products)), CategoryName)
        && db.categories == Store.PutAll([], categories, CategoryKeyOf)
    {
      screen := WelcomeScreen;
      cart := [];
      selectedCategory := AllCategories;
      query := "";
      dayStart := stored.dayStart;
      dayEnd := stored.dayEnd;
      orders := stored.orders;
      var ps, cs, d := LoadCatalog(stored, defaults);
      products := ps;
      categories := cs;
      db := d;
    }

    // ----- cart -----

    /** `addProductToCart`. */
    method AddProductToCart(p: Product)
      requires Valid()
      modifies this`cart
      ensures Valid()
      ensures cart == Cart.AddToCart(old(cart), p)
    {
      Cart.AddKeepsWellFormed(cart, p);
      cart := Cart.AddToCart(cart, p);
    }

    /** `addById`: an id that names no product is ignored. */
    method AddById(id: string)
      requires Valid()
      modifies this`cart
      ensures Valid()
      ensures Find(products, id, ProductId).None? ==> cart == old(cart)
      ensures Find(products, id, ProductId).Some? ==> cart == Cart.AddToCart(old(cart), Find(products, id, ProductId).value)
    {
      var p := Find(products, id, ProductId);
      if p.None? {
        return;
      }
      Cart.AddKeepsWellFormed(cart, p.value);
      cart := Cart.AddToCart(cart, p.value);
    }

    /** `removeById`. */
    method RemoveById(id: string)
      requires Valid()
      modifies this`cart
      ensures Valid()
      ensures cart == Cart.RemoveFromCart(old(cart), id)
    {
      Cart.RemoveKeepsWellFormed(cart, id);
      cart := Cart.RemoveFromCart(cart, id);
    }

    /** `clearCartNow`. */
    method ClearCartNow()
      requires Valid()
      modifies this`cart
      ensures Valid()
      ensures cart == [] && Total() == 0
    {
      cart := Cart.ClearCart();
    }

    /** `setScreen`. */
    method SetScreen(s: Screen)
      requires Valid()
      modifies this`screen
      ensures Valid()
      ensures screen == s
    {
      screen := s;
    }

    /** `setSelectedCategory`. */
    method SetSelectedCategory(name: string)
      requires Valid()
      modifies this`selectedCategory
      ensures Valid()
      ensures selectedCategory == name
    {
      selectedCategory := name;
    }

    /** `setQuery`. */
    method SetQuery(q: string)
      requires Valid()
      modifies this`query
      ensures Valid()
      ensures query == q
    {
      query := q;
    }

    // ----- the day -----

    /** `startDay`: a new day begins at `now` with no orders and an empty
        cart; the stored orders and day rows are replaced accordingly. */
    method StartDay(now: string)
      requires Valid()
      modifies this`dayStart, this`dayEnd, this`orders, this`cart, this`db, this`screen
      ensures Valid()
      ensures dayStart == Some(now) && dayEnd == None && orders == [] && cart == []
      ensures db == old(db).(orders := [], dayStart := Some(now), dayEnd := None)
      ensures screen == OrderScreen
    {
      dayStart := Some(now);
      dayEnd := None;
      orders := [];
      cart := [];
      db := db.(orders := []);
      db := db.(dayStart := None, dayEnd := None);
      db := db.(dayStart := Some(now));
      screen := OrderScreen;
    }

    /** `confirmPaid`: with a positive total, the cart becomes an order
        paid at `now` under id `newId`, stored with `put`, and the orders
        are read back; the cart is emptied and the order screen shown. A
        total of zero or less changes nothing. */
    method ConfirmPaid(newId: string, now: string)
      requires Valid()
      modifies this`orders, this`cart, this`db, this`screen
      ensures Valid()
      ensures old(Total()) <= 0 ==>
        cart == old(cart) && orders == old(orders) && db == old(db) && screen == old(screen)
      ensures old(Total()) > 0 ==>
        var o := Order(newId, old(Total()), now, LinesOf(old(cart)));
        && orders == Store.Put(old(orders), o, OrderId)
        && db == old(db).(orders := orders)
        && o in orders
        && |orders| == |old(orders)| + (if Store.HasKey(old(orders), newId, OrderId) then 0 else 1)
        && SumSubtotals(o.lines) == o.total
        && cart == [] && screen == OrderScreen
    {
      var total := Total();
      if total <= 0 {
        return;
      }
      var o := Order(newId, total, now, LinesOf(cart));
      LinesTotal(cart);
      Store.PutKeyed(db.orders, o, OrderId);
      Store.PutMembership(db.orders, o, OrderId, o);
      Store.PutLength(db.orders, o, OrderId);
      db := db.(orders := Store.Put(db.orders, o, OrderId));
      orders := db.orders;
      cart := [];
      screen := OrderScreen;
    }

    /** `endDay`: the day ends at `now`; nothing else about it changes. */
    method EndDay(now: string)
      requires Valid()
      modifies this`dayEnd, this`db, this`screen
      ensures Valid()
      ensures dayEnd == Some(now)
      ensures db == old(db).(dayEnd := Some(now))
      ensures screen == EndDayScreen
    {
      dayEnd := Some(now);
      db := db.(dayEnd := Some(now));
      screen := EndDayScreen;
    }

    /** `closeApp`: back to the welcome screen with no day, no orders and an
        empty cart, in memory and in the database. */
    method CloseApp()
      requires Valid()
      modifies this`screen, this`cart, this`dayStart, this`dayEnd, this`orders, this`db
      ensures Valid()
      ensures screen == WelcomeScreen && cart == [] && dayStart == None && dayEnd == None && orders == []
      ensures db == old(db).(orders := [], dayStart := None, dayEnd := None)
    {
      screen := WelcomeScreen;
      cart := [];
      dayStart := None;
      dayEnd := None;
      orders := [];
      db := db.(orders := []);
      db := db.(dayStart := None, dayEnd := None);
    }

    // ----- categories -----

    /** `createCategory`: a blank name is refused, so is a name whose key is
        taken (with the existing category's name); otherwise the category is
        stored and added to the list, which is kept sorted by name. */
    method CreateCategory(raw: string) returns (res: CreateCategoryResult)
      requires Valid()
      modifies this`categories, this`db
      ensures Valid()
      ensures res.EmptyName? <==> PrettyCategoryName(raw) == [] || CategoryKey(raw) == []
      ensures res.AlreadyExists? <==>
        !res.EmptyName? && Find(old(categories), CategoryKey(raw), CategoryKeyOf).Some?
      ensures res.AlreadyExists? ==>
        res.existingName == Find(old(categories), CategoryKey(raw), CategoryKeyOf).value.name
      ensures !res.Created? ==> categories == old(categories) && db == old(db)
      ensures res.Created? ==>
        && res.category == Category(CategoryKey(raw), PrettyCategoryName(raw))
        && categories == SortBy(old(categories) + [res.category], CategoryName)
        && db == old(db).(categories := Store.Put(old(db.categories), res.category, CategoryKeyOf))
    {
      var name := PrettyCategoryName(raw);
      var key := CategoryKey(raw);
      if name == [] || key == [] {
        return EmptyName;
      }
      var existing := Find(categories, key, CategoryKeyOf);
      if existing.Some? {
        return AlreadyExists(existing.value.name);
      }
      var cat := Category(key, name);
      InsertCategory(cat);
      res := Created(cat);
    }

    /** `upsertCategory` of a category with a new key, and its insertion in
        the list sorted by name. */
    method InsertCategory(cat: Category)
      requires Valid()
      requires Find(categories, cat.key, CategoryKeyOf).None?
      modifies this`categories, this`db
      ensures Valid()
      ensures categories == SortBy(old(categories) + [cat], CategoryName)
      ensures db == old(db).(categories := Store.Put(old(db.categories), cat, CategoryKeyOf))
    {
      AddCategoryKeepsInvariant(categories, db.categories, cat);
      db := db.(categories := Store.Put(db.categories, cat, CategoryKeyOf));
      categories := SortBy(categories + [cat], CategoryName);
    }

    /** `deleteCategory`: an unknown key, or a category some product is filed
        under, is left alone; otherwise the category is removed from the
        database and the list, and a filter set to it falls back to
        "Todos". */
    method DeleteCategory(key: string)
      requires Valid()
      modifies this`categories, this`db, this`selectedCategory
      ensures Valid()
      ensures var f := Find(old(categories), key, CategoryKeyOf);
        f.None? || HasProductsIn(products, f.value.name) ==>
          categories == old(categories) && db == old(db) && selectedCategory == old(selectedCategory)
      ensures var f := Find(old(categories), key, CategoryKeyOf);
        f.Some? && !HasProductsIn(products, f.value.name) ==>
          && categories == DropKey(old(categories), key)
          && db == old(db).(categories := Store.Delete(old(db.categories), key, CategoryKeyOf))
          && selectedCategory == (if old(selectedCategory) == f.value.name then AllCategories else old(selectedCategory))
    {
      var cat := Find(categories, key, CategoryKeyOf);
      if cat.None? {
        return;
      }
      if HasProductsIn(products, cat.value.name) {
        return;
      }
      RemoveCategory(key);
      if selectedCategory == cat.value.name {
        selectedCategory := AllCategories;
      }
    }

    /** `idb.deleteCategory` and the removal of the key from the list. */
    method RemoveCategory(key: string)
      requires Valid()
      modifies this`categories, this`db
      ensures Valid()
      ensures categories == DropKey(old(categories), key)
      ensures db == old(db).(categories := Store.Delete(old(db.categories), key, CategoryKeyOf))
    {
      DropCategoryKeepsInvariant(categories, db.categories, key);
      db := db.(categories := Store.Delete(db.categories, key, CategoryKeyOf));
      categories := DropKey(categories, key);
    }

    // ----- products -----

    /** `upsertProduct` followed by `getProducts`. */
    method PutProduct(p: Product)
      requires Valid()
      modifies this`products, this`db
      ensures Valid()
      ensures db == old(db).(products := Store.Put(old(db.products), p, ProductId))
      ensures products == db.products
      ensures p in products
    {
      Store.PutKeyed(db.products, p, ProductId);
      Store.PutMembership(db.products, p, ProductId, p);
      db := db.(products := Store.Put(db.products, p, ProductId));
      products := db.products;
    }

    /** `addNewProduct`: the product, with its name capitalised and its
        category in display form ("Otros" when blank), is stored under
        `newId` and the products are read back. */
    method AddNewProduct(newId: string, name: string, price: int, categoryName: string)
      requires Valid()
      modifies this`products, this`db
      ensures Valid()
      ensures var p := Product(newId, Text.CapitalizeFirst(name), price, ProductCategory(categoryName));
        && db == old(db).(products := Store.Put(old(db.products), p, ProductId))
        && products == db.products
        && p in products
    {
      PutProduct(Product(newId, Text.CapitalizeFirst(name), price, ProductCategory(categoryName)));
    }

    /** `updateExistingProduct`: an unknown id is ignored; otherwise the
        product keeps its id and gets the new name, price and category, is
        stored, and the products are read back. */
    method UpdateExistingProduct(id: string, name: string, price: int, categoryName: string)
      requires Valid()
      modifies this`products, this`db
      ensures Valid()
      ensures Find(old(products), id, ProductId).None? ==> products == old(products) && db == old(db)
      ensures Find(old(products), id, ProductId).Some? ==>
        var p := Product(id, Text.CapitalizeFirst(name), price, ProductCategory(categoryName));
        && db == old(db).(products := Store.Put(old(db.products), p, ProductId))
        && products == db.products
        && p in products
    {
      var current := Find(products, id, ProductId);
      if current.None? {
        return;
      }
      PutProduct(current.value.(name := Text.CapitalizeFirst(name), price := price,
                                category := ProductCategory(categoryName)));
    }

    /** `deleteProduct`: the product is removed from the database, the
        products are read back, and its line leaves the cart. */
    method DeleteProduct(id: string)
      requires Valid()
      modifies this`products, this`db, this`cart
      ensures Valid()
      ensures db == old(db).(products := Store.Delete(old(db.products), id, ProductId))
      ensures products == db.products
      ensures forall i :: 0 <= i < |products| ==> products[i].id != id
      ensures cart == Cart.Without(old(cart), id)
    {
      Store.DeleteKeyed(db.products, id, ProductId);
      forall p | p in Store.Delete(db.products, id, ProductId) ensures p.id != id {
        Store.DeleteMembership(db.products, id, ProductId, p);
      }
      db := db.(products := Store.Delete(db.products, id, ProductId));
      products := db.products;
      Cart.WithoutKeepsWellFormed(cart, id);
      cart := Cart.Without(cart, id);
    }
  }

  /** The catalogue part of the initial load: the stored products, or the
      defaults (also stored) when there are none; the stored categories, or
      those derived from the products (also stored) when there are none. */
  method LoadCatalog(stored: Database, defaults: seq<Product>)
    returns (products: seq<Product>, categories: seq<Category>, d: Database)
    requires WellKeyed(stored)
    ensures WellKeyed(d) && CategoriesAgree(categories, d.categories)
    ensures d.orders == stored.orders && d.dayStart == stored.dayStart && d.dayEnd == stored.dayEnd
    ensures stored.products != [] ==> products == stored.products && d.products == stored.products
    ensures stored.products == [] ==> products == defaults && d.products == Store.PutAll([], defaults, ProductId)
    ensures stored.categories != [] ==> categories == stored.categories && d.categories == stored.categories
    ensures stored.categories == [] ==>
      && categories == SortBy(FirstByKey(TagsOf(products)), CategoryName)
      && d.categories == Store.PutAll([], categories, CategoryKeyOf)
  {
    d := stored;
    products := stored.products;
    if stored.products == [] {
      products := defaults;
      var seeded := UpsertAll([], defaults, ProductId);
      d := d.(products := seeded);
    }
    if stored.categories == [] {
      var seeded;
      categories, seeded := SeedCategories(products);
      d := d.(categories := seeded);
    } else {
      Store.KeyedUnique(stored.categories, CategoryKeyOf);
      categories := stored.categories;
    }
  }

  /** `deriveCategories` and the loop that stores each derived category:
      the list shown and the store end up with the same categories, one per
      key. */
  method SeedCategories(base: seq<Product>) returns (derived: seq<Category>, seeded: seq<Category>)
    ensures derived == SortBy(FirstByKey(TagsOf(base)), CategoryName)
    ensures seeded == Store.PutAll([], derived, CategoryKeyOf)
    ensures CategoriesAgree(derived, seeded)
  {
    derived := DeriveCategories(base);
    seeded := UpsertAll([], derived, CategoryKeyOf);
    DeriveCategoriesSpec(base);
    forall c ensures c in seeded <==> c in derived {
      Store.PutAllMembership([], derived, CategoryKeyOf, c);
    }
  }

  /** `setProducts` and the seeding `for` loop: the records of `vs` are
      upserted one after the other. */
  method UpsertAll<V>(s: seq<V>, vs: seq<V>, key: V -> string) returns (r: seq<V>)
    requires Store.Keyed(s, key)
    ensures r == Store.PutAll(s, vs, key)
    ensures Store.Keyed(r, key)
  {
    r := s;
    for i := 0 to |vs|
      invariant Store.Keyed(r, key)
      invariant Store.PutAll(r, vs[i..], key) == Store.PutAll(s, vs, key)
    {
      assert vs[i..][1..] == vs[i + 1..];
      Store.PutKeyed(r, vs[i], key);
      r := Store.Put(r, vs[i], key);
    }
  }

  /** Adding a category with a new key to the list and to the store keeps
      the list's keys unique and the two in agreement. */
  lemma {:induction false} AddCategoryKeepsInvariant(shown: seq<Category>, stored: seq<Category>, cat: Category)
    requires CategoriesAgree(shown, stored)
    requires Find(shown, cat.key, CategoryKeyOf).None?
    ensures CategoriesAgree(SortBy(shown + [cat], CategoryName), Store.Put(stored, cat, CategoryKeyOf))
  {
    var next := SortBy(shown + [cat], CategoryName);
    Store.PutKeyed(stored, cat, CategoryKeyOf);
    Store.KeysUniqueSnoc(shown, cat, CategoryKeyOf);
    Store.KeysUniquePermutation(shown + [cat], next, CategoryKeyOf);
    forall c ensures c in next <==> c in Store.Put(stored, cat, CategoryKeyOf) {
      SortByMembership(shown + [cat], CategoryName, c);
      Store.PutMembership(stored, cat, CategoryKeyOf, c);
      if c in stored {
        assert c in shown;
      }
    }
  }

  /** Dropping a key from the list and from the store keeps the list's keys
      unique and the two in agreement. */
  lemma {:induction false} DropCategoryKeepsInvariant(shown: seq<Category>, stored: seq<Category>, key: string)
    requires CategoriesAgree(shown, stored)
    ensures CategoriesAgree(DropKey(shown, key), Store.Delete(stored, key, CategoryKeyOf))
  {
    Store.DeleteKeyed(stored, key, CategoryKeyOf);
    DropKeyUnique(shown, key);
    forall c ensures c in DropKey(shown, key) <==> c in Store.Delete(stored, key, CategoryKeyOf) {
      DropKeyMembership(shown, key, c);
      Store.DeleteMembership(stored, key, CategoryKeyOf, c);
    }
  }
}

/** The pure parts of the kiosk hook: lookups, the product filter shown on
    the order screen, the category names of the filter bar, the lines of a
    paid order, the category a product is filed under, and
    `deriveCategories`. */
module KioskHelpers {
  import opened Types
  import opened Ascii
  import opened Ordering
  import opened Normalize
  import Store
  import Cart

  /** The filter-bar entry that selects every category. */
  const AllCategories: string := "Todos"

  /** The category of a product whose category name is blank. */
  const FallbackCategory: string := "Otros"

  // ----- `Array.prototype.find` -----

  /** `list.find((x) => x.<field> === k)`, with the field read by `key`: the
      first element carrying key `k`. */
  function Find<T>(s: seq<T>, k: string, key: T -> string): (r: Option<T>)
    ensures r.None? <==> forall i :: 0 <= i < |s| ==> key(s[i]) != k
    ensures r.Some? ==> exists i :: 0 <= i < |s| && s[i] == r.value && key(r.value) == k
                                    && forall j :: 0 <= j < i ==> key(s[j]) != k
  {
    if s == [] then None
    else if key(s[0]) == k then Some(s[0])
    else
      var r := Find(s[1..], k, key);
      assert forall i :: 1 <= i < |s| ==> s[i] == s[1..][i - 1];
      r
  }

  // ----- `filteredProducts` -----

  /** `list.filter((p) => p.category === selected)`. */
  function OfCategory(products: seq<Product>, selected: string): (r: seq<Product>)
    ensures |r| <= |products|
  {
    if products == [] then []
    else if products[0].category == selected then [products[0]] + OfCategory(products[1..], selected)
    else OfCategory(products[1..], selected)
  }

  /** The text a search term is looked for in: name and category, lowercased. */
  function SearchText(p: Product): string
  {
    Lower(p.name + " " + p.category)
  }

  /** `list.filter((p) => ...toLowerCase().includes(q))`. */
  function Matching(products: seq<Product>, q: string): (r: seq<Product>)
    ensures |r| <= |products|
  {
    if products == [] then []
    else if Includes(SearchText(products[0]), q) then [products[0]] + Matching(products[1..], q)
    else Matching(products[1..], q)
  }

  /** The search term: the query trimmed and lowercased. */
  function SearchTerm(query: string): string
  {
    Lower(Trim(query))
  }

  predicate InSelectedCategory(p: Product, selected: string)
  {
    selected == AllCategories || p.category == selected
  }

  /** A term shorter than three characters does not filter. */
  predicate MatchesSearch(p: Product, q: string)
  {
    |q| < 3 || Includes(SearchText(p), q)
  }

  /** `filteredProducts`: the products of the selected category (all of them
      for "Todos") that match a search term of three or more characters,
      sorted by name. */
  function FilterProducts(products: seq<Product>, selected: string, query: string): (r: seq<Product>)
    ensures |r| <= |products|
    ensures SortedBy(r, ProductName)
  {
    var byCategory := if selected != AllCategories then OfCategory(products, selected) else products;
    var q := SearchTerm(query);
    var byQuery := if |q| >= 3 then Matching(byCategory, q) else byCategory;
    SortBy(byQuery, ProductName)
  }

  lemma {:induction false} OfCategoryMembership(products: seq<Product>, selected: string, p: Product)
    ensures p in OfCategory(products, selected) <==> p in products && p.category == selected
  {
    if products != [] {
      OfCategoryMembership(products[1..], selected, p);
      assert p in products <==> p == products[0] || p in products[1..];
    }
  }

  lemma {:induction false} MatchingMembership(products: seq<Product>, q: string, p: Product)
    ensures p in Matching(products, q) <==> p in products && Includes(SearchText(p), q)
  {
    if products != [] {
      MatchingMembership(products[1..], q, p);
      assert p in products <==> p == products[0] || p in products[1..];
    }
  }

  /** A product is listed exactly when it is in the selected category and
      matches the search term. */
  lemma {:induction false} FilterProductsMembership(products: seq<Product>, selected: string, query: string, p: Product)
    ensures p in FilterProducts(products, selected, query) <==>
      p in products && InSelectedCategory(p, selected) && MatchesSearch(p, SearchTerm(query))
  {
    var byCategory := if selected != AllCategories then OfCategory(products, selected) else products;
    var q := SearchTerm(query);
    var byQuery := if |q| >= 3 then Matching(byCategory, q) else byCategory;
    OfCategoryMembership(products, selected, p);
    MatchingMembership(byCategory, q, p);
    SortByMembership(byQuery, ProductName, p);
  }

  /** With "Todos" selected and a short query every product is listed. */
  lemma {:induction false} FilterProductsAll(products: seq<Product>, query: string)
    requires |SearchTerm(query)| < 3
    ensures multiset(FilterProducts(products, AllCategories, query)) == multiset(products)
  {
  }

  // ----- `categoryNames` -----

  /** `["Todos", ...categories.map((c) => c.name)]`. */
  function CategoryNames(categories: seq<Category>): (r: seq<string>)
    ensures |r| == |categories| + 1 && r[0] == AllCategories
    ensures forall i :: 0 <= i < |categories| ==> r[i + 1] == categories[i].name
  {
    [AllCategories] + seq(|categories|, i requires 0 <= i < |categories| => categories[i].name)
  }

  // ----- the lines of a paid order -----

  /** The snapshot of one cart line stored with an order. */
  function LineOf(c: CartItem): (l: OrderLine)
    ensures l.subtotal == Cart.LineTotal(c)
  {
    OrderLine(c.product.id, c.product.name, c.product.category, c.product.price,
              c.quantity, c.quantity * c.product.price)
  }

  /** `cart.map(...)`: one order line per cart line, in cart order. */
  function LinesOf(cart: seq<CartItem>): (r: seq<OrderLine>)
    ensures |r| == |cart|
    ensures forall i :: 0 <= i < |cart| ==> r[i] == LineOf(cart[i])
  {
    seq(|cart|, i requires 0 <= i < |cart| => LineOf(cart[i]))
  }

  /** The sum of the subtotals, as a left fold. */
  function SumSubtotals(lines: seq<OrderLine>): int
  {
    if lines == [] then 0
    else SumSubtotals(lines[..|lines| - 1]) + lines[|lines| - 1].subtotal
  }

  /** An order's lines add up to the cart total it was paid with. */
  lemma {:induction false} LinesTotal(cart: seq<CartItem>)
    ensures SumSubtotals(LinesOf(cart)) == Cart.TotalOf(cart)
    decreases |cart|
  {
    if cart != [] {
      var n := |cart|;
      assert LinesOf(cart)[..n - 1] == LinesOf(cart[..n - 1]);
      LinesTotal(cart[..n - 1]);
    }
  }

  // ----- the category of a product -----

  /** `prettyCategoryName(categoryName) || "Otros"`. */
  function ProductCategory(categoryName: string): (r: string)
  {
    var pretty := PrettyCategoryName(categoryName);
    if pretty != [] then pretty else FallbackCategory
  }

  /** A product is never filed under an empty category, and a non-blank
      category name is filed in display form, under its own key. */
  lemma {:induction false} ProductCategoryShape(categoryName: string)
    ensures ProductCategory(categoryName) != []
    ensures PrettyCategoryName(categoryName) != [] ==>
      && PrettyCategoryName(ProductCategory(categoryName)) == ProductCategory(categoryName)
      && CategoryKey(ProductCategory(categoryName)) == CategoryKey(categoryName)
  {
    PrettyIdempotent(categoryName);
    KeyOfPretty(categoryName);
  }

  // ----- `deriveCategories` -----

  /** The category a product's category name stands for: its key and its
      display name. */
  function TagOf(p: Product): Category
  {
    Category(CategoryKey(p.category), PrettyCategoryName(p.category))
  }

  /** The category of every product, in product order. */
  function TagsOf(products: seq<Product>): (r: seq<Category>)
    ensures |r| == |products|
    ensures forall i :: 0 <= i < |products| ==> r[i] == TagOf(products[i])
  {
    seq(|products|, i requires 0 <= i < |products| => TagOf(products[i]))
  }

  /** The entries of a `Map` keyed by category key that is filled only with
      keys it does not hold yet, in insertion order. */
  function FirstByKey(tags: seq<Category>): (r: seq<Category>)
    decreases |tags|
  {
    if tags == [] then []
    else
      var seen := FirstByKey(tags[..|tags| - 1]);
      var t := tags[|tags| - 1];
      if Find(seen, t.key, CategoryKeyOf).Some? then seen else seen + [t]
  }

  /** `deriveCategories`: the `for` loop fills the map, then its values are
      sorted by name. */
  method DeriveCategories(products: seq<Product>) returns (r: seq<Category>)
    ensures r == SortBy(FirstByKey(TagsOf(products)), CategoryName)
  {
    var entries: seq<Category> := [];
    for i := 0 to |products|
      invariant entries == FirstByKey(TagsOf(products[..i]))
    {
      var c := TagOf(products[i]);
      assert TagsOf(products[..i + 1])[..i] == TagsOf(products[..i]);
      if Find(entries, c.key, CategoryKeyOf).None? {
        entries := entries + [c];
      }
    }
    assert products[..|products|] == products;
    r := SortBy(entries, CategoryName);
  }

  /** No key occurs twice among the entries. */
  lemma {:induction false} FirstByKeyUnique(tags: seq<Category>)
    ensures Store.KeysUnique(FirstByKey(tags), CategoryKeyOf)
    decreases |tags|
  {
    if tags != [] {
      var seen := FirstByKey(tags[..|tags| - 1]);
      var e := tags[|tags| - 1];
      FirstByKeyUnique(tags[..|tags| - 1]);
      if Find(seen, e.key, CategoryKeyOf).None? {
        Store.KeysUniqueSnoc(seen, e, CategoryKeyOf);
      }
    }
  }

  /** A key found in a list is still found once more entries follow. */
  lemma {:induction false} FindAppend<T>(a: seq<T>, b: seq<T>, k: string, key: T -> string)
    requires Find(a, k, key).Some?
    ensures Find(a + b, k, key).Some?
  {
    var i :| 0 <= i < |a| && key(a[i]) == k;
    assert (a + b)[i] == a[i];
  }

  /** Every key among the tags has an entry. */
  lemma {:induction false} FirstByKeyCovers(tags: seq<Category>, i: int)
    requires 0 <= i < |tags|
    ensures Find(FirstByKey(tags), tags[i].key, CategoryKeyOf).Some?
    decreases |tags|
  {
    var n := |tags|;
    var init := tags[..n - 1];
    var seen := FirstByKey(init);
    var t := tags[n - 1];
    if i < n - 1 {
      FirstByKeyCovers(init, i);
      assert init[i] == tags[i];
      if Find(seen, t.key, CategoryKeyOf).None? {
        FindAppend(seen, [t], tags[i].key, CategoryKeyOf);
      }
    } else if Find(seen, t.key, CategoryKeyOf).None? {
      assert (seen + [t])[|seen|] == t;
    }
  }

  /** `tags[i]` is the first tag with key `c.key`, and it is `c`. */
  ghost predicate FirstWithKey(tags: seq<Category>, c: Category, i: int)
  {
    && 0 <= i < |tags|
    && tags[i] == c
    && forall j :: 0 <= j < i ==> tags[j].key != c.key
  }

  /** Every entry is the first tag with its key. */
  lemma {:induction false} FirstByKeyFromFirst(tags: seq<Category>, c: Category)
    requires c in FirstByKey(tags)
    ensures exists i :: FirstWithKey(tags, c, i)
    decreases |tags|
  {
    var n := |tags|;
    var init := tags[..n - 1];
    var seen := FirstByKey(init);
    if c in seen {
      FirstByKeyFromFirst(init, c);
      var i :| FirstWithKey(init, c, i);
      assert forall j :: 0 <= j <= i ==> init[j] == tags[j];
      assert FirstWithKey(tags, c, i);
    } else {
      assert c == tags[n - 1] && Find(seen, c.key, CategoryKeyOf).None?;
      forall j | 0 <= j < n - 1 ensures tags[j].key != c.key {
        assert init[j] == tags[j];
        FirstByKeyCovers(init, j);
      }
      assert FirstWithKey(tags, c, n - 1);
    }
  }

  /** The category of `products[i]` is the derived entry `c`, and no
      earlier product has a category with the same key. */
  ghost predicate NamedAfterFirst(products: seq<Product>, c: Category, i: int)
  {
    && 0 <= i < |products|
    && TagOf(products[i]) == c
    && forall j :: 0 <= j < i ==> TagOf(products[j]).key != c.key
  }

  /** `deriveCategories` yields one category per distinct key among the
      products, named after the first product carrying that key, with no key
      twice, sorted by name. */
  lemma {:induction false} DeriveCategoriesSpec(products: seq<Product>)
    ensures var r := SortBy(FirstByKey(TagsOf(products)), CategoryName);
      && SortedBy(r, CategoryName)
      && Store.KeysUnique(r, CategoryKeyOf)
      && (forall i :: 0 <= i < |products| ==> Find(r, TagOf(products[i]).key, CategoryKeyOf).Some?)
      && (forall c :: c in r ==> exists i :: NamedAfterFirst(products, c, i))
  {
    var tags := TagsOf(products);
    var seen := FirstByKey(tags);
    var r := SortBy(seen, CategoryName);
    FirstByKeyUnique(tags);
    assert forall x :: x in r <==> x in seen by {
      forall x ensures x in r <==> x in seen {
        SortByMembership(seen, CategoryName, x);
      }
    }
    Store.KeysUniquePermutation(seen, r, CategoryKeyOf);
    forall i | 0 <= i < |products| ensures Find(r, TagOf(products[i]).key, CategoryKeyOf).Some? {
      FirstByKeyCovers(tags, i);
      var f := Find(seen, tags[i].key, CategoryKeyOf);
      var j :| 0 <= j < |seen| && seen[j] == f.value;
      assert seen[j] in r;
    }
    forall c | c in r ensures exists i :: NamedAfterFirst(products, c, i) {
      FirstByKeyFromFirst(tags, c);
      var i :| FirstWithKey(tags, c, i);
      assert NamedAfterFirst(products, c, i);
    }
  }

  // ----- `deleteCategory` -----

  /** `categories.filter((c) => c.key !== key)`. */
  function DropKey(categories: seq<Category>, key: string): (r: seq<Category>)
    ensures |r| <= |categories|
  {
    if categories == [] then []
    else if categories[0].key == key then DropKey(categories[1..], key)
    else [categories[0]] + DropKey(categories[1..], key)
  }

  lemma {:induction false} DropKeyMembership(categories: seq<Category>, key: string, c: Category)
    ensures c in DropKey(categories, key) <==> c in categories && c.key != key
  {
    if categories != [] {
      DropKeyMembership(categories[1..], key, c);
      assert c in categories <==> c == categories[0] || c in categories[1..];
    }
  }

  lemma {:induction false} DropKeyMultiplicity(categories: seq<Category>, key: string, c: Category)
    ensures multiset(DropKey(categories, key))[c] <= multiset(categories)[c]
  {
    if categories != [] {
      DropKeyMultiplicity(categories[1..], key, c);
      assert categories == [categories[0]] + categories[1..];
    }
  }

  /** Dropping a key keeps the keys unique. */
  lemma DropKeyUnique(categories: seq<Category>, key: string)
    requires Store.KeysUnique(categories, CategoryKeyOf)
    ensures Store.KeysUnique(DropKey(categories, key), CategoryKeyOf)
  {
    forall c ensures c in DropKey(categories, key) ==> c in categories {
      DropKeyMembership(categories, key, c);
    }
    forall c ensures multiset(DropKey(categories, key))[c] <= 1 {
      DropKeyMultiplicity(categories, key, c);
    }
  }

  /** `products.some((p) => p.category === name)`. */
  predicate HasProductsIn(products: seq<Product>, name: string)
  {
    exists i :: 0 <= i < |products| && products[i].category == name
  }
}

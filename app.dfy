/** The earlier kiosk lifecycle, kept in the top-level component: the same
    screens and day transitions as the hook, an in-memory order list that is
    mirrored to browser local storage after every change, and the rule that
    picks the screen from a day persisted before a reload. */
module App {
  import opened Types
  import opened Ordering
  import opened KioskHelpers
  import EndOfDay
  import Cart

  /** What the local-storage key of the orders holds: nothing, a list that
      parses, or text that does not (including the empty string). */
  datatype StoredOrders = Absent | Stored(list: seq<Order>) | Unparseable

  /** `loadOrders`: a missing key, an empty value and a value that fails to
      parse all read as no orders. */
  function LoadOrders(stored: StoredOrders): (r: seq<Order>)
    ensures stored.Stored? ==> r == stored.list
    ensures !stored.Stored? ==> r == []
  {
    match stored
    case Stored(list) => list
    case _ => []
  }

  class AppState {
    /** The bundled catalogue, as imported. */
    const catalog: seq<Product>

    var screen: Screen
    var cart: seq<CartItem>
    var dayStart: Option<string>
    var dayEnd: Option<string>
    var orders: seq<Order>

    /** The three local-storage keys: day start, day end, and orders. */
    var storedStart: Option<string>
    var storedEnd: Option<string>
    var storedOrders: StoredOrders

    /** The persisted day and orders always read back as the ones in memory,
        and the cart has one line per product. */
    ghost predicate Valid()
      reads this
    {
      && storedStart == dayStart
      && storedEnd == dayEnd
      && LoadOrders(storedOrders) == orders
      && Cart.WellFormed(cart)
    }

    /** The products, sorted by name. */
    function Products(): (r: seq<Product>)
      ensures SortedBy(r, ProductName)
      ensures multiset(r) == multiset(catalog)
    {
      SortBy(catalog, ProductName)
    }

    /** `total`; its properties are those of `Cart.TotalOf` (Cart.TotalOfAppend,
        Cart.TotalAfterAdd, Cart.TotalOfClear). */
    function Total(): int
      reads this
    {
      Cart.TotalOf(cart)
    }

    /** The first render and the restore effect: the day and the orders are
        read back from storage; a started day that has not ended resumes on
        the order screen, an ended one shows the summary, and otherwise the
        welcome screen stays (also when only an end is stored). */
    constructor Restore(catalog: seq<Product>, start: Option<string>, end: Option<string>, stored: StoredOrders)
      ensures Valid()
      ensures this.catalog == catalog
      ensures storedStart == start && storedEnd == end && storedOrders == stored
      ensures dayStart == start && dayEnd == end && orders == LoadOrders(stored) && cart == []
      ensures Truthy(start) && !Truthy(end) ==> screen == OrderScreen
      ensures Truthy(start) && Truthy(end) ==> screen == EndDayScreen
      ensures !Truthy(start) ==> screen == WelcomeScreen
    {
      this.catalog := catalog;
      screen := WelcomeScreen;
      cart := [];
      storedStart := start;
      storedEnd := end;
      storedOrders := stored;
      dayStart := start;
      dayEnd := end;
      orders := LoadOrders(stored);
      if Truthy(start) && !Truthy(end) {
        screen := OrderScreen;
      }
      if Truthy(start) && Truthy(end) {
        screen := EndDayScreen;
      }
    }

    /** `handleAdd`. */
    method HandleAdd(p: Product)
      requires Valid()
      modifies this`cart
      ensures Valid()
      ensures cart == Cart.AddToCart(old(cart), p)
    {
      Cart.AddKeepsWellFormed(cart, p);
      cart := Cart.AddToCart(cart, p);
    }

    /** `handleAddById`: an id that names no product leaves the cart alone. */
    method HandleAddById(id: string)
      requires Valid()
      modifies this`cart
      ensures Valid()
      ensures Find(Products(), id, ProductId).None? ==> cart == old(cart)
      ensures Find(Products(), id, ProductId).Some? ==> cart == Cart.AddToCart(old(cart), Find(Products(), id, ProductId).value)
    {
      var p := Find(Products(), id, ProductId);
      if p.None? {
        return;
      }
      Cart.AddKeepsWellFormed(cart, p.value);
      cart := Cart.AddToCart(cart, p.value);
    }

    /** `handleRemove`. */
    method HandleRemove(id: string)
      requires Valid()
      modifies this`cart
      ensures Valid()
      ensures cart == Cart.RemoveFromCart(old(cart), id)
    {
      Cart.RemoveKeepsWellFormed(cart, id);
      cart := Cart.RemoveFromCart(cart, id);
    }

    /** `handleClear`. */
    method HandleClear()
      requires Valid()
      modifies this`cart
      ensures Valid()
      ensures cart == [] && Total() == 0
    {
      cart := Cart.ClearCart();
    }

    /** `setScreen`: the back button of the checkout screen and the checkout
        button of the order screen. */
    method SetScreen(s: Screen)
      requires Valid()
      requires s == OrderScreen || s == CheckoutScreen
      modifies this`screen
      ensures Valid()
      ensures screen == s
    {
      screen := s;
    }

    /** `startDay`: a new day from `now`, with no orders and an empty cart;
        the start is stored, the end removed and an empty order list saved. */
    method StartDay(now: string)
      requires Valid()
      modifies this`dayStart, this`dayEnd, this`orders, this`cart, this`screen,
               this`storedStart, this`storedEnd, this`storedOrders
      ensures Valid()
      ensures dayStart == Some(now) && dayEnd == None && orders == [] && cart == []
      ensures storedStart == Some(now) && storedEnd == None && storedOrders == Stored([])
      ensures screen == OrderScreen
    {
      dayStart := Some(now);
      dayEnd := None;
      orders := [];
      storedStart := Some(now);
      storedEnd := None;
      storedOrders := Stored([]);
      cart := Cart.ClearCart();
      screen := OrderScreen;
    }

    /** `confirmPaid`: with a positive total the order is appended at the end
        of the list, which is saved; the cart is emptied and the order screen
        shown. The day's takings grow by exactly the cart total. A total of
        zero or less changes nothing. */
    method ConfirmPaid(newId: string, now: string)
      requires Valid()
      modifies this`orders, this`storedOrders, this`cart, this`screen
      ensures Valid()
      ensures old(Total()) <= 0 ==>
        orders == old(orders) && storedOrders == old(storedOrders) && cart == old(cart) && screen == old(screen)
      ensures old(Total()) > 0 ==>
        && orders == old(orders) + [Order(newId, old(Total()), now, [])]
        && storedOrders == Stored(orders)
        && EndOfDay.TotalDay(orders) == EndOfDay.TotalDay(old(orders)) + old(Total())
        && cart == [] && screen == OrderScreen
    {
      var total := Total();
      if total <= 0 {
        return;
      }
      var next := orders + [Order(newId, total, now, [])];
      assert next[..|next| - 1] == orders;
      storedOrders := Stored(next);
      orders := next;
      cart := Cart.ClearCart();
      screen := OrderScreen;
    }

    /** `endDay`: only the end of the day (stored too) and the screen change. */
    method EndDay(now: string)
      requires Valid()
      modifies this`dayEnd, this`storedEnd, this`screen
      ensures Valid()
      ensures dayEnd == Some(now) && storedEnd == Some(now)
      ensures screen == EndDayScreen
    {
      dayEnd := Some(now);
      storedEnd := Some(now);
      screen := EndDayScreen;
    }

    /** `closeApp`: back to the welcome screen with no day and no orders; the
        three storage keys are removed. */
    method CloseApp()
      requires Valid()
      modifies this`screen, this`cart, this`dayStart, this`dayEnd, this`orders,
               this`storedStart, this`storedEnd, this`storedOrders
      ensures Valid()
      ensures screen == WelcomeScreen && cart == [] && dayStart == None && dayEnd == None && orders == []
      ensures storedStart == None && storedEnd == None && storedOrders == Absent
    {
      screen := WelcomeScreen;
      cart := Cart.ClearCart();
      dayStart := None;
      dayEnd := None;
      orders := [];
      storedStart := None;
      storedEnd := None;
      storedOrders := Absent;
    }
  }
}

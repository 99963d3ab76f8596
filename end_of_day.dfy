/** The values the end-of-day summary shows: the day's takings, the number
    of orders, and the listing of orders newest first, numbered from the
    number of orders down to 1. */
module EndOfDay {
  import opened Types

  /** `orders.reduce((sum, o) => sum + o.total, 0)`. */
  function TotalDay(orders: seq<Order>): int
  {
    if orders == [] then 0
    else TotalDay(orders[..|orders| - 1]) + orders[|orders| - 1].total
  }

  /** The takings of two runs of orders add up. */
  lemma {:induction false} TotalDayAppend(a: seq<Order>, b: seq<Order>)
    ensures TotalDay(a + b) == TotalDay(a) + TotalDay(b)
    decreases |b|
  {
    if b == [] {
      assert a + b == a;
    } else {
      var n := |b|;
      assert (a + b)[..|a + b| - 1] == a + b[..n - 1];
      TotalDayAppend(a, b[..n - 1]);
    }
  }

  /** With every order paid for a positive amount, the takings are zero
      exactly for a day without orders. The bound by the number of orders
      holds because money is an integral count of minor units here, so a
      positive total is at least one unit; it is the induction hypothesis
      the second clause needs, not a promise of the summary screen. */
  lemma {:induction false} TotalDayPositive(orders: seq<Order>)
    requires forall i :: 0 <= i < |orders| ==> orders[i].total > 0
    ensures TotalDay(orders) >= |orders|
    ensures TotalDay(orders) == 0 <==> orders == []
    decreases |orders|
  {
    if orders != [] {
      TotalDayPositive(orders[..|orders| - 1]);
    }
  }

  /** `slice().reverse()`: a fresh list, newest order first. */
  function Reversed<T>(s: seq<T>): (r: seq<T>)
    ensures |r| == |s|
    ensures forall i :: 0 <= i < |s| ==> r[i] == s[|s| - 1 - i]
  {
    seq(|s|, i requires 0 <= i < |s| => s[|s| - 1 - i])
  }

  /** Reversing twice gives back the list. */
  lemma {:induction false} ReversedTwice<T>(s: seq<T>)
    ensures Reversed(Reversed(s)) == s
  {
  }

  /** Listing the orders newest first does not change the takings. */
  lemma {:induction false} TotalDayReversed(orders: seq<Order>)
    ensures TotalDay(Reversed(orders)) == TotalDay(orders)
    decreases |orders|
  {
    if orders != [] {
      var n := |orders|;
      var init := orders[..n - 1];
      assert Reversed(orders) == [orders[n - 1]] + Reversed(init);
      TotalDayAppend([orders[n - 1]], Reversed(init));
      TotalDayReversed(init);
      assert [orders[n - 1]][..0] == [];
    }
  }

  /** One line of the listing: "Pedido #number" and the order it shows. */
  datatype Row = Row(number: int, order: Order)

  /** The listing: row `idx` shows the reversed list's order `idx`, labelled
      `orders.length - idx`. */
  function Listing(orders: seq<Order>): (rows: seq<Row>)
    ensures |rows| == |orders|
  {
    var rev := Reversed(orders);
    seq(|orders|, idx requires 0 <= idx < |orders| => Row(|orders| - idx, rev[idx]))
  }

  /** Every row's label is the order's position in the day, counted from 1;
      labels strictly decrease down the listing, so each occurs once, and the
      newest order comes first, labelled with the number of orders. */
  lemma {:induction false} ListingNumbering(orders: seq<Order>)
    ensures var rows := Listing(orders);
      && (forall idx :: 0 <= idx < |rows| ==>
            1 <= rows[idx].number <= |orders| && rows[idx].order == orders[rows[idx].number - 1])
      && (forall i, j :: 0 <= i < j < |rows| ==> rows[i].number > rows[j].number)
      && (orders != [] ==> rows[0] == Row(|orders|, orders[|orders| - 1]))
  {
  }

  /** `fmtLocal`: a missing or empty timestamp shows as "-"; any other is
      shown as the locale rendering `formatted`. */
  function FmtLocal(iso: Option<string>, formatted: string): (r: string)
    ensures !Truthy(iso) ==> r == "-"
    ensures Truthy(iso) ==> r == formatted
  {
    if !Truthy(iso) then "-" else formatted
  }
}

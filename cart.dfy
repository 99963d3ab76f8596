/** Cart arithmetic: value-level operations on the ordered list of cart
    lines. Every operation returns a new cart and leaves its argument alone. */
module Cart {
  import opened Types
  import Seqs

  /** The cart invariant: one line per product id, every quantity at least 1. */
  ghost predicate WellFormed(cart: seq<CartItem>)
  {
    && (forall i, j :: 0 <= i < j < |cart| ==> cart[i].product.id != cart[j].product.id)
    && (forall i :: 0 <= i < |cart| ==> cart[i].quantity >= 1)
  }

  ghost predicate HasId(cart: seq<CartItem>, id: string)
  {
    exists i :: 0 <= i < |cart| && cart[i].product.id == id
  }

  /** `findIndex` on the product id: the first matching line, or -1. */
  function FindIndex(cart: seq<CartItem>, id: string): (idx: int)
    ensures -1 <= idx < |cart|
    ensures idx == -1 <==> !HasId(cart, id)
    ensures idx >= 0 ==> cart[idx].product.id == id
    ensures forall i :: 0 <= i < idx ==> cart[i].product.id != id
  {
    if cart == [] then -1
    else if cart[0].product.id == id then 0
    else
      var k := FindIndex(cart[1..], id);
      if k == -1 then
        assert forall i :: 1 <= i < |cart| ==> cart[i] == cart[1..][i - 1];
        -1
      else k + 1
  }

  /** In a well-formed cart the line carrying `id` is the only one. */
  lemma {:induction false} FindIndexUnique(cart: seq<CartItem>, id: string, i: int)
    requires WellFormed(cart)
    requires 0 <= i < |cart| && cart[i].product.id == id
    ensures FindIndex(cart, id) == i
  {
  }

  /** `addToCart`: one more unit of `product`. A product already in the cart
      has its first line's quantity raised by one in place, keeping the
      product snapshot already stored there; a new product is appended with
      quantity 1. */
  function AddToCart(cart: seq<CartItem>, product: Product): (r: seq<CartItem>)
    ensures HasId(cart, product.id) ==>
      var k := FindIndex(cart, product.id);
      && |r| == |cart|
      && r[k] == CartItem(cart[k].product, cart[k].quantity + 1)
      && (forall i :: 0 <= i < |cart| && i != k ==> r[i] == cart[i])
    ensures !HasId(cart, product.id) ==> r == cart + [CartItem(product, 1)]
  {
    var idx := FindIndex(cart, product.id);
    if idx >= 0 then
      seq(|cart|, i requires 0 <= i < |cart| =>
        if i == idx then cart[i].(quantity := cart[i].quantity + 1) else cart[i])
    else
      cart + [CartItem(product, 1)]
  }

  /** The `map` step of `removeFromCart`: every line carrying `id` loses one unit. */
  function Decrement(cart: seq<CartItem>, id: string): (r: seq<CartItem>)
    ensures |r| == |cart|
    ensures forall i :: 0 <= i < |cart| ==> r[i].product == cart[i].product
    ensures forall i :: 0 <= i < |cart| ==>
      r[i].quantity == if cart[i].product.id == id then cart[i].quantity - 1 else cart[i].quantity
  {
    seq(|cart|, i requires 0 <= i < |cart| =>
      if cart[i].product.id == id then cart[i].(quantity := cart[i].quantity - 1) else cart[i])
  }

  predicate IsPositive(c: CartItem)
  {
    c.quantity > 0
  }

  /** `removeFromCart`: decrement the lines carrying `productId`, then drop
      every line whose quantity is no longer positive. */
  function RemoveFromCart(cart: seq<CartItem>, productId: string): (r: seq<CartItem>)
    ensures |r| <= |cart|
    ensures forall i :: 0 <= i < |r| ==> r[i].quantity > 0
  {
    Seqs.Filter(Decrement(cart, productId), IsPositive)
  }

  /** `clearCart`. */
  function ClearCart(): (r: seq<CartItem>)
    ensures |r| == 0
  {
    []
  }

  function LineTotal(c: CartItem): int
  {
    c.product.price * c.quantity
  }

  /** `totalOf`: the left fold of price times quantity over the lines. */
  function TotalOf(cart: seq<CartItem>): int
  {
    if cart == [] then 0
    else TotalOf(cart[..|cart| - 1]) + LineTotal(cart[|cart| - 1])
  }

  // ----- total -----

  lemma {:induction false} TotalOfAppend(a: seq<CartItem>, b: seq<CartItem>)
    ensures TotalOf(a + b) == TotalOf(a) + TotalOf(b)
    decreases |b|
  {
    if b == [] {
      assert a + b == a;
    } else {
      assert (a + b)[..|a + b| - 1] == a + b[..|b| - 1];
      TotalOfAppend(a, b[..|b| - 1]);
    }
  }

  /** Replacing one line changes the total by the difference of the two lines. */
  lemma {:induction false} TotalOfUpdate(cart: seq<CartItem>, k: int, c: CartItem)
    requires 0 <= k < |cart|
    ensures TotalOf(cart[k := c]) == TotalOf(cart) - LineTotal(cart[k]) + LineTotal(c)
    decreases |cart|
  {
    var n := |cart|;
    var u := cart[k := c];
    if k < n - 1 {
      assert u[..n - 1] == cart[..n - 1][k := c];
      TotalOfUpdate(cart[..n - 1], k, c);
    } else {
      assert u[..n - 1] == cart[..n - 1];
    }
  }

  lemma {:induction false} OneMoreUnit(c: CartItem)
    ensures LineTotal(c.(quantity := c.quantity + 1)) == LineTotal(c) + c.product.price
  {
    assert c.product.price * (c.quantity + 1) == c.product.price * c.quantity + c.product.price;
  }

  lemma {:induction false} TotalAfterAddNew(cart: seq<CartItem>, p: Product)
    requires !HasId(cart, p.id)
    ensures TotalOf(AddToCart(cart, p)) == TotalOf(cart) + p.price
  {
    TotalOfAppend(cart, [CartItem(p, 1)]);
    assert TotalOf([CartItem(p, 1)]) == p.price by {
      assert [CartItem(p, 1)][..0] == [];
    }
  }

  lemma {:induction false} TotalAfterAddPresent(cart: seq<CartItem>, p: Product)
    requires HasId(cart, p.id)
    ensures TotalOf(AddToCart(cart, p)) == TotalOf(cart) + cart[FindIndex(cart, p.id)].product.price
  {
    var k := FindIndex(cart, p.id);
    var c := cart[k];
    var u := c.(quantity := c.quantity + 1);
    var r := AddToCart(cart, p);
    assert r == cart[k := u] by {
      assert |r| == |cart[k := u]|;
      forall i | 0 <= i < |r| ensures r[i] == cart[k := u][i] {
      }
    }
    TotalOfUpdate(cart, k, u);
    OneMoreUnit(c);
  }

  /** The total grows by the price of one unit: `p.price` for a new product,
      and for a product already in the cart the price in the stored snapshot. */
  lemma {:induction false} TotalAfterAdd(cart: seq<CartItem>, p: Product)
    ensures !HasId(cart, p.id) ==> TotalOf(AddToCart(cart, p)) == TotalOf(cart) + p.price
    ensures HasId(cart, p.id) ==>
      TotalOf(AddToCart(cart, p)) == TotalOf(cart) + cart[FindIndex(cart, p.id)].product.price
  {
    if HasId(cart, p.id) {
      TotalAfterAddPresent(cart, p);
    } else {
      TotalAfterAddNew(cart, p);
    }
  }

  lemma {:induction false} TotalOfClear()
    ensures TotalOf(ClearCart()) == 0
  {
  }

  // ----- add and remove -----

  /** In a well-formed cart only the line carrying `id` is decremented. */
  lemma {:induction false} DecrementSplit(cart: seq<CartItem>, id: string, k: int)
    requires WellFormed(cart) && 0 <= k < |cart| && cart[k].product.id == id
    ensures Decrement(cart, id)
         == cart[..k] + [cart[k].(quantity := cart[k].quantity - 1)] + cart[k + 1..]
  {
    var d := Decrement(cart, id);
    var r := cart[..k] + [cart[k].(quantity := cart[k].quantity - 1)] + cart[k + 1..];
    forall i | 0 <= i < |cart| ensures d[i] == r[i] {
      if i != k {
        assert cart[i].product.id != id;
      }
    }
  }

  lemma {:induction false} RemoveSplit(pre: seq<CartItem>, c: CartItem, post: seq<CartItem>, id: string)
    requires forall i :: 0 <= i < |pre| ==> pre[i].quantity >= 1
    requires forall i :: 0 <= i < |post| ==> post[i].quantity >= 1
    requires Decrement(pre + [c] + post, id) == pre + [c.(quantity := c.quantity - 1)] + post
    ensures RemoveFromCart(pre + [c] + post, id)
         == pre + (if c.quantity > 1 then [c.(quantity := c.quantity - 1)] else []) + post
  {
    var c' := c.(quantity := c.quantity - 1);
    Seqs.FilterAppend(pre + [c'], post, IsPositive);
    Seqs.FilterAppend(pre, [c'], IsPositive);
    Seqs.FilterAll(pre, IsPositive);
    Seqs.FilterAll(post, IsPositive);
    assert Seqs.Filter([c'], IsPositive) == if c'.quantity > 0 then [c'] else [];
  }

  /** Removing from a well-formed cart: the matching line loses one unit in
      place, or disappears when it had a single unit; the lines before and
      after it are untouched. */
  lemma {:induction false} RemovePresent(cart: seq<CartItem>, id: string)
    requires WellFormed(cart) && HasId(cart, id)
    ensures var k := FindIndex(cart, id);
      RemoveFromCart(cart, id)
        == cart[..k]
           + (if cart[k].quantity > 1 then [cart[k].(quantity := cart[k].quantity - 1)] else [])
           + cart[k + 1..]
  {
    var k := FindIndex(cart, id);
    DecrementSplit(cart, id, k);
    assert cart == cart[..k] + [cart[k]] + cart[k + 1..];
    RemoveSplit(cart[..k], cart[k], cart[k + 1..], id);
  }

  /** Removing an id no line carries gives back the same cart, provided every
      quantity is positive (otherwise the filter would drop those lines). */
  lemma {:induction false} RemoveAbsent(cart: seq<CartItem>, id: string)
    requires forall i :: 0 <= i < |cart| ==> cart[i].quantity >= 1
    requires !HasId(cart, id)
    ensures RemoveFromCart(cart, id) == cart
  {
    assert Decrement(cart, id) == cart;
    Seqs.FilterAll(cart, IsPositive);
  }

  /** The lines that do not carry `id`, in order. */
  function Without(cart: seq<CartItem>, id: string): (r: seq<CartItem>)
    ensures |r| <= |cart|
    ensures forall i :: 0 <= i < |r| ==> r[i].product.id != id
  {
    if cart == [] then []
    else if cart[0].product.id != id then [cart[0]] + Without(cart[1..], id)
    else Without(cart[1..], id)
  }

  lemma {:induction false} WithoutAppend(a: seq<CartItem>, b: seq<CartItem>, id: string)
    ensures Without(a + b, id) == Without(a, id) + Without(b, id)
  {
    if a == [] {
      assert a + b == b;
    } else {
      assert (a + b)[1..] == a[1..] + b;
      WithoutAppend(a[1..], b, id);
    }
  }

  /** Lines carrying `id` between `pre` and `post` leave no trace in `Without`. */
  lemma {:induction false} WithoutSkips(pre: seq<CartItem>, mid: seq<CartItem>, post: seq<CartItem>, id: string)
    requires forall i :: 0 <= i < |mid| ==> mid[i].product.id == id
    ensures Without(pre + mid + post, id) == Without(pre, id) + Without(post, id)
  {
    WithoutAppend(pre + mid, post, id);
    WithoutAppend(pre, mid, id);
    WithoutNone(mid, id);
  }

  lemma {:induction false} WithoutNone(mid: seq<CartItem>, id: string)
    requires forall i :: 0 <= i < |mid| ==> mid[i].product.id == id
    ensures Without(mid, id) == []
  {
    if mid != [] {
      WithoutNone(mid[1..], id);
    }
  }

  lemma {:induction false} WithoutMembership(cart: seq<CartItem>, id: string, c: CartItem)
    ensures c in Without(cart, id) <==> c in cart && c.product.id != id
  {
    if cart != [] {
      WithoutMembership(cart[1..], id, c);
      assert c in cart <==> c == cart[0] || c in cart[1..];
    }
  }

  /** Dropping every line of one product keeps the cart invariant. */
  lemma {:induction false} WithoutKeepsWellFormed(cart: seq<CartItem>, id: string)
    requires WellFormed(cart)
    ensures WellFormed(Without(cart, id))
  {
    if cart != [] {
      var t := cart[1..];
      assert forall i :: 0 <= i < |t| ==> t[i] == cart[i + 1];
      WithoutKeepsWellFormed(t, id);
      var w := Without(t, id);
      if cart[0].product.id != id {
        var r := [cart[0]] + w;
        forall j | 0 <= j < |w| ensures w[j].product.id != cart[0].product.id && w[j].quantity >= 1 {
          WithoutMembership(t, id, w[j]);
          var k :| 0 <= k < |t| && t[k] == w[j];
        }
        forall i, j | 0 <= i < j < |r| ensures r[i].product.id != r[j].product.id {
          assert r[j] == w[j - 1];
        }
      }
    }
  }

  /** Lines for other products survive a removal, unchanged and in order. */
  lemma {:induction false} RemoveKeepsOthers(cart: seq<CartItem>, id: string)
    requires WellFormed(cart)
    ensures Without(RemoveFromCart(cart, id), id) == Without(cart, id)
  {
    if HasId(cart, id) {
      var k := FindIndex(cart, id);
      var pre, post := cart[..k], cart[k + 1..];
      var mid := if cart[k].quantity > 1 then [cart[k].(quantity := cart[k].quantity - 1)] else [];
      RemovePresent(cart, id);
      assert cart == pre + [cart[k]] + post;
      WithoutSkips(pre, [cart[k]], post, id);
      WithoutSkips(pre, mid, post, id);
    } else {
      RemoveAbsent(cart, id);
    }
  }

  /** Taking one line out of a well-formed cart, or lowering its quantity
      while keeping it positive, leaves a well-formed cart. */
  lemma {:induction false} WellFormedWithout(pre: seq<CartItem>, c: CartItem, post: seq<CartItem>, mid: seq<CartItem>)
    requires WellFormed(pre + [c] + post)
    requires mid == [] || (|mid| == 1 && mid[0].product == c.product && mid[0].quantity >= 1)
    ensures WellFormed(pre + mid + post)
  {
    var whole := pre + [c] + post;
    var r := pre + mid + post;
    var m := |mid|;
    // position in `whole` of each position in `r`
    assert forall i :: 0 <= i < |r| ==>
      r[i].product == whole[if i < |pre| then i else if i < |pre| + m then |pre| else i + 1 - m].product;
    forall i, j | 0 <= i < j < |r| ensures r[i].product.id != r[j].product.id {
      var i' := if i < |pre| then i else if i < |pre| + m then |pre| else i + 1 - m;
      var j' := if j < |pre| then j else if j < |pre| + m then |pre| else j + 1 - m;
      assert i' < j';
    }
    forall i | 0 <= i < |r| ensures r[i].quantity >= 1 {
      if i < |pre| {
        assert r[i] == whole[i];
      } else if i >= |pre| + m {
        assert r[i] == whole[i + 1 - m];
      }
    }
  }

  /** `addToCart` keeps the cart invariant. */
  lemma {:induction false} AddKeepsWellFormed(cart: seq<CartItem>, p: Product)
    requires WellFormed(cart)
    ensures WellFormed(AddToCart(cart, p))
  {
  }

  /** `removeFromCart` keeps the cart invariant. */
  lemma {:induction false} RemoveKeepsWellFormed(cart: seq<CartItem>, id: string)
    requires WellFormed(cart)
    ensures WellFormed(RemoveFromCart(cart, id))
  {
    if HasId(cart, id) {
      var k := FindIndex(cart, id);
      RemovePresent(cart, id);
      assert cart == cart[..k] + [cart[k]] + cart[k + 1..];
      var mid := if cart[k].quantity > 1 then [cart[k].(quantity := cart[k].quantity - 1)] else [];
      WellFormedWithout(cart[..k], cart[k], cart[k + 1..], mid);
    } else {
      RemoveAbsent(cart, id);
    }
  }

  /** Round trip: adding one unit and removing it again restores the cart. */
  lemma {:induction false} AddThenRemove(cart: seq<CartItem>, p: Product)
    requires WellFormed(cart)
    ensures RemoveFromCart(AddToCart(cart, p), p.id) == cart
  {
    var a := AddToCart(cart, p);
    if HasId(cart, p.id) {
      var k := FindIndex(cart, p.id);
      assert Decrement(a, p.id) == cart by {
        forall i | 0 <= i < |cart| ensures Decrement(a, p.id)[i] == cart[i] {
          if i == k {
          } else {
            assert cart[i].product.id != p.id;
          }
        }
      }
      Seqs.FilterAll(cart, IsPositive);
    } else {
      var d := Decrement(a, p.id);
      assert d == cart + [CartItem(p, 0)];
      Seqs.FilterAppend(cart, [CartItem(p, 0)], IsPositive);
      Seqs.FilterAll(cart, IsPositive);
      assert Seqs.Filter([CartItem(p, 0)], IsPositive) == [];
    }
  }
}

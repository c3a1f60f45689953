/** The part of the payment handler this repository computes itself: the sale
    amount, accumulated over the submitted cart before the gateway is called. */
module Payment {
  import opened FoodModel

  /** Reference definition: the sum of the cart's prices. */
  function Sum(cart: seq<CartItem>): int
  {
    if cart == [] then 0 else cart[0].price + Sum(cart[1..])
  }

  /** The sum over two carts joined is the sum of the two. */
  lemma {:induction false} SumAppend(a: seq<CartItem>, b: seq<CartItem>)
    ensures Sum(a + b) == Sum(a) + Sum(b)
  {
    if a == [] {
      assert a + b == b;
    } else {
      SumAppend(a[1..], b);
      assert (a + b)[1..] == a[1..] + b;
    }
  }

  /** The total does not depend on the order of the cart. */
  lemma {:induction false} SumPermutation(a: seq<CartItem>, b: seq<CartItem>)
    requires multiset(a) == multiset(b)
    ensures Sum(a) == Sum(b)
    decreases |a|
  {
    if a != [] {
      var x := a[0];
      assert x in multiset(b);
      var i :| 0 <= i < |b| && b[i] == x;
      var rest := b[..i] + b[i + 1..];
      assert b == b[..i] + [x] + b[i + 1..];
      assert a == [x] + a[1..];
      assert multiset(b) == multiset(b[..i]) + multiset{x} + multiset(b[i + 1..]);
      assert multiset(rest) == multiset(b[..i]) + multiset(b[i + 1..]);
      assert multiset(a) == multiset{x} + multiset(a[1..]);
      assert multiset(a[1..]) == multiset(a) - multiset{x};
      assert multiset(rest) == multiset(b) - multiset{x};
      SumPermutation(a[1..], rest);
      SumAppend(b[..i] + [x], b[i + 1..]);
      SumAppend(b[..i], [x]);
      SumAppend(b[..i], b[i + 1..]);
    }
  }

  /** With no negative price in the cart, the total is at least every single
      item's price and never negative. */
  lemma {:induction false} SumBounds(cart: seq<CartItem>)
    requires forall k :: 0 <= k < |cart| ==> cart[k].price >= 0
    ensures Sum(cart) >= 0
    ensures forall k :: 0 <= k < |cart| ==> cart[k].price <= Sum(cart)
  {
    if cart != [] {
      SumBounds(cart[1..]);
      forall k | 1 <= k < |cart|
        ensures cart[k].price <= Sum(cart)
      {
        assert cart[k] == cart[1..][k - 1];
      }
    }
  }

  /** `let total = 0; cart.map((i) => { total += i.price; })`: the amount
      sent to the gateway is the sum of the cart's prices (0 for an empty cart). */
  method CartTotal(cart: seq<CartItem>) returns (total: int)
    ensures total == Sum(cart)
    ensures cart == [] ==> total == 0
  {
    total := 0;
    var i := 0;
    while i < |cart|
      invariant 0 <= i <= |cart|
      invariant total == Sum(cart[..i])
    {
      SumAppend(cart[..i], [cart[i]]);
      assert cart[..i + 1] == cart[..i] + [cart[i]];
      total := total + cart[i].price;
      i := i + 1;
    }
    assert cart[..i] == cart;
  }
}

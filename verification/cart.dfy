/** Cart lines and the checkout totals, in exact arithmetic: the subtotal is
    the sum of price times quantity, GST is 18 per cent of it, and the total is
    their sum (server.js lines 338-344). */
module Cart {

  datatype CartItem = CartItem(title: string, price: real, quantity: real)

  /** The goods-and-services tax rate applied to the subtotal. */
  const GstRate: real := 0.18

  datatype Totals = Totals(subtotal: real, gst: real, total: real)

  function LineAmount(item: CartItem): real {
    item.price * item.quantity
  }

  /** Reference definition of the subtotal: the lines added left to right,
      in the order `forEach` visits them. */
  function Subtotal(cart: seq<CartItem>): real
    decreases |cart|
  {
    if cart == [] then 0.0
    else Subtotal(cart[..|cart| - 1]) + LineAmount(cart[|cart| - 1])
  }

  predicate NonNegative(cart: seq<CartItem>) {
    forall i :: 0 <= i < |cart| ==> cart[i].price >= 0.0 && cart[i].quantity >= 0.0
  }

  /** The three figures printed on the invoice. */
  function TotalsOf(cart: seq<CartItem>): (t: Totals)
    ensures t.subtotal == Subtotal(cart)
    ensures t.total == (1.0 + GstRate) * t.subtotal
    ensures t.total - t.subtotal == t.gst == GstRate * t.subtotal
    ensures NonNegative(cart) ==> 0.0 <= t.subtotal <= t.total
  {
    SubtotalNonNegative(cart);
    var subtotal := Subtotal(cart);
    var gst := GstRate * subtotal;
    Totals(subtotal, gst, subtotal + gst)
  }

  /** The running-sum loop of the checkout handler computes the reference
      subtotal and the totals derived from it. */
  method ComputeTotals(cart: seq<CartItem>) returns (t: Totals)
    ensures t == TotalsOf(cart)
  {
    var subtotal := 0.0;
    var i := 0;
    while i < |cart|
      invariant 0 <= i <= |cart|
      invariant subtotal == Subtotal(cart[..i])
    {
      assert cart[..i + 1][..i] == cart[..i];
      subtotal := subtotal + cart[i].price * cart[i].quantity;
      i := i + 1;
    }
    assert cart[..|cart|] == cart;
    var gst := 0.18 * subtotal;
    t := Totals(subtotal, gst, subtotal + gst);
  }

  /** The subtotal of two carts put together is the sum of their subtotals. */
  lemma {:induction false} SubtotalAppend(a: seq<CartItem>, b: seq<CartItem>)
    ensures Subtotal(a + b) == Subtotal(a) + Subtotal(b)
    decreases |b|
  {
    if b == [] {
      assert a + b == a;
    } else {
      var b' := b[..|b| - 1];
      assert (a + b)[..|a + b| - 1] == a + b';
      SubtotalAppend(a, b');
    }
  }

  /** With no negative price or quantity the subtotal is never negative. */
  lemma {:induction false} SubtotalNonNegative(cart: seq<CartItem>)
    ensures NonNegative(cart) ==> Subtotal(cart) >= 0.0
    decreases |cart|
  {
    if cart != [] {
      SubtotalNonNegative(cart[..|cart| - 1]);
    }
  }

  /** Two of item A at 100 and one of item B at 50 give 250.00, 45.00 and
      295.00. */
  lemma TotalsExample()
    ensures TotalsOf([CartItem("A", 100.0, 2.0), CartItem("B", 50.0, 1.0)])
            == Totals(250.0, 45.0, 295.0)
  {
    var cart := [CartItem("A", 100.0, 2.0), CartItem("B", 50.0, 1.0)];
    assert cart[..1] == [CartItem("A", 100.0, 2.0)];
    assert cart[..1][..0] == [];
    assert Subtotal(cart[..1]) == 200.0;
    assert Subtotal(cart) == 250.0;
  }
}

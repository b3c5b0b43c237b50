/** The cart and its three mutations (add one unit of a product, change a
    line's quantity by a delta, remove a barcode), shared verbatim by the
    three cart screens of the point-of-sale client. */
module Cart {
  import opened Common

  /** A product as the catalog lookup returns it. Text fields the product
      lacks are the empty string. */
  datatype Product = Product(barcode: string, name: string, price: real, taxRate: real, category: string)

  /** A cart line: the product snapshot spread into the line, plus a quantity. */
  datatype CartLine = CartLine(barcode: string, name: string, price: real, taxRate: real,
                               category: string, quantity: nat)

  /** No barcode occurs on two lines. */
  predicate Unique(cart: seq<CartLine>)
  {
    forall i, j :: 0 <= i < j < |cart| ==> cart[i].barcode != cart[j].barcode
  }

  predicate HasBarcode(cart: seq<CartLine>, b: string)
  {
    exists i :: 0 <= i < |cart| && cart[i].barcode == b
  }

  /** Total units of barcode `b` over all lines of the cart. */
  function QtyOf(cart: seq<CartLine>, b: string): nat
  {
    if |cart| == 0 then 0
    else (if cart[0].barcode == b then cart[0].quantity else 0) + QtyOf(cart[1..], b)
  }

  lemma {:induction false} QtyOfAbsent(cart: seq<CartLine>, b: string)
    requires !HasBarcode(cart, b)
    ensures QtyOf(cart, b) == 0
  {
    if |cart| > 0 {
      assert !HasBarcode(cart[1..], b) by {
        forall i | 0 <= i < |cart[1..]| ensures cart[1..][i].barcode != b {
          assert cart[1..][i] == cart[i + 1];
        }
      }
      QtyOfAbsent(cart[1..], b);
    }
  }

  function Bumped(line: CartLine, b: string): CartLine
  {
    if line.barcode == b then line.(quantity := line.quantity + 1) else line
  }

  /** `addToCart`: if some line already has the product's barcode, every such
      line gains one unit; otherwise a line with quantity 1 is appended. */
  function AddToCart(cart: seq<CartLine>, p: Product): (r: seq<CartLine>)
    ensures HasBarcode(cart, p.barcode) ==> |r| == |cart|
    ensures !HasBarcode(cart, p.barcode) ==> |r| == |cart| + 1
    ensures forall i :: 0 <= i < |cart| ==> r[i] == Bumped(cart[i], p.barcode)
    ensures !HasBarcode(cart, p.barcode) ==>
      r[|cart|] == CartLine(p.barcode, p.name, p.price, p.taxRate, p.category, 1)
    ensures Unique(cart) ==> Unique(r)
  {
    if HasBarcode(cart, p.barcode) then
      seq(|cart|, i requires 0 <= i < |cart| => Bumped(cart[i], p.barcode))
    else
      cart + [CartLine(p.barcode, p.name, p.price, p.taxRate, p.category, 1)]
  }

  /** Adding a product raises its barcode's unit count by exactly one and
      leaves every other barcode's count alone. */
  lemma {:induction false} AddToCartQty(cart: seq<CartLine>, p: Product, b: string)
    requires Unique(cart)
    ensures QtyOf(AddToCart(cart, p), b) == QtyOf(cart, b) + (if b == p.barcode then 1 else 0)
  {
    var r := AddToCart(cart, p);
    if HasBarcode(cart, p.barcode) {
      BumpedQty(cart, p.barcode, b);
    } else {
      QtyOfAppend(cart, CartLine(p.barcode, p.name, p.price, p.taxRate, p.category, 1), b);
      if b == p.barcode {
        QtyOfAbsent(cart, b);
      }
    }
  }

  lemma {:induction false} BumpedQty(cart: seq<CartLine>, k: string, b: string)
    requires Unique(cart)
    ensures QtyOf(seq(|cart|, i requires 0 <= i < |cart| => Bumped(cart[i], k)), b)
         == QtyOf(cart, b) + (if b == k && HasBarcode(cart, k) then 1 else 0)
  {
    var r := seq(|cart|, i requires 0 <= i < |cart| => Bumped(cart[i], k));
    if |cart| > 0 {
      var tail := cart[1..];
      assert Unique(tail) by {
        forall i, j | 0 <= i < j < |tail| ensures tail[i].barcode != tail[j].barcode {
          assert tail[i] == cart[i + 1] && tail[j] == cart[j + 1];
        }
      }
      BumpedQty(tail, k, b);
      assert r[1..] == seq(|tail|, i requires 0 <= i < |tail| => Bumped(tail[i], k));
      if cart[0].barcode == k {
        assert !HasBarcode(tail, k) by {
          forall i | 0 <= i < |tail| ensures tail[i].barcode != k {
            assert tail[i] == cart[i + 1];
          }
        }
      } else if HasBarcode(cart, k) {
        var i :| 0 <= i < |cart| && cart[i].barcode == k;
        assert tail[i - 1].barcode == k;
      } else {
        assert !HasBarcode(tail, k) by {
          forall i | 0 <= i < |tail| ensures tail[i].barcode != k {
            assert tail[i] == cart[i + 1];
          }
        }
      }
    }
  }

  lemma {:induction false} QtyOfAppend(cart: seq<CartLine>, line: CartLine, b: string)
    ensures QtyOf(cart + [line], b) == QtyOf(cart, b) + (if line.barcode == b then line.quantity else 0)
  {
    if |cart| > 0 {
      assert (cart + [line])[1..] == cart[1..] + [line];
      QtyOfAppend(cart[1..], line, b);
    }
  }

  function Adjusted(line: CartLine, b: string, delta: int): CartLine
  {
    if line.barcode == b then line.(quantity := Max(0, line.quantity + delta)) else line
  }

  /** The `.filter(i => i.quantity > 0)` step. */
  function DropEmpty(cart: seq<CartLine>): (r: seq<CartLine>)
    ensures forall i :: 0 <= i < |r| ==> r[i].quantity > 0
    ensures forall l :: l in r <==> l in cart && l.quantity > 0
    ensures forall b :: QtyOf(r, b) == QtyOf(cart, b)
    ensures |r| <= |cart|
  {
    if |cart| == 0 then []
    else if cart[0].quantity > 0 then [cart[0]] + DropEmpty(cart[1..])
    else DropEmpty(cart[1..])
  }

  /** `updateQuantity`: the matching line's quantity moves by `delta`, clamped
      at zero, and every line left at zero quantity is dropped. */
  function UpdateQuantity(cart: seq<CartLine>, b: string, delta: int): (r: seq<CartLine>)
    ensures forall i :: 0 <= i < |r| ==> r[i].quantity > 0
    ensures forall l :: l in r && l.barcode != b ==> l in cart
    ensures forall l :: l in cart && l.barcode != b && l.quantity > 0 ==> l in r
    ensures forall c :: c != b ==> QtyOf(r, c) == QtyOf(cart, c)
  {
    var mapped := seq(|cart|, i requires 0 <= i < |cart| => Adjusted(cart[i], b, delta));
    AdjustedQty(cart, b, delta);
    forall l | l in cart && l.barcode != b && l.quantity > 0 ensures l in mapped {
      var i :| 0 <= i < |cart| && cart[i] == l;
      assert mapped[i] == l;
    }
    forall l | l in mapped && l.barcode != b ensures l in cart {
      var i :| 0 <= i < |mapped| && mapped[i] == l;
      assert cart[i] == l;
    }
    DropEmpty(mapped)
  }

  lemma {:induction false} AdjustedQty(cart: seq<CartLine>, b: string, delta: int)
    ensures forall c :: c != b ==>
      QtyOf(seq(|cart|, i requires 0 <= i < |cart| => Adjusted(cart[i], b, delta)), c) == QtyOf(cart, c)
    ensures Unique(cart) && HasBarcode(cart, b) ==>
      QtyOf(seq(|cart|, i requires 0 <= i < |cart| => Adjusted(cart[i], b, delta)), b)
        == Max(0, QtyOf(cart, b) + delta)
    ensures !HasBarcode(cart, b) ==>
      QtyOf(seq(|cart|, i requires 0 <= i < |cart| => Adjusted(cart[i], b, delta)), b) == 0
  {
    var mapped := seq(|cart|, i requires 0 <= i < |cart| => Adjusted(cart[i], b, delta));
    if |cart| > 0 {
      var tail := cart[1..];
      assert mapped[1..] == seq(|tail|, i requires 0 <= i < |tail| => Adjusted(tail[i], b, delta));
      AdjustedQty(tail, b, delta);
      if Unique(cart) && HasBarcode(cart, b) {
        assert Unique(tail) by {
          forall i, j | 0 <= i < j < |tail| ensures tail[i].barcode != tail[j].barcode {
            assert tail[i] == cart[i + 1] && tail[j] == cart[j + 1];
          }
        }
        if cart[0].barcode == b {
          assert !HasBarcode(tail, b) by {
            forall i | 0 <= i < |tail| ensures tail[i].barcode != b {
              assert tail[i] == cart[i + 1];
            }
          }
          QtyOfAbsent(tail, b);
        } else {
          var i :| 0 <= i < |cart| && cart[i].barcode == b;
          assert tail[i - 1].barcode == b;
        }
      }
      if !HasBarcode(cart, b) {
        assert !HasBarcode(tail, b) by {
          forall i | 0 <= i < |tail| ensures tail[i].barcode != b {
            assert tail[i] == cart[i + 1];
          }
        }
      }
    }
  }

  /** On a cart with unique barcodes, the changed barcode ends with its old
      count plus `delta`, never below zero; a barcode not in the cart stays absent. */
  lemma UpdateQuantityQty(cart: seq<CartLine>, b: string, delta: int)
    requires Unique(cart)
    ensures HasBarcode(cart, b) ==> QtyOf(UpdateQuantity(cart, b, delta), b) == Max(0, QtyOf(cart, b) + delta)
    ensures !HasBarcode(cart, b) ==> QtyOf(UpdateQuantity(cart, b, delta), b) == 0
  {
    AdjustedQty(cart, b, delta);
  }

  /** `removeFromCart`: keeps, in order, exactly the lines of other barcodes. */
  function RemoveFromCart(cart: seq<CartLine>, b: string): (r: seq<CartLine>)
    ensures forall l :: l in r <==> l in cart && l.barcode != b
    ensures QtyOf(r, b) == 0
    ensures forall c :: c != b ==> QtyOf(r, c) == QtyOf(cart, c)
    ensures Unique(cart) ==> Unique(r)
    ensures |r| <= |cart|
  {
    if |cart| == 0 then []
    else
      var rest := RemoveFromCart(cart[1..], b);
      if cart[0].barcode == b then
        RemoveStep(cart, rest, b);
        rest
      else
        KeepStep(cart, rest, b);
        [cart[0]] + rest
  }

  /** What `RemoveFromCart` promises of `r` against `cart`. */
  ghost predicate Removed(cart: seq<CartLine>, b: string, r: seq<CartLine>)
  {
    (forall l :: l in r <==> l in cart && l.barcode != b) &&
    QtyOf(r, b) == 0 &&
    (forall c :: c != b ==> QtyOf(r, c) == QtyOf(cart, c)) &&
    (Unique(cart) ==> Unique(r)) &&
    |r| <= |cart|
  }

  /** A first line with the barcode is dropped. */
  lemma RemoveStep(cart: seq<CartLine>, rest: seq<CartLine>, b: string)
    requires |cart| > 0 && cart[0].barcode == b && Removed(cart[1..], b, rest)
    ensures Removed(cart, b, rest)
  {
    assert cart == [cart[0]] + cart[1..];
    if Unique(cart) {
      assert Unique(cart[1..]) by {
        assert forall i :: 0 <= i < |cart[1..]| ==> cart[1..][i] == cart[i + 1];
      }
    }
  }

  /** A first line with another barcode is kept in front. */
  lemma KeepStep(cart: seq<CartLine>, rest: seq<CartLine>, b: string)
    requires |cart| > 0 && cart[0].barcode != b && Removed(cart[1..], b, rest)
    ensures Removed(cart, b, [cart[0]] + rest)
  {
    var r := [cart[0]] + rest;
    assert cart == [cart[0]] + cart[1..];
    assert r[0] == cart[0] && r[1..] == rest;
    if Unique(cart) {
      assert Unique(cart[1..]) by {
        assert forall i :: 0 <= i < |cart[1..]| ==> cart[1..][i] == cart[i + 1];
      }
      forall l | l in rest ensures l.barcode != cart[0].barcode {
        var j :| 0 <= j < |cart[1..]| && cart[1..][j] == l;
        assert cart[j + 1] == l;
      }
      forall i, j | 0 <= i < j < |r| ensures r[i].barcode != r[j].barcode {
        if i > 0 {
          assert r[i] == rest[i - 1] && r[j] == rest[j - 1];
        } else {
          assert r[j] in rest;
        }
      }
    }
  }

  /** Removing a barcode from a cart split in two removes it from each part
      and keeps the parts in order: the surviving lines keep their order. */
  lemma {:induction false} RemoveFromCartAppend(a: seq<CartLine>, c: seq<CartLine>, b: string)
    ensures RemoveFromCart(a + c, b) == RemoveFromCart(a, b) + RemoveFromCart(c, b)
  {
    if |a| > 0 {
      assert (a + c)[0] == a[0] && (a + c)[1..] == a[1..] + c;
      RemoveFromCartAppend(a[1..], c, b);
    } else {
      assert a + c == c;
    }
  }

  /** Dropping the empty lines of a cart split in two drops them from each
      part and keeps the parts in order. */
  lemma {:induction false} DropEmptyAppend(a: seq<CartLine>, c: seq<CartLine>)
    ensures DropEmpty(a + c) == DropEmpty(a) + DropEmpty(c)
  {
    if |a| > 0 {
      assert (a + c)[0] == a[0] && (a + c)[1..] == a[1..] + c;
      DropEmptyAppend(a[1..], c);
    } else {
      assert a + c == c;
    }
  }

  /** Changing a quantity on a cart split in two changes it on each part and
      keeps the parts in order. */
  lemma UpdateQuantityAppend(a: seq<CartLine>, c: seq<CartLine>, b: string, delta: int)
    ensures UpdateQuantity(a + c, b, delta) == UpdateQuantity(a, b, delta) + UpdateQuantity(c, b, delta)
  {
    var ma := seq(|a|, i requires 0 <= i < |a| => Adjusted(a[i], b, delta));
    var mc := seq(|c|, i requires 0 <= i < |c| => Adjusted(c[i], b, delta));
    var ac := a + c;
    var m := seq(|ac|, i requires 0 <= i < |ac| => Adjusted(ac[i], b, delta));
    assert m == ma + mc;
    DropEmptyAppend(ma, mc);
  }
}

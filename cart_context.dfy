/**
 * The web client's cart (context/CartContext.tsx): a list of lines keyed by meal id,
 * changed by add, update-quantity and remove, with item and price totals.
 * Prices are in cents.
 */
module CartContext {
  import opened Seqs
  import opened MealTypes

  /** CartItem: the meal, the unit price it was added at, and the quantity. */
  datatype CartLine = CartLine(item: MealSummary, price: int, quantity: int)

  /** Position of the first line for `id` (`find`), or `|lines|` when there is none. */
  function IndexOfId(lines: seq<CartLine>, id: string): (i: nat)
    ensures i <= |lines|
    ensures i < |lines| ==> lines[i].item.idMeal == id
    ensures forall j :: 0 <= j < i ==> lines[j].item.idMeal != id
  {
    if lines == [] then 0
    else if lines[0].item.idMeal == id then 0
    else 1 + IndexOfId(lines[1..], id)
  }

  predicate UniqueIds(lines: seq<CartLine>) {
    forall i, j :: 0 <= i < j < |lines| ==> lines[i].item.idMeal != lines[j].item.idMeal
  }

  predicate PositiveQuantities(lines: seq<CartLine>) {
    forall i :: 0 <= i < |lines| ==> lines[i].quantity >= 1
  }

  /** The cart invariant: one line per meal, and no line with a quantity below one. */
  predicate WellFormed(lines: seq<CartLine>) {
    UniqueIds(lines) && PositiveQuantities(lines)
  }

  /** The quantity held for `id` (0 when there is no line for it). */
  function QuantityOf(lines: seq<CartLine>, id: string): int {
    var i := IndexOfId(lines, id);
    if i < |lines| then lines[i].quantity else 0
  }

  // ---------------------------------------------------------------- the three updates

  /**
   * `addToCart`: a meal already in the cart gets one more of it, at the price it was first
   * added at; a new meal is appended with quantity 1 at the given price.
   */
  function AddLine(lines: seq<CartLine>, item: MealSummary, price: int): (r: seq<CartLine>)
    ensures IndexOfId(lines, item.idMeal) == |lines| ==> r == lines + [CartLine(item, price, 1)]
    ensures IndexOfId(lines, item.idMeal) < |lines| ==>
              |r| == |lines| &&
              forall i :: 0 <= i < |r| ==>
                if lines[i].item.idMeal == item.idMeal
                then r[i] == lines[i].(quantity := lines[i].quantity + 1)
                else r[i] == lines[i]
  {
    if IndexOfId(lines, item.idMeal) < |lines| then
      seq(|lines|, i requires 0 <= i < |lines| =>
        if lines[i].item.idMeal == item.idMeal
        then lines[i].(quantity := lines[i].quantity + 1)
        else lines[i])
    else lines + [CartLine(item, price, 1)]
  }

  /** The filter predicate of `removeFromCart`. */
  function IsOtherThan(id: string): CartLine -> bool {
    (l: CartLine) => l.item.idMeal != id
  }

  /** `removeFromCart`: every line for `id` goes, the others stay in order. */
  function RemoveLines(lines: seq<CartLine>, id: string): (r: seq<CartLine>)
    ensures KeepsInOrder(r, lines, IsOtherThan(id))
    ensures forall i :: 0 <= i < |r| ==> r[i].item.idMeal != id
    ensures forall l :: l in r <==> l in lines && l.item.idMeal != id
  {
    FilterMembers(lines, IsOtherThan(id));
    Filter(lines, IsOtherThan(id))
  }

  /**
   * `updateQuantity`: a quantity of zero or less removes the line; otherwise the lines for
   * `id` take the new quantity and nothing else changes.
   */
  function UpdateLines(lines: seq<CartLine>, id: string, quantity: int): (r: seq<CartLine>)
    ensures quantity <= 0 ==> r == RemoveLines(lines, id)
    ensures quantity > 0 ==>
              |r| == |lines| &&
              forall i :: 0 <= i < |r| ==>
                if lines[i].item.idMeal == id
                then r[i] == lines[i].(quantity := quantity)
                else r[i] == lines[i]
  {
    if quantity <= 0 then RemoveLines(lines, id)
    else
      seq(|lines|, i requires 0 <= i < |lines| =>
        if lines[i].item.idMeal == id then lines[i].(quantity := quantity) else lines[i])
  }

  // ---------------------------------------------------------------- totals

  /** `totalItems`: the sum of the quantities. */
  function TotalItems(lines: seq<CartLine>): (n: int)
    ensures lines == [] ==> n == 0
  {
    if lines == [] then 0 else lines[0].quantity + TotalItems(lines[1..])
  }

  /** `totalPrice`: the sum of price times quantity, in cents. */
  function TotalPrice(lines: seq<CartLine>): (p: int)
    ensures lines == [] ==> p == 0
  {
    if lines == [] then 0 else lines[0].price * lines[0].quantity + TotalPrice(lines[1..])
  }

  /** The cart as a React state holder: `cartItems` and the three setters. */
  class Cart {
    var cartItems: seq<CartLine>

    ghost predicate Valid()
      reads this
    {
      WellFormed(cartItems)
    }

    constructor ()
      ensures cartItems == [] && Valid()
    {
      cartItems := [];
    }

    method AddToCart(item: MealSummary, price: int)
      requires Valid()
      modifies this
      ensures Valid()
      ensures cartItems == AddLine(old(cartItems), item, price)
    {
      AddKeepsWellFormed(cartItems, item, price);
      cartItems := AddLine(cartItems, item, price);
    }

    method UpdateQuantity(itemId: string, quantity: int)
      requires Valid()
      modifies this
      ensures Valid()
      ensures cartItems == UpdateLines(old(cartItems), itemId, quantity)
    {
      if quantity <= 0 {
        RemoveFromCart(itemId);
      } else {
        UpdateKeepsWellFormed(cartItems, itemId, quantity);
        cartItems := UpdateLines(cartItems, itemId, quantity);
      }
    }

    method RemoveFromCart(itemId: string)
      requires Valid()
      modifies this
      ensures Valid()
      ensures cartItems == RemoveLines(old(cartItems), itemId)
    {
      RemoveKeepsWellFormed(cartItems, itemId);
      cartItems := RemoveLines(cartItems, itemId);
    }
  }

  // ---------------------------------------------------------------- invariant preservation

  lemma AddKeepsWellFormed(lines: seq<CartLine>, item: MealSummary, price: int)
    requires WellFormed(lines)
    ensures WellFormed(AddLine(lines, item, price))
  {
    var r := AddLine(lines, item, price);
    if IndexOfId(lines, item.idMeal) == |lines| {
      forall i, j | 0 <= i < j < |r| ensures r[i].item.idMeal != r[j].item.idMeal {
        if j == |lines| {
          assert r[i] == lines[i];
        }
      }
    }
  }

  lemma UpdateKeepsWellFormed(lines: seq<CartLine>, id: string, quantity: int)
    requires WellFormed(lines)
    ensures WellFormed(UpdateLines(lines, id, quantity))
  {
    if quantity <= 0 {
      RemoveKeepsWellFormed(lines, id);
    }
  }

  /** `removeFromCart` on a non-empty cart: the first line stays unless it is for `id`. */
  lemma RemoveLinesCons(lines: seq<CartLine>, id: string)
    requires lines != []
    ensures RemoveLines(lines, id)
            == (if lines[0].item.idMeal == id then [] else [lines[0]]) + RemoveLines(lines[1..], id)
  {
  }

  /** With unique ids, no later line shares the first line's id. */
  lemma TailIdsDiffer(lines: seq<CartLine>)
    requires UniqueIds(lines) && lines != []
    ensures forall l :: l in lines[1..] ==> l.item.idMeal != lines[0].item.idMeal
  {
    forall l | l in lines[1..] ensures l.item.idMeal != lines[0].item.idMeal {
      var j :| 0 <= j < |lines[1..]| && lines[1..][j] == l;
      assert lines[j + 1] == l;
    }
  }

  /** A line in front of a well-formed cart that holds no line for its meal. */
  lemma ConsWellFormed(x: CartLine, rest: seq<CartLine>)
    requires WellFormed(rest) && x.quantity >= 1
    requires forall i :: 0 <= i < |rest| ==> rest[i].item.idMeal != x.item.idMeal
    ensures WellFormed([x] + rest)
  {
    var r := [x] + rest;
    assert forall i :: 1 <= i < |r| ==> r[i] == rest[i - 1];
  }

  lemma {:induction false} RemoveKeepsWellFormed(lines: seq<CartLine>, id: string)
    requires WellFormed(lines)
    ensures WellFormed(RemoveLines(lines, id))
  {
    if lines != [] {
      var tail := lines[1..];
      assert WellFormed(tail);
      RemoveKeepsWellFormed(tail, id);
      RemoveLinesCons(lines, id);
      if lines[0].item.idMeal != id {
        var rest := RemoveLines(tail, id);
        TailIdsDiffer(lines);
        assert forall i :: 0 <= i < |rest| ==> rest[i] in tail;
        ConsWellFormed(lines[0], rest);
      }
    }
  }

  /** Removing a meal that has no line leaves the cart as it is. */
  lemma {:induction false} RemoveAbsent(lines: seq<CartLine>, id: string)
    requires IndexOfId(lines, id) == |lines|
    ensures RemoveLines(lines, id) == lines
  {
    forall l | l in lines ensures IsOtherThan(id)(l) {
      var j :| 0 <= j < |lines| && lines[j] == l;
    }
    FilterAll(lines, IsOtherThan(id));
  }

  /** Updating the quantity of a meal that has no line leaves the cart as it is. */
  lemma UpdateAbsent(lines: seq<CartLine>, id: string, quantity: int)
    requires IndexOfId(lines, id) == |lines|
    ensures UpdateLines(lines, id, quantity) == lines
  {
    if quantity <= 0 {
      RemoveAbsent(lines, id);
    }
  }

  // ---------------------------------------------------------------- totals after each update

  /** With every quantity at least one, the cart holds at least as many items as lines. */
  lemma {:induction false} TotalItemsCoversLines(lines: seq<CartLine>)
    requires PositiveQuantities(lines)
    ensures TotalItems(lines) >= |lines|
  {
    if lines != [] {
      assert PositiveQuantities(lines[1..]);
      TotalItemsCoversLines(lines[1..]);
    }
  }

  lemma {:induction false} TotalsAppend(a: seq<CartLine>, b: seq<CartLine>)
    ensures TotalItems(a + b) == TotalItems(a) + TotalItems(b)
    ensures TotalPrice(a + b) == TotalPrice(a) + TotalPrice(b)
  {
    if a == [] {
      assert a + b == b;
    } else {
      assert (a + b)[1..] == a[1..] + b;
      TotalsAppend(a[1..], b);
    }
  }

  /** Changing the quantity of the single line at `k` changes the totals by the difference. */
  lemma {:induction false} TotalsReplaceAt(lines: seq<CartLine>, k: nat, q: int)
    requires k < |lines|
    ensures TotalItems(lines[k := lines[k].(quantity := q)]) == TotalItems(lines) - lines[k].quantity + q
    ensures TotalPrice(lines[k := lines[k].(quantity := q)])
            == TotalPrice(lines) + lines[k].price * (q - lines[k].quantity)
  {
    if k > 0 {
      TotalsReplaceAt(lines[1..], k - 1, q);
      assert lines[k := lines[k].(quantity := q)][1..] == lines[1..][k - 1 := lines[k].(quantity := q)];
    } else {
      assert lines[k := lines[k].(quantity := q)][1..] == lines[1..];
    }
  }

  /**
   * Adding a meal adds one item; the price total grows by the unit price of its line
   * (the stored one when the meal was already in the cart).
   */
  lemma AddTotals(lines: seq<CartLine>, item: MealSummary, price: int)
    requires UniqueIds(lines)
    ensures TotalItems(AddLine(lines, item, price)) == TotalItems(lines) + 1
    ensures var i := IndexOfId(lines, item.idMeal);
            TotalPrice(AddLine(lines, item, price))
            == TotalPrice(lines) + (if i < |lines| then lines[i].price else price)
  {
    var i := IndexOfId(lines, item.idMeal);
    if i < |lines| {
      AddExistingTotals(lines, item, price, i);
    } else {
      var line := CartLine(item, price, 1);
      assert AddLine(lines, item, price) == lines + [line];
      TotalsAppend(lines, [line]);
      assert TotalPrice([line]) == price;
    }
  }

  lemma AddExistingTotals(lines: seq<CartLine>, item: MealSummary, price: int, i: nat)
    requires UniqueIds(lines)
    requires i == IndexOfId(lines, item.idMeal) && i < |lines|
    ensures TotalItems(AddLine(lines, item, price)) == TotalItems(lines) + 1
    ensures TotalPrice(AddLine(lines, item, price)) == TotalPrice(lines) + lines[i].price
  {
    AddExistingIsReplace(lines, item, price, i);
    var l := lines[i];
    var upd := lines[i := l.(quantity := l.quantity + 1)];
    TotalsReplaceAt(lines, i, l.quantity + 1);
    assert TotalItems(upd) == TotalItems(lines) + 1;
    assert l.price * ((l.quantity + 1) - l.quantity) == l.price;
    assert TotalPrice(upd) == TotalPrice(lines) + l.price;
  }

  lemma AddExistingIsReplace(lines: seq<CartLine>, item: MealSummary, price: int, i: nat)
    requires UniqueIds(lines)
    requires i == IndexOfId(lines, item.idMeal) && i < |lines|
    ensures AddLine(lines, item, price) == lines[i := lines[i].(quantity := lines[i].quantity + 1)]
  {
    var r := AddLine(lines, item, price);
    var upd := lines[i := lines[i].(quantity := lines[i].quantity + 1)];
    forall j | 0 <= j < |lines| ensures r[j] == upd[j] {
      if j != i {
        assert lines[j].item.idMeal != item.idMeal;
      }
    }
  }

  /** Removing a meal takes its whole line out of both totals. */
  lemma {:induction false} RemoveTotals(lines: seq<CartLine>, id: string)
    requires UniqueIds(lines)
    ensures var i := IndexOfId(lines, id);
            TotalItems(RemoveLines(lines, id)) == TotalItems(lines) - (if i < |lines| then lines[i].quantity else 0)
    ensures var i := IndexOfId(lines, id);
            TotalPrice(RemoveLines(lines, id))
            == TotalPrice(lines) - (if i < |lines| then lines[i].price * lines[i].quantity else 0)
  {
    if lines != [] {
      var tail := lines[1..];
      RemoveLinesCons(lines, id);
      assert UniqueIds(tail);
      if lines[0].item.idMeal == id {
        assert IndexOfId(tail, id) == |tail| by {
          TailIdsDiffer(lines);
          forall j | 0 <= j < |tail| ensures tail[j].item.idMeal != id {
            assert tail[j] in tail;
          }
        }
        RemoveAbsent(tail, id);
        assert [] + RemoveLines(tail, id) == tail;
        assert IndexOfId(lines, id) == 0;
      } else {
        var rest := RemoveLines(tail, id);
        RemoveTotals(tail, id);
        var j := IndexOfId(tail, id);
        assert IndexOfId(lines, id) == 1 + j;
        if j < |tail| {
          assert lines[1 + j] == tail[j];
        }
        var r := [lines[0]] + rest;
        assert r[1..] == rest;
        assert TotalItems(r) == lines[0].quantity + TotalItems(rest);
        assert TotalPrice(r) == lines[0].price * lines[0].quantity + TotalPrice(rest);
      }
    }
  }

  /** Setting a positive quantity replaces the line's quantity in both totals. */
  lemma UpdateTotals(lines: seq<CartLine>, id: string, quantity: int)
    requires UniqueIds(lines)
    requires quantity > 0
    ensures TotalItems(UpdateLines(lines, id, quantity)) == TotalItems(lines) - QuantityOf(lines, id)
            + (if IndexOfId(lines, id) < |lines| then quantity else 0)
    ensures var i := IndexOfId(lines, id);
            TotalPrice(UpdateLines(lines, id, quantity))
            == TotalPrice(lines) + (if i < |lines| then lines[i].price * (quantity - lines[i].quantity) else 0)
  {
    var i := IndexOfId(lines, id);
    if i < |lines| {
      var r := UpdateLines(lines, id, quantity);
      var upd := lines[i := lines[i].(quantity := quantity)];
      forall j | 0 <= j < |lines| ensures r[j] == upd[j] {
        if j != i {
          assert lines[j].item.idMeal != id;
        }
      }
      assert r == upd;
      TotalsReplaceAt(lines, i, quantity);
    } else {
      UpdateAbsent(lines, id, quantity);
    }
  }
}

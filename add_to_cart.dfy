/** addToCart: find the caller's cart (by user id when signed in, by the
    cart-session id otherwise) or create it, then raise the quantity of the
    product's line or insert a new line. */
module AddToCart {
  import opened Common

  /** Whose cart it is. */
  datatype Owner = ByUser(userId: string) | BySession(sessionId: string)

  datatype Cart = Cart(id: string, owner: Owner)

  datatype CartItem = CartItem(id: string, cartId: string, productId: string, quantity: int)

  /** The cart and cart-item tables. */
  datatype Store = Store(carts: seq<Cart>, items: seq<CartItem>)

  datatype Reply = Reply(ok: bool, message: string)

  const Added := "Producto agregado al carrito"
  const Failed := "Error al agregar producto"

  /** `session?.user?.id` decides the lookup: a truthy user id, otherwise the
      cart-session id. */
  function OwnerOf(userId: Option<string>, sessionId: string): (o: Owner)
    ensures o.ByUser? <==> Truthy(userId)
    ensures o.ByUser? ==> o.userId == userId.value
    ensures o.BySession? ==> o.sessionId == sessionId
  {
    if Truthy(userId) then ByUser(userId.value) else BySession(sessionId)
  }

  /** findUnique on the owner's unique key. */
  function FindCart(carts: seq<Cart>, owner: Owner): (r: Option<Cart>)
    ensures r.Some? ==> r.value in carts && r.value.owner == owner
    ensures r.None? ==> forall c :: c in carts ==> c.owner != owner
  {
    Find((c: Cart) => c.owner == owner, carts)
  }

  /** The position of the cart's line for the product, if any. */
  function FindLine(items: seq<CartItem>, cartId: string, productId: string): (r: Option<nat>)
    ensures r.Some? ==> r.value < |items| && items[r.value].cartId == cartId && items[r.value].productId == productId
    ensures r.Some? ==> forall k :: 0 <= k < r.value ==> !(items[k].cartId == cartId && items[k].productId == productId)
    ensures r.None? ==> forall i :: 0 <= i < |items| ==> !(items[i].cartId == cartId && items[i].productId == productId)
  {
    if items == [] then None
    else if items[|items| - 1].cartId == cartId && items[|items| - 1].productId == productId
         && FindLine(items[..|items| - 1], cartId, productId).None?
    then Some(|items| - 1)
    else FindLine(items[..|items| - 1], cartId, productId)
  }

  /** The increment-or-insert of one line. */
  function Upsert(items: seq<CartItem>, cartId: string, productId: string, quantity: int, newItemId: string): seq<CartItem>
  {
    match FindLine(items, cartId, productId)
    case Some(i) => items[i := items[i].(quantity := items[i].quantity + quantity)]
    case None => items + [CartItem(newItemId, cartId, productId, quantity)]
  }

  /** `quantity = 1` */
  function QuantityOf(quantity: Option<int>): int
  {
    if quantity.Some? then quantity.value else 1
  }

  /** addToCart as written. `prisma.cart.create` has no `include`, so a cart
      just created carries no `items`; `cart.items.find` then throws, the
      call answers ok:false, and the new cart stays in the table. */
  function AddAsWritten(s: Store, userId: Option<string>, sessionId: string, productId: string,
                        quantity: Option<int>, newCartId: string, newItemId: string): (Store, Reply)
  {
    var owner := OwnerOf(userId, sessionId);
    match FindCart(s.carts, owner)
    case Some(cart) =>
      (Store(s.carts, Upsert(s.items, cart.id, productId, QuantityOf(quantity), newItemId)), Reply(true, Added))
    case None =>
      (Store(s.carts + [Cart(newCartId, owner)], s.items), Reply(false, Failed))
  }

  /** addToCart as intended: a new cart has no lines, so the product gets a
      new line in it. */
  function Add(s: Store, userId: Option<string>, sessionId: string, productId: string,
               quantity: Option<int>, newCartId: string, newItemId: string): (Store, Reply)
  {
    var owner := OwnerOf(userId, sessionId);
    match FindCart(s.carts, owner)
    case Some(cart) =>
      (Store(s.carts, Upsert(s.items, cart.id, productId, QuantityOf(quantity), newItemId)), Reply(true, Added))
    case None =>
      (Store(s.carts + [Cart(newCartId, owner)], Upsert(s.items, newCartId, productId, QuantityOf(quantity), newItemId)),
       Reply(true, Added))
  }

  /** An existing line gets the quantity added and nothing else changes: no
      line is added and every other line is as it was. */
  lemma UpsertExisting(items: seq<CartItem>, cartId: string, productId: string, quantity: int, newItemId: string, i: nat)
    requires FindLine(items, cartId, productId) == Some(i)
    ensures var r := Upsert(items, cartId, productId, quantity, newItemId);
      && |r| == |items|
      && r[i] == items[i].(quantity := items[i].quantity + quantity)
      && forall k :: 0 <= k < |items| && k != i ==> r[k] == items[k]
  {
  }

  /** Without a line for the product exactly one line (cartId, productId,
      quantity) is appended and the others stay. */
  lemma UpsertNew(items: seq<CartItem>, cartId: string, productId: string, quantity: int, newItemId: string)
    requires forall k :: 0 <= k < |items| ==> !(items[k].cartId == cartId && items[k].productId == productId)
    ensures Upsert(items, cartId, productId, quantity, newItemId) == items + [CartItem(newItemId, cartId, productId, quantity)]
  {
  }

  /** The quantity of the cart's product line, 0 when there is none. */
  function LineQuantity(items: seq<CartItem>, cartId: string, productId: string): int
  {
    match FindLine(items, cartId, productId)
    case Some(i) => items[i].quantity
    case None => 0
  }

  /** Whichever branch runs, the product's line ends with the old quantity
      plus the added one. */
  lemma UpsertAddsQuantity(items: seq<CartItem>, cartId: string, productId: string, quantity: int, newItemId: string)
    ensures var r := Upsert(items, cartId, productId, quantity, newItemId);
      LineQuantity(r, cartId, productId) == LineQuantity(items, cartId, productId) + quantity
  {
    var r := Upsert(items, cartId, productId, quantity, newItemId);
    match FindLine(items, cartId, productId)
    case Some(i) =>
      FindLineUnique(r, cartId, productId, i);
    case None =>
      FindLineUnique(r, cartId, productId, |items|);
  }

  /** FindLine gives the first matching position. */
  lemma FindLineUnique(items: seq<CartItem>, cartId: string, productId: string, i: nat)
    requires i < |items| && items[i].cartId == cartId && items[i].productId == productId
    requires forall k :: 0 <= k < i ==> !(items[k].cartId == cartId && items[k].productId == productId)
    ensures FindLine(items, cartId, productId) == Some(i)
  {
    if i < |items| - 1 {
      FindLineUnique(items[..|items| - 1], cartId, productId, i);
    }
  }

  /** As written, the first add for an owner without a cart fails: the cart
      is created, no line is written and the answer is ok:false. */
  lemma AddAsWrittenFailsOnNewCart(s: Store, userId: Option<string>, sessionId: string, productId: string,
                                  quantity: Option<int>, newCartId: string, newItemId: string)
    requires FindCart(s.carts, OwnerOf(userId, sessionId)).None?
    ensures var (s', reply) := AddAsWritten(s, userId, sessionId, productId, quantity, newCartId, newItemId);
      && !reply.ok && reply.message == Failed
      && s'.items == s.items
      && s'.carts == s.carts + [Cart(newCartId, OwnerOf(userId, sessionId))]
  {
  }

  /** The concrete case: a signed-in user with an empty store. The first
      call fails; the same call again then succeeds. */
  lemma AddAsWrittenFirstCallFails()
    ensures var (s1, r1) := AddAsWritten(Store([], []), Some("u1"), "s1", "p1", None, "c1", "i1");
      var (s2, r2) := AddAsWritten(s1, Some("u1"), "s1", "p1", None, "c2", "i2");
      && !r1.ok && s1.items == []
      && r2.ok && s2.items == [CartItem("i2", "c1", "p1", 1)]
  {
    var (s1, r1) := AddAsWritten(Store([], []), Some("u1"), "s1", "p1", None, "c1", "i1");
    assert s1.carts == [Cart("c1", ByUser("u1"))];
    assert FindCart(s1.carts, ByUser("u1")) == Some(Cart("c1", ByUser("u1")));
  }

  /** As intended, every call succeeds and the product's line in the
      owner's cart grows by the quantity (default 1), while no line is
      dropped and every other line stays as it was; a new cart id must be
      one no line refers to. */
  lemma AddSucceeds(s: Store, userId: Option<string>, sessionId: string, productId: string,
                    quantity: Option<int>, newCartId: string, newItemId: string)
    requires forall k :: 0 <= k < |s.items| ==> s.items[k].cartId != newCartId
    ensures var (s', reply) := Add(s, userId, sessionId, productId, quantity, newCartId, newItemId);
      var owner := OwnerOf(userId, sessionId);
      && reply.ok && reply.message == Added
      && FindCart(s'.carts, owner).Some?
      && var cartId := FindCart(s'.carts, owner).value.id;
         && LineQuantity(s'.items, cartId, productId) == LineQuantity(s.items, cartId, productId) + QuantityOf(quantity)
         && |s'.items| >= |s.items|
         && forall k :: 0 <= k < |s.items| && !(s.items[k].cartId == cartId && s.items[k].productId == productId) ==>
              s'.items[k] == s.items[k]
  {
    var owner := OwnerOf(userId, sessionId);
    var (s', reply) := Add(s, userId, sessionId, productId, quantity, newCartId, newItemId);
    match FindCart(s.carts, owner)
    case Some(cart) =>
      UpsertAddsQuantity(s.items, cart.id, productId, QuantityOf(quantity), newItemId);
      UpsertKeepsOthers(s.items, cart.id, productId, QuantityOf(quantity), newItemId);
    case None =>
      FindCartAppended(s.carts, owner, Cart(newCartId, owner));
      UpsertAddsQuantity(s.items, newCartId, productId, QuantityOf(quantity), newItemId);
      UpsertKeepsOthers(s.items, newCartId, productId, QuantityOf(quantity), newItemId);
  }

  /** Upsert never drops a line and leaves every line of another cart or
      product as it was. */
  lemma UpsertKeepsOthers(items: seq<CartItem>, cartId: string, productId: string, quantity: int, newItemId: string)
    ensures var r := Upsert(items, cartId, productId, quantity, newItemId);
      && |r| >= |items|
      && forall k :: 0 <= k < |items| && !(items[k].cartId == cartId && items[k].productId == productId) ==> r[k] == items[k]
  {
  }

  lemma FindCartAppended(carts: seq<Cart>, owner: Owner, c: Cart)
    requires FindCart(carts, owner).None? && c.owner == owner
    ensures FindCart(carts + [c], owner) == Some(c)
  {
    FindAppended((c: Cart) => c.owner == owner, carts, c);
  }

  /** The cart and cart-item tables as a mutable store. */
  class CartStore {
    var carts: seq<Cart>
    var items: seq<CartItem>

    constructor (carts: seq<Cart>, items: seq<CartItem>)
      ensures this.carts == carts && this.items == items
    {
      this.carts := carts;
      this.items := items;
    }

    /** addToCart as written. `sessionId` is what getOrCreateCartSession
        returns; `newCartId` and `newItemId` are the ids the database
        would assign. */
    method AddToCartAsWritten(userId: Option<string>, sessionId: string, productId: string,
                              quantity: Option<int>, newCartId: string, newItemId: string) returns (reply: Reply)
      modifies this
      ensures (Store(carts, items), reply) ==
        AddAsWritten(Store(old(carts), old(items)), userId, sessionId, productId, quantity, newCartId, newItemId)
    {
      var q := QuantityOf(quantity);
      var owner := OwnerOf(userId, sessionId);
      var cart := FindCart(carts, owner);
      if cart.None? {
        carts := carts + [Cart(newCartId, owner)];
        return Reply(false, Failed);
      }
      UpdateLine(cart.value.id, productId, q, newItemId);
      reply := Reply(true, Added);
    }

    /** addToCart with the new cart's empty item list in place. */
    method AddToCart(userId: Option<string>, sessionId: string, productId: string,
                     quantity: Option<int>, newCartId: string, newItemId: string) returns (reply: Reply)
      modifies this
      ensures (Store(carts, items), reply) ==
        Add(Store(old(carts), old(items)), userId, sessionId, productId, quantity, newCartId, newItemId)
    {
      var q := QuantityOf(quantity);
      var owner := OwnerOf(userId, sessionId);
      var cart := FindCart(carts, owner);
      var cartId;
      if cart.None? {
        carts := carts + [Cart(newCartId, owner)];
        cartId := newCartId;
      } else {
        cartId := cart.value.id;
      }
      UpdateLine(cartId, productId, q, newItemId);
      reply := Reply(true, Added);
    }

    /** The update of an existing line's quantity or the insert of a new
        line. */
    method UpdateLine(cartId: string, productId: string, quantity: int, newItemId: string)
      modifies this
      ensures items == Upsert(old(items), cartId, productId, quantity, newItemId)
      ensures carts == old(carts)
    {
      var existing := FindLine(items, cartId, productId);
      if existing.Some? {
        var i := existing.value;
        items := items[i := items[i].(quantity := items[i].quantity + quantity)];
      } else {
        items := items + [CartItem(newItemId, cartId, productId, quantity)];
      }
    }
  }
}

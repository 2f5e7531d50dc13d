/** getCart: the signed-in user's cart with its lines and the total, priced
    at the wholesale price for a "mayorista" and at the retail price for
    everyone else. */
module GetCart {
  import opened Common

  /** The product columns the query selects. A missing wholesale price is
      null, which JavaScript's `*` reads as 0. */
  datatype Product = Product(id: string, name: string, price: real, priceWholesale: Option<real>, images: seq<string>, stock: int)

  datatype Line = Line(id: string, quantity: int, product: Product)

  datatype CartRow = CartRow(id: string, userId: string, items: seq<Line>)

  /** `session.user`, when there is one. */
  datatype SessionUser = SessionUser(id: Option<string>, role: Option<string>)

  /** The answer: an error message, or the cart (None for `{ items: [] }`)
      and the total. */
  datatype Reply = Failure(message: string) | Success(cart: Option<CartRow>, total: real)

  /** The unit price of a line for a role. */
  function UnitPrice(role: Option<string>, p: Product): real
  {
    if role == Some("mayorista") then (if p.priceWholesale.Some? then p.priceWholesale.value else 0.0) else p.price
  }

  /** The `reduce`: a left fold of price times quantity, starting from 0. */
  function Total(role: Option<string>, items: seq<Line>): real
  {
    if items == [] then 0.0
    else Total(role, items[..|items| - 1]) + UnitPrice(role, items[|items| - 1].product) * (items[|items| - 1].quantity as real)
  }

  /** The sum over the lines, first to last. */
  function Sum(role: Option<string>, items: seq<Line>): real
  {
    if items == [] then 0.0 else UnitPrice(role, items[0].product) * (items[0].quantity as real) + Sum(role, items[1..])
  }

  /** The sum of two pieces is the sum of the whole. */
  lemma {:induction false} SumConcat(role: Option<string>, a: seq<Line>, b: seq<Line>)
    ensures Sum(role, a + b) == Sum(role, a) + Sum(role, b)
  {
    if a == [] {
      assert a + b == b;
    } else {
      assert (a + b)[1..] == a[1..] + b;
      SumConcat(role, a[1..], b);
    }
  }

  /** The fold computes the sum of unit price times quantity over the
      lines. */
  lemma {:induction false} TotalIsSum(role: Option<string>, items: seq<Line>)
    ensures Total(role, items) == Sum(role, items)
  {
    if items != [] {
      var front, last := items[..|items| - 1], items[|items| - 1];
      TotalIsSum(role, front);
      SplitLast(items);
      SumConcat(role, front, [last]);
    }
  }

  /** Only "mayorista" is priced at the wholesale price; any other role,
      or none, pays the retail price. */
  lemma {:induction false} TotalByRole(role: Option<string>, items: seq<Line>)
    requires role != Some("mayorista")
    ensures Total(role, items) == Total(None, items)
  {
    if items != [] {
      TotalByRole(role, items[..|items| - 1]);
    }
  }

  /** getCart. `session` is what auth() gives, `carts` the cart table with
      its lines and products, None when the database throws. */
  function Get(session: Option<SessionUser>, carts: Option<seq<CartRow>>): (r: Reply)
  {
    if session.None? || !Truthy(session.value.id) then Failure("No autenticado")
    else if carts.None? then Failure("Error al cargar el carrito")
    else match FindByUser(carts.value, session.value.id.value)
      case None => Success(None, 0.0)
      case Some(cart) => Success(Some(cart), Total(session.value.role, cart.items))
  }

  /** findUnique on the unique userId. */
  function FindByUser(carts: seq<CartRow>, userId: string): (r: Option<CartRow>)
    ensures r.Some? ==> r.value in carts && r.value.userId == userId
    ensures r.None? ==> forall c :: c in carts ==> c.userId != userId
  {
    Find((c: CartRow) => c.userId == userId, carts)
  }

  /** The branches of getCart: no user id is a refusal, a failing database
      the generic error, no cart an empty cart with total 0, and a cart its
      lines with the total of its lines at the role's prices. */
  lemma GetCases(session: Option<SessionUser>, carts: Option<seq<CartRow>>)
    ensures var r := Get(session, carts);
      && (r == Failure("No autenticado") <==> session.None? || !Truthy(session.value.id))
      && (r == Failure("Error al cargar el carrito") <==> Truthy(if session.Some? then session.value.id else None) && carts.None?)
      && (r.Success? && r.cart.None? ==> r.total == 0.0)
      && (r.Success? <==> session.Some? && Truthy(session.value.id) && carts.Some?)
      && (r.Success? && r.cart.Some? ==>
            r.cart.value in carts.value && r.cart.value.userId == session.value.id.value
            && r.total == Sum(session.value.role, r.cart.value.items))
  {
    var r := Get(session, carts);
    if r.Success? && r.cart.Some? {
      TotalIsSum(session.value.role, r.cart.value.items);
    }
  }
}

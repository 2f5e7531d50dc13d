/** getSimilarProducts: up to `limit` products like a given one, filled tier
    by tier (a shared subrubro, a price within thirty percent, then the same
    rubro), without duplicates, the current product excluded and each
    product's cover images cut to two. */
module SimilarProducts {
  import opened Common
  import opened ProductView

  /** A row of the product table, with the columns the query reads. */
  datatype Product = Product(
    id: string, name: string, sku: string, price: real,
    coverImages: Option<seq<string>>, variants: seq<Variant>, stock: int,
    subrubros: seq<string>, rubro: string, active: bool)

  /** What the function returns for each product: the selected columns, with
      at most two cover images. */
  datatype Card = Card(
    id: string, name: string, sku: string, price: real,
    coverImages: seq<string>, variants: seq<Variant>, stock: int,
    subrubros: seq<string>)

  /** The options object; None is a missing (undefined) entry. */
  datatype Options = Options(limit: Option<int>, includeSubrubros: Option<bool>, includePriceRange: Option<bool>)

  /** The part of every filter shared by the tiers: another product, of the
      same rubro, active. */
  datatype Base = Base(excludeId: string, rubro: string)

  /** The extra condition of each similarity tier. */
  datatype Tier = SharedSubrubro(subs: seq<string>) | PriceRange(lo: real, hi: real) | SameRubro

  /** A selected product, tagged with the tier whose query returned it. */
  datatype Hit = Hit(tier: nat, product: Product)

  function Limit(o: Options): int { if o.limit.Some? then o.limit.value else 8 }
  function IncludeSubrubros(o: Options): bool { if o.includeSubrubros.Some? then o.includeSubrubros.value else true }
  function IncludePriceRange(o: Options): bool { if o.includePriceRange.Some? then o.includePriceRange.value else true }

  /** Prisma's hasSome: the two lists share an element. */
  predicate HasSome(xs: seq<string>, ys: seq<string>)
  {
    exists i, j :: 0 <= i < |xs| && 0 <= j < |ys| && xs[i] == ys[j]
  }

  predicate Matches(b: Base, t: Tier, p: Product)
  {
    && p.id != b.excludeId && p.rubro == b.rubro && p.active
    && match t
       case SharedSubrubro(subs) => HasSome(p.subrubros, subs)
       case PriceRange(lo, hi) => lo <= p.price <= hi
       case SameRubro => true
  }

  /** similarityFilters, built from the current product's price and
      subrubros. */
  function Tiers(price: real, subrubros: seq<string>, o: Options): (r: seq<Tier>)
    ensures 1 <= |r| <= 3 && r[|r| - 1] == SameRubro
    ensures r[0].SharedSubrubro? <==> IncludeSubrubros(o) && |subrubros| > 0
    ensures (|r| >= 2 && r[|r| - 2].PriceRange?) <==> IncludePriceRange(o)
    ensures forall i :: 0 <= i < |r| && r[i].SharedSubrubro? ==> i == 0 && r[i].subs == subrubros
    ensures forall i :: 0 <= i < |r| && r[i].PriceRange? ==>
      i == |r| - 2 && r[i].lo == price * 7.0 / 10.0 && r[i].hi == price * 13.0 / 10.0
  {
    (if IncludeSubrubros(o) && |subrubros| > 0 then [SharedSubrubro(subrubros)] else []) +
    (if IncludePriceRange(o) then [PriceRange(price * 0.7, price * 1.3)] else []) +
    [SameRubro]
  }

  /** findMany with `take`: the first n matching rows in the table's order. */
  function FindMany(db: seq<Product>, b: Base, t: Tier, n: int): (r: seq<Product>)
  {
    var all := Filter((p: Product) => Matches(b, t, p), db);
    if n <= 0 then [] else if n < |all| then all[..n] else all
  }

  function Products(hs: seq<Hit>): (r: seq<Product>)
    ensures |r| == |hs| && forall i :: 0 <= i < |hs| ==> r[i] == hs[i].product
  {
    MapSeq((h: Hit) => h.product, hs)
  }

  function Ids(ps: seq<Product>): set<string>
  {
    set p | p in ps :: p.id
  }

  /** The query results whose id is not among the products kept so far. */
  function Fresh(ps: seq<Product>, results: seq<Product>): seq<Product>
  {
    Filter((p: Product) => p.id !in Ids(ps), results)
  }

  function Tag(k: nat, ps: seq<Product>): (r: seq<Hit>)
    ensures |r| == |ps| && forall i :: 0 <= i < |ps| ==> r[i] == Hit(k, ps[i])
  {
    MapSeq((p: Product) => Hit(k, p), ps)
  }

  /** The tier loop from tier k on, with the hits `acc` kept so far: stop
      once `limit` products are kept, otherwise query the tier for the
      missing number and append the new ones. */
  function Fill(db: seq<Product>, b: Base, tiers: seq<Tier>, limit: int, k: nat, acc: seq<Hit>): seq<Hit>
    requires k <= |tiers|
    decreases |tiers| - k
  {
    if k == |tiers| || |acc| >= limit then acc
    else Fill(db, b, tiers, limit, k + 1, Next(db, b, tiers, limit, k, acc))
  }

  /** One turn: query tier k for the missing number and append the hits
      whose products are not kept yet. */
  function Next(db: seq<Product>, b: Base, tiers: seq<Tier>, limit: int, k: nat, acc: seq<Hit>): seq<Hit>
    requires k < |tiers|
  {
    var found := FindMany(db, b, tiers[k], limit - |acc|);
    acc + Tag(k, Fresh(Products(acc), found))
  }

  /** A table for TakeBeforeDedupe: the current product "a" at 100, "b"
      at the same price and "c" at ten times it, all active in rubro "r". */
  const SampleA := Product("a", "A", "A1", 100.0, None, [], 1, [], "r", true)
  const SampleB := Product("b", "B", "B1", 100.0, None, [], 1, [], "r", true)
  const SampleC := Product("c", "C", "C1", 1000.0, None, [], 1, [], "r", true)
  const SampleBase := Base("a", "r")
  const SampleTiers := [PriceRange(70.0, 130.0), SameRubro]

  /** `take` is applied before the duplicates are dropped: a product kept
      by the price tier takes up the fallback tier's only slot, so the
      shortlist stays below the limit although another product of the
      rubro qualifies. */
  lemma TakeBeforeDedupe()
    ensures var hs := Fill([SampleA, SampleB, SampleC], SampleBase, SampleTiers, 2, 0, []);
      && Products(hs) == [SampleB]
      && |hs| < 2 && Matches(SampleBase, SameRubro, SampleC)
  {
    var db := [SampleA, SampleB, SampleC];
    SamplePriceTier();
    SampleFallbackTier();
    assert Fill(db, SampleBase, SampleTiers, 2, 2, [Hit(0, SampleB)]) == [Hit(0, SampleB)];
  }

  lemma SamplePriceTier()
    ensures Next([SampleA, SampleB, SampleC], SampleBase, SampleTiers, 2, 0, []) == [Hit(0, SampleB)]
  {
    var db := [SampleA, SampleB, SampleC];
    var price := (p: Product) => Matches(SampleBase, SampleTiers[0], p);
    assert db[1..] == [SampleB, SampleC] && [SampleB, SampleC][1..] == [SampleC] && [SampleC][1..] == [];
    assert !price(SampleA) && price(SampleB) && !price(SampleC);
    assert Filter(price, [SampleC]) == [];
    assert Filter(price, [SampleB, SampleC]) == [SampleB];
    assert Filter(price, db) == [SampleB];
    assert Fresh([], [SampleB]) == [SampleB];
  }

  lemma SampleFallbackTier()
    ensures Next([SampleA, SampleB, SampleC], SampleBase, SampleTiers, 2, 1, [Hit(0, SampleB)]) == [Hit(0, SampleB)]
  {
    var db := [SampleA, SampleB, SampleC];
    var any := (p: Product) => Matches(SampleBase, SampleTiers[1], p);
    assert db[1..] == [SampleB, SampleC] && [SampleB, SampleC][1..] == [SampleC] && [SampleC][1..] == [];
    assert !any(SampleA) && any(SampleB) && any(SampleC);
    assert Filter(any, [SampleC]) == [SampleC];
    assert Filter(any, [SampleB, SampleC]) == [SampleB, SampleC];
    assert Filter(any, db) == [SampleB, SampleC];
    assert FindMany(db, SampleBase, SampleTiers[1], 1) == [SampleB];
    assert Ids(Products([Hit(0, SampleB)])) == {"b"};
    assert Fresh(Products([Hit(0, SampleB)]), [SampleB]) == [];
  }

  /** One turn of the tier loop, with the kept products ps. */
  lemma FillStep(db: seq<Product>, b: Base, tiers: seq<Tier>, limit: int, k: nat, acc: seq<Hit>, ps: seq<Product>)
    requires k < |tiers| && ps == Products(acc) && |ps| < limit
    ensures var newOnes := Fresh(ps, FindMany(db, b, tiers[k], limit - |ps|));
      && Next(db, b, tiers, limit, k, acc) == acc + Tag(k, newOnes)
      && Products(acc + Tag(k, newOnes)) == ps + newOnes
  {
    assert |acc| == |ps|;
    ProductsTag(acc, k, Fresh(ps, FindMany(db, b, tiers[k], limit - |ps|)));
  }

  /** The products of the kept hits followed by new tier-k hits. */
  lemma ProductsTag(acc: seq<Hit>, k: nat, ps: seq<Product>)
    ensures Products(acc + Tag(k, ps)) == Products(acc) + ps
  {
    var all := acc + Tag(k, ps);
    forall i | 0 <= i < |all| ensures Products(all)[i] == (Products(acc) + ps)[i] {
      if i >= |acc| {
        assert all[i] == Hit(k, ps[i - |acc|]);
      }
    }
  }

  /** products.slice(0, limit), with JavaScript's reading of a negative end. */
  function Slice<T>(s: seq<T>, n: int): seq<T>
  {
    if n >= |s| then s else if n >= 0 then s[..n] else if |s| + n > 0 then s[..|s| + n] else []
  }

  /** `coverImages?.slice(0, 2) || []`; an empty list is truthy. */
  function CardOf(p: Product): (c: Card)
  {
    var covers := if p.coverImages.None? then [] else if |p.coverImages.value| <= 2 then p.coverImages.value else p.coverImages.value[..2];
    Card(p.id, p.name, p.sku, p.price, covers, p.variants, p.stock, p.subrubros)
  }

  /** findUnique by id. */
  function FindById(db: seq<Product>, id: string): (r: Option<Product>)
    ensures r.Some? ==> r.value in db && r.value.id == id
    ensures r.None? ==> forall p :: p in db ==> p.id != id
  {
    Find((p: Product) => p.id == id, db)
  }

  /** The tagged selection for a current product that exists. */
  function Selection(db: seq<Product>, productId: string, current: Product, o: Options): seq<Hit>
  {
    Fill(db, Base(productId, current.rubro), Tiers(current.price, current.subrubros, o), Limit(o), 0, [])
  }

  /** getSimilarProducts. The table is None when the database throws; the
      `rubro` argument is not read. */
  function Similar(db: Option<seq<Product>>, productId: string, o: Options): seq<Card>
  {
    if db.None? then []
    else match FindById(db.value, productId)
      case None => []
      case Some(current) => MapSeq(CardOf, Slice(Products(Selection(db.value, productId, current, o)), Limit(o)))
  }

  method GetSimilarProducts(db: Option<seq<Product>>, productId: string, rubro: string, o: Options) returns (r: seq<Card>)
    ensures r == Similar(db, productId, o)
  {
    if db.None? {
      return [];
    }
    var current := FindById(db.value, productId);
    if current.None? {
      return [];
    }
    var limit := Limit(o);
    var products := TierLoop(db.value, Base(productId, current.value.rubro), Tiers(current.value.price, current.value.subrubros, o), limit);
    r := MapSeq(CardOf, Slice(products, limit));
  }

  /** The `for (const filter of similarityFilters)` loop. */
  method TierLoop(db: seq<Product>, b: Base, tiers: seq<Tier>, limit: int) returns (products: seq<Product>)
    ensures products == Products(Fill(db, b, tiers, limit, 0, []))
  {
    products := [];
    ghost var hits: seq<Hit> := [];
    ghost var selection := Fill(db, b, tiers, limit, 0, hits);
    var k := 0;
    while k < |tiers|
      invariant 0 <= k <= |tiers|
      invariant products == Products(hits)
      invariant Fill(db, b, tiers, limit, k, hits) == selection
    {
      if |products| >= limit {
        break;
      }
      var results := FindMany(db, b, tiers[k], limit - |products|);
      var newProducts := Fresh(products, results);
      FillStep(db, b, tiers, limit, k, hits, products);
      products := products + newProducts;
      hits := hits + Tag(k, newProducts);
      k := k + 1;
    }
  }

  /** Every id occurs at most once. */
  predicate UniqueIds(ps: seq<Product>)
  {
    forall i, j :: 0 <= i < j < |ps| ==> ps[i].id != ps[j].id
  }

  /** Each hit of Fill from tier k on, beyond the kept ones, comes from the
      table, matches the filter of its tier, and tiers never go down;
      there are at most `limit` of them once some were added. */
  predicate WellTagged(db: seq<Product>, b: Base, tiers: seq<Tier>, hs: seq<Hit>)
  {
    && (forall i :: 0 <= i < |hs| ==> hs[i].tier < |tiers| && hs[i].product in db && Matches(b, tiers[hs[i].tier], hs[i].product))
    && (forall i, j :: 0 <= i < j < |hs| ==> hs[i].tier <= hs[j].tier)
  }

  lemma FindManyBound(db: seq<Product>, b: Base, t: Tier, n: int)
    ensures |FindMany(db, b, t, n)| <= if n <= 0 then 0 else n
    ensures forall p :: p in FindMany(db, b, t, n) ==> p in db && Matches(b, t, p)
  {
    var all := Filter((p: Product) => Matches(b, t, p), db);
    if 0 < n < |all| {
      forall p | p in all[..n] ensures p in all {
      }
    }
  }

  /** Fill keeps the hits well tagged. */
  lemma {:induction false} FillWellTagged(db: seq<Product>, b: Base, tiers: seq<Tier>, limit: int, k: nat, acc: seq<Hit>)
    requires k <= |tiers| && WellTagged(db, b, tiers, acc)
    requires forall i :: 0 <= i < |acc| ==> acc[i].tier < k
    ensures WellTagged(db, b, tiers, Fill(db, b, tiers, limit, k, acc))
    decreases |tiers| - k
  {
    if k < |tiers| && |acc| < limit {
      var next := Next(db, b, tiers, limit, k, acc);
      NextWellTagged(db, b, tiers, limit, k, acc);
      FillWellTagged(db, b, tiers, limit, k + 1, next);
    }
  }

  /** One turn keeps the hits well tagged, with tiers below k + 1. */
  lemma NextWellTagged(db: seq<Product>, b: Base, tiers: seq<Tier>, limit: int, k: nat, acc: seq<Hit>)
    requires k < |tiers| && WellTagged(db, b, tiers, acc)
    requires forall i :: 0 <= i < |acc| ==> acc[i].tier < k
    ensures var next := Next(db, b, tiers, limit, k, acc);
      WellTagged(db, b, tiers, next) && forall i :: 0 <= i < |next| ==> next[i].tier < k + 1
  {
    var found := FindMany(db, b, tiers[k], limit - |acc|);
    FindManyBound(db, b, tiers[k], limit - |acc|);
    TagWellTagged(db, b, tiers, k, acc, found, Fresh(Products(acc), found));
  }

  /** Appending the tier-k hits to hits of earlier tiers keeps them well
      tagged. */
  lemma TagWellTagged(db: seq<Product>, b: Base, tiers: seq<Tier>, k: nat, acc: seq<Hit>, found: seq<Product>, newOnes: seq<Product>)
    requires k < |tiers| && WellTagged(db, b, tiers, acc)
    requires forall i :: 0 <= i < |acc| ==> acc[i].tier < k
    requires forall p :: p in found ==> p in db && Matches(b, tiers[k], p)
    requires forall p :: p in newOnes ==> p in found
    ensures var next := acc + Tag(k, newOnes);
      WellTagged(db, b, tiers, next) && forall i :: 0 <= i < |next| ==> next[i].tier < k + 1
  {
    var next := acc + Tag(k, newOnes);
    forall i | 0 <= i < |next| ensures next[i].tier < |tiers| && next[i].product in db && Matches(b, tiers[next[i].tier], next[i].product) {
      if i >= |acc| {
        assert next[i] == Hit(k, newOnes[i - |acc|]);
        assert newOnes[i - |acc|] in newOnes;
      }
    }
  }

  /** Fill never keeps more than `limit` hits, counting those it starts with
      when there are fewer. */
  lemma FillBound(db: seq<Product>, b: Base, tiers: seq<Tier>, limit: int, k: nat, acc: seq<Hit>)
    requires k <= |tiers| && |acc| <= limit
    ensures |Fill(db, b, tiers, limit, k, acc)| <= limit
  {
    forall j: nat, h | k <= j < |tiers| && |h| < limit
      ensures |Next(db, b, tiers, limit, j, h)| <= limit
    {
      NextBound(db, b, tiers, limit, j, h);
    }
    FillKeeps(db, b, tiers, limit, k, acc, (h: seq<Hit>) => |h| <= limit);
  }

  /** One turn adds at most the missing number of hits. */
  lemma NextBound(db: seq<Product>, b: Base, tiers: seq<Tier>, limit: int, k: nat, acc: seq<Hit>)
    requires k < |tiers| && |acc| < limit
    ensures |acc| <= |Next(db, b, tiers, limit, k, acc)| <= limit
  {
    FindManyBound(db, b, tiers[k], limit - |acc|);
  }

  /** Filtering keeps unique ids unique. */
  lemma {:induction false} FilterUnique(p: Product -> bool, s: seq<Product>)
    requires UniqueIds(s)
    ensures UniqueIds(Filter(p, s))
  {
    if s != [] {
      FilterUnique(p, s[1..]);
      var rest := Filter(p, s[1..]);
      if p(s[0]) {
        forall j | 0 <= j < |rest| ensures rest[j].id != s[0].id {
          assert rest[j] in rest;
          assert rest[j] in s[1..];
        }
      }
    }
  }

  lemma FindManyUnique(db: seq<Product>, b: Base, t: Tier, n: int)
    requires UniqueIds(db)
    ensures UniqueIds(FindMany(db, b, t, n))
  {
    FilterUnique((p: Product) => Matches(b, t, p), db);
  }

  /** Appending the newOnes results keeps the ids of the kept products
      distinct: the dedup removes what is already kept, and one query's rows
      are distinct in a table with unique ids. */
  lemma FreshAppendUnique(ps: seq<Product>, results: seq<Product>)
    requires UniqueIds(ps) && UniqueIds(results)
    ensures UniqueIds(ps + Fresh(ps, results))
  {
    var newOnes := Fresh(ps, results);
    FilterUnique((p: Product) => p.id !in Ids(ps), results);
    var all := ps + newOnes;
    forall i, j | 0 <= i < j < |all| ensures all[i].id != all[j].id {
      if j >= |ps| {
        assert all[j] == newOnes[j - |ps|];
        assert newOnes[j - |ps|] in newOnes;
        if i < |ps| {
          assert all[i] == ps[i];
          assert ps[i] in ps;
        } else {
          assert all[i] == newOnes[i - |ps|];
        }
      }
    }
  }

  /** The products of the hits have distinct ids. */
  predicate DistinctHits(hs: seq<Hit>)
  {
    forall i, j :: 0 <= i < j < |hs| ==> hs[i].product.id != hs[j].product.id
  }

  lemma DistinctHitsProducts(hs: seq<Hit>)
    ensures DistinctHits(hs) <==> UniqueIds(Products(hs))
  {
    var ps := Products(hs);
    if UniqueIds(ps) {
      forall i, j | 0 <= i < j < |hs| ensures hs[i].product.id != hs[j].product.id {
        assert ps[i] == hs[i].product && ps[j] == hs[j].product;
      }
    }
  }

  /** A property of the kept hits that every turn preserves holds of what
      the loop returns. */
  lemma {:induction false} FillKeeps(db: seq<Product>, b: Base, tiers: seq<Tier>, limit: int, k: nat, acc: seq<Hit>,
                                     inv: seq<Hit> -> bool)
    requires k <= |tiers| && inv(acc)
    requires forall j: nat, h {:trigger Next(db, b, tiers, limit, j, h)} ::
      k <= j < |tiers| && |h| < limit && inv(h) ==> inv(Next(db, b, tiers, limit, j, h))
    ensures inv(Fill(db, b, tiers, limit, k, acc))
    decreases |tiers| - k
  {
    if k < |tiers| && |acc| < limit {
      var next := Next(db, b, tiers, limit, k, acc);
      assert inv(next);
      FillKeeps(db, b, tiers, limit, k + 1, next, inv);
      assert Fill(db, b, tiers, limit, k, acc) == Fill(db, b, tiers, limit, k + 1, next);
    }
  }

  lemma FillUnique(db: seq<Product>, b: Base, tiers: seq<Tier>, limit: int, k: nat, acc: seq<Hit>)
    requires k <= |tiers| && UniqueIds(db) && DistinctHits(acc)
    ensures DistinctHits(Fill(db, b, tiers, limit, k, acc))
  {
    forall j: nat, h | k <= j < |tiers| && |h| < limit && DistinctHits(h)
      ensures DistinctHits(Next(db, b, tiers, limit, j, h))
    {
      NextUnique(db, b, tiers, limit, j, h);
    }
    FillKeeps(db, b, tiers, limit, k, acc, DistinctHits);
  }

  /** One turn keeps the kept ids distinct. */
  lemma NextUnique(db: seq<Product>, b: Base, tiers: seq<Tier>, limit: int, k: nat, acc: seq<Hit>)
    requires k < |tiers| && UniqueIds(db) && DistinctHits(acc)
    ensures DistinctHits(Next(db, b, tiers, limit, k, acc))
  {
    DistinctHitsProducts(acc);
    DistinctHitsProducts(Next(db, b, tiers, limit, k, acc));
    var found := FindMany(db, b, tiers[k], limit - |acc|);
    var newOnes := Fresh(Products(acc), found);
    FindManyUnique(db, b, tiers[k], limit - |acc|);
    FreshAppendUnique(Products(acc), found);
    ProductsTag(acc, k, newOnes);
  }

  /** The selection: at most `limit` products, each from the table, another
      product than the current one, of its rubro and active, each matching
      the tier that returned it, earlier tiers first; with unique ids in the
      table the selected ids are distinct. */
  lemma SelectionProperties(db: seq<Product>, productId: string, current: Product, o: Options)
    ensures var hs := Selection(db, productId, current, o);
      && |hs| <= (if Limit(o) <= 0 then 0 else Limit(o))
      && WellTagged(db, Base(productId, current.rubro), Tiers(current.price, current.subrubros, o), hs)
      && (forall i :: 0 <= i < |hs| ==> hs[i].product.id != productId && hs[i].product.rubro == current.rubro && hs[i].product.active)
      && (UniqueIds(db) ==> UniqueIds(Products(hs)))
  {
    var b := Base(productId, current.rubro);
    var tiers := Tiers(current.price, current.subrubros, o);
    var hs := Selection(db, productId, current, o);
    FillWellTagged(db, b, tiers, Limit(o), 0, []);
    if Limit(o) >= 0 {
      FillBound(db, b, tiers, Limit(o), 0, []);
    } else {
      assert hs == [];
    }
    if UniqueIds(db) {
      FillUnique(db, b, tiers, Limit(o), 0, []);
      DistinctHitsProducts(hs);
    }
    forall i | 0 <= i < |hs| ensures hs[i].product.id != productId && hs[i].product.rubro == current.rubro && hs[i].product.active {
      assert Matches(b, tiers[hs[i].tier], hs[i].product);
    }
  }

  /** An unknown product or a failing database gives the empty list. */
  lemma SimilarEmpty(db: Option<seq<Product>>, productId: string, o: Options)
    requires db.None? || FindById(db.value, productId).None?
    ensures Similar(db, productId, o) == []
  {
  }

  /** Otherwise the returned cards are the selected products, in order: the
      final slice cuts nothing. */
  lemma SimilarCards(db: seq<Product>, productId: string, o: Options)
    requires FindById(db, productId).Some?
    ensures var r := Similar(Some(db), productId, o);
      var hs := Selection(db, productId, FindById(db, productId).value, o);
      |r| == |hs| && forall i :: 0 <= i < |r| ==> r[i] == CardOf(hs[i].product)
  {
    var current := FindById(db, productId).value;
    SelectionProperties(db, productId, current, o);
    var ps := Products(Selection(db, productId, current, o));
    assert Slice(ps, Limit(o)) == ps;
  }

  /** No more than `limit` cards, each with at most two cover images. */
  lemma SimilarBound(db: Option<seq<Product>>, productId: string, o: Options)
    ensures var r := Similar(db, productId, o);
      && |r| <= (if Limit(o) <= 0 then 0 else Limit(o))
      && forall i :: 0 <= i < |r| ==> |r[i].coverImages| <= 2
  {
    if db.Some? && FindById(db.value, productId).Some? {
      var current := FindById(db.value, productId).value;
      var hs := Selection(db.value, productId, current, o);
      var r := Similar(db, productId, o);
      SelectionProperties(db.value, productId, current, o);
      SimilarCards(db.value, productId, o);
      forall i | 0 <= i < |r| ensures |r[i].coverImages| <= 2 {
        CardOfKeeps(hs[i].product);
      }
    }
  }

  /** A card keeps the product's columns and a prefix of its cover images. */
  lemma CardOfKeeps(p: Product)
    ensures var c := CardOf(p);
      && c.id == p.id && c.name == p.name && c.sku == p.sku && c.price == p.price
      && c.variants == p.variants && c.stock == p.stock && c.subrubros == p.subrubros
      && |c.coverImages| <= 2
      && (p.coverImages.None? ==> c.coverImages == [])
      && (p.coverImages.Some? ==>
            && c.coverImages == p.coverImages.value[..|c.coverImages|]
            && |c.coverImages| == if |p.coverImages.value| < 2 then |p.coverImages.value| else 2)
  {
  }
}

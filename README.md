# Darccuir–Yatay storefront: a Dafny model of its core

This project models the core of a Next.js storefront that serves two
product lines (rubros), "darccuir" and "yatay". It is written in Dafny and
verified. It covers:

- the admin back-office:
  - the bulk price import from a spreadsheet, its page and its request
    handler;
  - the subrubro (sub-category) manager with its slug rule;
  - the admin layout's role gate;
- the catalogue:
  - the product schema used to validate products;
  - the recursive subrubro tree;
  - the similar-products query;
  - the product gallery, the hero carousel and the related-products strip;
  - the search bar;
- accounts and carts:
  - registration;
  - credentials sign-in and its JWT session callbacks;
  - the add-to-cart and get-cart server actions.

Each source file is one Dafny module:

| module | file | source |
|---|---|---|
| `Common` | `common.dfy` | shared definitions |
| `UpdatePrices` | `update_prices.dfy` | `src/app/api/admin/update-prices/route.js` |
| `PreciosPage` | `precios_page.dfy` | `src/app/admin/precios/page.jsx` |
| `SimilarProducts` | `similar_products.dfy` | `src/lib/products/getSimilarProducts.js` |
| `SubrubrosTree` | `subrubros_tree.dfy` | `src/lib/getSubrubrosRecursive.js` |
| `SubrubrosManager` | `subrubros_manager.dfy` | `src/components/admin/SubrubrosManager.jsx` |
| `ProductView` | `product_view.dfy` | `src/components/products/ProductView.jsx` |
| `Carrousel` | `carrousel.dfy` | `src/components/ui/Carrousel.jsx` |
| `RelatedCarousel` | `related_carousel.dfy` | `src/components/products/RelatedProductsCarousel.jsx` |
| `SearchBar` | `search_bar.dfy` | `src/components/ui/SearchBar.jsx` |
| `AddToCart` | `add_to_cart.dfy` | `src/actions/cart/add-to-cart.js` |
| `GetCart` | `get_cart.dfy` | `src/actions/cart/get-cart.js` |
| `Register` | `register.dfy` | `src/app/api/auth/register/route.js` |
| `Auth` | `auth.dfy` | `src/auth.js` |
| `AdminLayout` | `admin_layout.dfy` | `src/app/admin/layout.jsx` |
| `ProductSchema` | `product_schema.dfy` | `src/lib/validations/products.js` |

`Common` holds the pieces several modules share:

- `Option`, which stands for a JavaScript `undefined` or `null`;
- JavaScript truthiness;
- `Filter`;
- `String.prototype.trim`, with JavaScript's whitespace set.

**How the code maps to Dafny.**

- **Pure computations become functions.** A query, a validator, a slug
  rule or a fold is a function, with lemmas about it.
- **Loops become methods.** The source's loops are methods with `while` or
  `for` loops. Each is proved equal to its specification function:
  - the per-row price update;
  - `getSimilarProducts`' tier loop;
  - the variant-index map of the gallery;
  - the level loop of the subrubro tree.
- **State that changes in place becomes a class.** These are classes with
  `modifies` clauses:
  - React component state;
  - the JWT token and session objects;
  - `URLSearchParams`;
  - the cart tables.

**Boundaries.**

- A database table is a sequence or a map, and a failing database call is
  `None`.
- Library behaviour the model cannot see is passed in as a function
  parameter. This covers bcrypt, `encodeURIComponent`,
  `URLSearchParams.toString`, `String(number)` and `parseFloat`,
  `z.string().url()`, and the `toLowerCase`/`normalize("NFD")`/accent-strip
  chain.

## Model

| member | source | states |
|---|---|---|
| UpdatePrices.ParsePriceType | src/app/api/admin/update-prices/route.js:19-24 | priceType is accepted exactly when it is "minorista" or "mayorista", each giving its own type; a missing field or any other text is refused |
| UpdatePrices.Write | src/app/api/admin/update-prices/route.js:96-104 | the update sets the selected price field to the new value and leaves id, name and the other price field as they were |
| UpdatePrices.WriteSame | src/app/api/admin/update-prices/route.js:96-104 | writing a field's current value back changes nothing, and a null wholesale price with nothing to write stays null |
| UpdatePrices.WriteTwice | src/app/api/admin/update-prices/route.js:96-104 | a second write to the same field replaces the first |
| UpdatePrices.Step | src/app/api/admin/update-prices/route.js:69-114 | one row: an unparsable price adds (sku, "Precio inválido") to errores and changes nothing else; an unknown SKU adds (sku, descripcion) to noEncontrados and changes nothing else; a known SKU writes that product's selected price and adds (sku, name, previous value of that field, new price) to actualizados; no SKU is added or removed |
| UpdatePrices.Run | src/app/api/admin/update-prices/route.js:61-121 | the loop over the kept rows keeps the table's SKUs, and the three lists together get exactly one entry per row |
| UpdatePrices.StepLists | src/app/api/admin/update-prices/route.js:68-114 | a step extends errores for a bad price, noEncontrados for an unknown SKU and actualizados (by one entry, with the row's SKU and price) for a known one, and no other list |
| UpdatePrices.RunErrores | src/app/api/admin/update-prices/route.js:70-79 | errores holds exactly the rows whose price does not parse, in row order, each as (trimmed SKU, "Precio inválido") |
| UpdatePrices.RunNoEncontrados | src/app/api/admin/update-prices/route.js:81-93 | noEncontrados holds exactly the rows whose price parses and whose SKU is not in the table, in row order, with their descripcion |
| UpdatePrices.RunActualizados | src/app/api/admin/update-prices/route.js:95-114 | actualizados has one entry per row whose price parses and whose SKU is in the table, in row order, carrying that row's SKU and price |
| UpdatePrices.RunTable | src/app/api/admin/update-prices/route.js:96-104 | after the import every product keeps its id, name and unselected price, and its selected price is the one from the last row that names its SKU and whose price parses (unchanged if no row does) |
| UpdatePrices.StepTable | src/app/api/admin/update-prices/route.js:96-104 | a step changes no product except the one its row updates |
| UpdatePrices.NullWholesaleRecordsNull | src/app/api/admin/update-prices/route.js:106-113 | a wholesale import of a product whose wholesale price is null, with no earlier row for it, records a null precioAnterior and leaves the new price in the field |
| UpdatePrices.LastPriceNone | src/app/api/admin/update-prices/route.js:96-104 | without a row that names the SKU and parses, there is no last price for it |
| UpdatePrices.RepeatedSkuSeesEarlierWrite | src/app/api/admin/update-prices/route.js:106-114 | two consecutive rows for the same SKU: the second entry's precioAnterior is the price the first one wrote |
| UpdatePrices.RunPrefixStep | src/app/api/admin/update-prices/route.js:68 | one more row of the prefix is one more step of the loop |
| UpdatePrices.UpdateRows | src/app/api/admin/update-prices/route.js:68-121 | the for loop over the kept rows ends with the table and the three lists that Run specifies |
| UpdatePrices.Post | src/app/api/admin/update-prices/route.js:6-127 | a missing file, a bad priceType and a sheet with no complete rows each give 400 with their message and leave the table alone; the request is processed exactly when none of these holds, and then the response carries the parsed price type and the results of Run, with total equal to the number of kept rows, and the table is Run's |
| PreciosPage.PriceForm.constructor | src/app/admin/precios/page.jsx:7-10 | no file, "minorista", not loading, no results |
| PreciosPage.PriceForm.HandleFileChange | src/app/admin/precios/page.jsx:12-27 | no selection changes nothing; a file whose type is not one of the two Excel MIME types is refused with its alert and changes nothing; an Excel file is kept and the results are cleared |
| PreciosPage.PriceForm.SetPriceType | src/app/admin/precios/page.jsx:101-117 | a radio button sets the price type and nothing else, and the type stays one of the two radio values |
| PreciosPage.PriceForm.Submit | src/app/admin/precios/page.jsx:29-48 | with no file it alerts and sends nothing; otherwise it sets loading, clears the results, posts the file with the current price type, and the submit button is disabled while the request runs |
| PreciosPage.PriceForm.Complete | src/app/admin/precios/page.jsx:50-61 | a success stores the results; any failure alerts; loading ends false either way, so the button is enabled again exactly when a file is chosen |
| PreciosPage.PriceForm.HandleReset | src/app/admin/precios/page.jsx:64-68 | file and results cleared, price type back to "minorista" |
| PreciosPage.SubmitRound | src/app/admin/precios/page.jsx:29-62 | a whole submit with a file posts a price type the endpoint accepts, and leaves loading false and the results set to the server's on success and to none on failure |
| SimilarProducts.Tiers | src/lib/products/getSimilarProducts.js:31-59 | one to three filters, ending with the rubro-only fallback; the shared-subrubro filter comes first and only when enabled and the product has subrubros; the price filter comes just before the fallback, only when enabled, with bounds 0.7 and 1.3 times the price |
| SimilarProducts.TakeBeforeDedupe | src/lib/products/getSimilarProducts.js:64-92 | `take` applies before duplicates are dropped: for a table with the current product, one at its price and one at ten times it, and a limit of 2, the shortlist holds only the first, although the third qualifies for the fallback tier |
| SimilarProducts.FindById | src/lib/products/getSimilarProducts.js:13-20 | a product found has the requested id; when none is found no product has it |
| SimilarProducts.FindManyBound | src/lib/products/getSimilarProducts.js:67-84 | a tier query returns at most `take` rows (none for a take of zero or less), each a table row matching that tier's filter |
| SimilarProducts.FillStep | src/lib/products/getSimilarProducts.js:64-92 | one turn of the loop below the limit queries the tier for the missing number and appends the results whose ids are not kept yet |
| SimilarProducts.TierLoop | src/lib/products/getSimilarProducts.js:62-92 | the for loop with its early break returns the products Fill specifies |
| SimilarProducts.FillKeeps | src/lib/products/getSimilarProducts.js:64-92 | any property of the kept products that every turn below the limit preserves holds of the loop's result |
| SimilarProducts.FillWellTagged | src/lib/products/getSimilarProducts.js:64-92 | every product the loop keeps comes from the table and matches the filter of the tier that returned it, and tiers never go back |
| SimilarProducts.NextWellTagged | src/lib/products/getSimilarProducts.js:67-91 | one turn keeps that property and tags its new products with the current tier |
| SimilarProducts.FillBound | src/lib/products/getSimilarProducts.js:65-69 | the loop never keeps more than `limit` products |
| SimilarProducts.NextBound | src/lib/products/getSimilarProducts.js:69-91 | one turn adds at most the missing number of products |
| SimilarProducts.FindManyUnique | src/lib/products/getSimilarProducts.js:67-84 | with unique ids in the table, one query's rows have distinct ids |
| SimilarProducts.FreshAppendUnique | src/lib/products/getSimilarProducts.js:86-91 | the dedup filter keeps the ids of the kept products distinct |
| SimilarProducts.NextUnique | src/lib/products/getSimilarProducts.js:86-91 | one turn keeps the kept ids distinct |
| SimilarProducts.FillUnique | src/lib/products/getSimilarProducts.js:64-92 | the loop never keeps the same product twice |
| SimilarProducts.SelectionProperties | src/lib/products/getSimilarProducts.js:25-92 | the selection has at most `limit` products, none is the current product, all share its rubro and are active, each matches the tier that returned it with earlier tiers first, and their ids are distinct |
| SimilarProducts.GetSimilarProducts | src/lib/products/getSimilarProducts.js:4-104 | the method returns what Similar specifies, for every table, failing database and option set |
| SimilarProducts.SimilarEmpty | src/lib/products/getSimilarProducts.js:22 | an unknown product id or a failing database gives the empty list |
| SimilarProducts.SimilarCards | src/lib/products/getSimilarProducts.js:95-98 | otherwise the result is the selection in order, each product as its card: the final slice cuts nothing |
| SimilarProducts.SimilarBound | src/lib/products/getSimilarProducts.js:5-9 | never more than `limit` cards (default 8), each with at most two cover images |
| SimilarProducts.CardOfKeeps | src/lib/products/getSimilarProducts.js:95-98 | a card keeps the selected columns and the first two cover images, or none when the product has none |
| SubrubrosTree.SortByOrderSpec | src/lib/getSubrubrosRecursive.js:10 | the level order is ascending by `order` and loses or adds no record |
| SubrubrosTree.InsertSorted | src/lib/getSubrubrosRecursive.js:10 | inserting into a sorted level keeps it sorted |
| SubrubrosTree.InsertCount | src/lib/getSubrubrosRecursive.js:10 | inserting adds exactly the one record |
| SubrubrosTree.LevelSpec | src/lib/getSubrubrosRecursive.js:4-11 | a level is sorted by order and holds exactly the active records of the rubro under the given parent, each as often as in the table |
| SubrubrosTree.TreeNodes | src/lib/getSubrubrosRecursive.js:14-16 | node i is record i of the level and its children are the tree under that record's id |
| SubrubrosTree.TreeWellFormed | src/lib/getSubrubrosRecursive.js:3-19 | every level of the tree holds active records of the rubro whose parent is the node above, siblings in ascending order |
| SubrubrosTree.OccursActive | src/lib/getSubrubrosRecursive.js:8 | every record in the tree is an active table record, and one below the top has its parent among the active records of the tree |
| SubrubrosTree.InactiveHidesChildren | src/lib/getSubrubrosRecursive.js:14-16 | the children of an inactive record never appear in the tree, even active ones |
| SubrubrosTree.InactiveHidesDescendants | src/lib/getSubrubrosRecursive.js:8-16 | no record on a chain of parent links below an inactive record appears in the tree, at any depth, as long as no record of the chain is the tree's own top parent |
| SubrubrosTree.DefaultTreeHidesInactive | src/lib/getSubrubrosRecursive.js:3-16 | in the tree of the default call no descendant of an inactive record appears, at any depth |
| SubrubrosTree.GetSubrubrosRecursive | src/lib/getSubrubrosRecursive.js:3-19 | the recursive function with its for loop returns the tree Tree specifies |
| SubrubrosTree.GetSubrubros | src/lib/getSubrubrosRecursive.js:3-5 | the default call (parent null) gives a well-formed tree whose top level is roots |
| SubrubrosManager.SkipRun | src/components/admin/SubrubrosManager.jsx:24 | skipping a run of non-slug characters never lengthens the string and stops at a slug character |
| SubrubrosManager.CollapseShape | src/components/admin/SubrubrosManager.jsx:24 | replacing each run of characters outside [a-z0-9] by one dash gives [a-z0-9-] with no two dashes in a row |
| SubrubrosManager.CollapseKeepsSlugChars | src/components/admin/SubrubrosManager.jsx:24 | the letters and digits of the name survive the replacement, in order |
| SubrubrosManager.DropLeadingSpec | src/components/admin/SubrubrosManager.jsx:25 | stripping leading dashes gives a suffix that does not start with a dash, and only dashes were removed |
| SubrubrosManager.DropTrailingSpec | src/components/admin/SubrubrosManager.jsx:25 | stripping trailing dashes gives a prefix that does not end with a dash, and only dashes were removed |
| SubrubrosManager.SlugShape | src/components/admin/SubrubrosManager.jsx:20-25 | every generated slug is made of [a-z0-9-], with no dash at either end and no two dashes in a row |
| SubrubrosManager.CollapseFixes | src/components/admin/SubrubrosManager.jsx:24 | a string already of slug characters and single dashes is left unchanged |
| SubrubrosManager.SlugIdempotent | src/components/admin/SubrubrosManager.jsx:20-25 | the slug of a slug is itself, when folding leaves slugs alone |
| SubrubrosManager.GroupsPartition | src/components/admin/SubrubrosManager.jsx:90-93 | each rubro group holds exactly the records of that rubro, and when every record has one of the two rubros the groups together hold them all |
| SubrubrosManager.RootsAndChildren | src/components/admin/SubrubrosManager.jsx:97 | the roots are exactly the records with no parent, the children of a node are exactly those whose parentId is its id, and roots plus non-roots account for every record |
| SubrubrosManager.DeleteKeepsOthers | src/components/admin/SubrubrosManager.jsx:82 | deleting removes exactly the records with that id and keeps the others; an id not in the list changes nothing |
| SubrubrosManager.Manager.constructor | src/components/admin/SubrubrosManager.jsx:6-16 | the initial list, the form closed, not loading, the default draft |
| SubrubrosManager.Manager.ToggleCreating | src/components/admin/SubrubrosManager.jsx:156 | the button flips the form open or closed and changes nothing else |
| SubrubrosManager.Manager.HandleNameChange | src/components/admin/SubrubrosManager.jsx:19-32 | only the draft's name and generated slug change |
| SubrubrosManager.Manager.HandleCreate | src/components/admin/SubrubrosManager.jsx:35-69 | a created record is appended, the draft reset and the form closed; a failure changes none of these; loading ends false either way |
| SubrubrosManager.Manager.HandleDelete | src/components/admin/SubrubrosManager.jsx:72-87 | a confirmed and successful delete removes the records with that id; a cancel or a failure changes nothing |
| ProductView.FlatImagesSkipsEmpty | src/components/products/ProductView.jsx:38-42 | dropping the variants without images does not change the flattened images |
| ProductView.AllImagesShape | src/components/products/ProductView.jsx:37-43 | the gallery is the cover images followed by every variant's images, whether or not any variant has images, and its length is their sum |
| ProductView.StartPointsAtVariant | src/components/products/ProductView.jsx:47-52 | the index recorded for a variant with images is where its images begin in the gallery |
| ProductView.StartsIncrease | src/components/products/ProductView.jsx:47-52 | those indices strictly increase along the variants with images |
| ProductView.HexesSpec | src/components/products/ProductView.jsx:49-51 | the colours recorded are exactly those of the variants with images |
| ProductView.NoVariantImages | src/components/products/ProductView.jsx:46 | when no variant has images nothing is recorded |
| ProductView.LoopStep | src/components/products/ProductView.jsx:49-54 | one iteration keeps the running index and the recorded colours and positions as the loop needs them |
| ProductView.VariantImageIndices | src/components/products/ProductView.jsx:45-55 | the map's keys are the colours of the variants with images, and each colour maps to the start of the images of the last variant with that colour |
| ProductView.StepsStayInRange | src/components/products/ProductView.jsx:91-101 | next and prev keep the index within the gallery, and do nothing when it is empty |
| ProductView.NextPrevInverse | src/components/products/ProductView.jsx:93-99 | on an index within the gallery, prev undoes next and next undoes prev |
| ProductView.Gallery.constructor | src/components/products/ProductView.jsx:16-43 | the gallery is allImages and the current image is the first |
| ProductView.Gallery.NextImage | src/components/products/ProductView.jsx:91-95 | the arrow moves to the next image, wrapping around |
| ProductView.Gallery.PrevImage | src/components/products/ProductView.jsx:97-101 | the arrow moves to the previous image, wrapping around |
| ProductView.Gallery.SelectImage | src/components/products/ProductView.jsx:199 | a thumbnail click selects that image |
| Carrousel.TickInRange | src/components/ui/Carrousel.jsx:17-19 | on a non-empty list a tick keeps the index in range and is the successor modulo the length |
| Carrousel.TicksAdd | src/components/ui/Carrousel.jsx:16-20 | a plus b ticks are a ticks followed by b ticks |
| Carrousel.TicksUp | src/components/ui/Carrousel.jsx:17-19 | below the last index k ticks add k |
| Carrousel.TicksReturn | src/components/ui/Carrousel.jsx:16-20 | as many ticks as images bring the carousel back to where it started |
| Carrousel.TicksWithoutImages | src/components/ui/Carrousel.jsx:17-19 | with no images the index never wraps and grows by one per tick |
| Carrousel.Shown | src/components/ui/Carrousel.jsx:31 | an image is shown exactly when its index is the current one |
| Carrousel.ExactlyOneShown | src/components/ui/Carrousel.jsx:28-32 | exactly one image is shown when the index is in range, none otherwise |
| Carrousel.Slideshow.constructor | src/components/ui/Carrousel.jsx:12 | the carousel starts at the first image |
| Carrousel.Slideshow.Advance | src/components/ui/Carrousel.jsx:16-20 | one interval callback performs one tick |
| Carrousel.Slideshow.AdvanceInRange | src/components/ui/Carrousel.jsx:16-20 | a tick keeps an in-range index in range |
| RelatedCarousel.ItemsPerViewMonotone | src/components/products/RelatedProductsCarousel.jsx:12-32 | with the default prop, or any prop whose counts grow from mobile to desktop, a wider window never shows fewer cards |
| RelatedCarousel.ItemsPerViewPositive | src/components/products/RelatedProductsCarousel.jsx:24-32 | with positive or missing entries the count is positive |
| RelatedCarousel.ScrollOpposite | src/components/products/RelatedProductsCarousel.jsx:58-70 | the two arrows scroll by opposite amounts, a page of cards plus their 16-pixel gaps |
| RelatedCarousel.IndicatorsCeil | src/components/products/RelatedProductsCarousel.jsx:127-131 | no indicators when everything fits on one page, otherwise exactly enough pages to cover the products |
| RelatedCarousel.ScrollArrows | src/components/products/RelatedProductsCarousel.jsx:41-47 | content within ten pixels of the container never enables the right arrow; content overflowing by more always has an arrow enabled; near the end the right arrow is off |
| RelatedCarousel.Strip.constructor | src/components/products/RelatedProductsCarousel.jsx:15-17 | both arrows off and 4 cards per view |
| RelatedCarousel.Strip.HandleResize | src/components/products/RelatedProductsCarousel.jsx:24-32 | a resize sets the cards per view for the width and leaves the arrows |
| RelatedCarousel.Strip.CheckScroll | src/components/products/RelatedProductsCarousel.jsx:41-47 | a scroll sets both arrows from the container's measures and leaves the cards per view |
| SearchBar.SetNamed | src/components/ui/SearchBar.jsx:45-51 | after set(k, v) the parameter k has exactly the one value v |
| SearchBar.SetOthers | src/components/ui/SearchBar.jsx:45-51 | set(k, v) leaves every entry under another name, in content and order |
| SearchBar.SetKeepsPrefix | src/components/ui/SearchBar.jsx:45-51 | set keeps the entries before the first one under k in place and puts the new value at that position |
| SearchBar.DeleteSpec | src/components/ui/SearchBar.jsx:47 | delete(k) leaves no value under k and every other entry in order |
| SearchBar.NamedUnderOther | src/components/ui/SearchBar.jsx:44-51 | setting or deleting one name leaves the entries under every other name unchanged |
| SearchBar.SearchParams.constructor | src/components/ui/SearchBar.jsx:42 | the copy holds the current parameters |
| SearchBar.SearchParams.Set | src/components/ui/SearchBar.jsx:45-51 | the entries become those that set specifies |
| SearchBar.SearchParams.Delete | src/components/ui/SearchBar.jsx:47 | the entries become those that delete specifies |
| SearchBar.HomeTargetSpec | src/components/ui/SearchBar.jsx:31-39 | the home target begins with the path and carries `?q=` with the encoded trimmed query exactly when that query is not blank; surrounding whitespace makes no difference |
| SearchBar.CatalogSpec | src/components/ui/SearchBar.jsx:41-53 | in the catalog q holds the trimmed query (or nothing when blank), page holds "1", and every other filter keeps its entries |
| SearchBar.SearchBox.constructor | src/components/ui/SearchBar.jsx:18-27 | the mode, path and initial query come from the props, which default to home mode, `/darccuir/catalog` and an empty query |
| SearchBar.SearchBox.Change | src/components/ui/SearchBar.jsx:84 | typing sets the query |
| SearchBar.SearchBox.HandleSubmit | src/components/ui/SearchBar.jsx:29-55 | the pushed URL is the home target in home mode, and in catalog mode `?` followed by the new parameters |
| Common.TrimIsInfix | src/components/ui/SearchBar.jsx:31 | trim returns a contiguous piece of the string, removing only whitespace |
| Common.TrimEnds | src/components/ui/SearchBar.jsx:31 | a non-empty trimmed string neither starts nor ends with whitespace |
| Common.TrimIdempotent | src/components/ui/SearchBar.jsx:31 | trimming twice is trimming once |
| AddToCart.OwnerOf | src/actions/cart/add-to-cart.js:10-30 | a truthy user id looks up the user's cart, otherwise the cart-session id |
| Common.Find | src/actions/cart/add-to-cart.js:17-35 | an element found satisfies the lookup's condition and belongs to the sequence; none found means no element does |
| Common.FindAppended | src/actions/cart/add-to-cart.js:29-35 | a record appended after a failed lookup is what the same lookup then finds |
| AddToCart.FindCart | src/actions/cart/add-to-cart.js:17-35 | a cart found belongs to the owner; none found means no cart does |
| AddToCart.FindLine | src/actions/cart/add-to-cart.js:45-47 | the line found is the first of the cart for that product; none found means there is none |
| AddToCart.UpsertExisting | src/actions/cart/add-to-cart.js:49-54 | an existing line gets the quantity added and every other line stays |
| AddToCart.UpsertNew | src/actions/cart/add-to-cart.js:55-63 | without a line for the product exactly one new line with the quantity is appended |
| AddToCart.UpsertAddsQuantity | src/actions/cart/add-to-cart.js:44-64 | whichever branch runs, the product's line ends with the old quantity plus the added one |
| AddToCart.AddAsWrittenFailsOnNewCart | src/actions/cart/add-to-cart.js:22-45 | as written, an owner without a cart gets a cart created, no line, and ok:false |
| AddToCart.AddAsWrittenFirstCallFails | src/actions/cart/add-to-cart.js:22-25 | as written, for a signed-in user with an empty store the first call fails and only a second call adds the line |
| AddToCart.AddSucceeds | src/actions/cart/add-to-cart.js:8-67 | as intended, every call succeeds and the product's line in the owner's cart grows by the quantity (default 1); no line is dropped and every line of another cart or product is as it was |
| AddToCart.UpsertKeepsOthers | src/actions/cart/add-to-cart.js:44-64 | the upsert drops no line and leaves every line of another cart or product as it was |
| AddToCart.CartStore.AddToCartAsWritten | src/actions/cart/add-to-cart.js:8-73 | the method changes the tables and replies as the as-written function specifies |
| AddToCart.CartStore.AddToCart | src/actions/cart/add-to-cart.js:8-67 | the method changes the tables and replies as the intended function specifies |
| AddToCart.CartStore.UpdateLine | src/actions/cart/add-to-cart.js:49-64 | the lines become the upsert of the product's line, and the carts are unchanged |
| GetCart.TotalIsSum | src/actions/cart/get-cart.js:45-50 | the reduce is the sum over the lines of unit price times quantity |
| GetCart.SumConcat | src/actions/cart/get-cart.js:45-50 | the total of two groups of lines is the sum of their totals |
| GetCart.TotalByRole | src/actions/cart/get-cart.js:46-48 | only "mayorista" is priced at the wholesale price; every other role prices as a missing role does |
| GetCart.FindByUser | src/actions/cart/get-cart.js:14-15 | a cart found belongs to the user; none found means the user has none |
| GetCart.GetCases | src/actions/cart/get-cart.js:6-65 | no user id gives "No autenticado"; a failing database gives "Error al cargar el carrito"; no cart gives an empty cart with total 0; otherwise the user's cart with its total |
| Register.Post | src/app/api/auth/register/route.js:5-83 | an e-mail already registered gives 400 and no change; a minorista without a password gives 400 and no change; otherwise exactly one user is created under the e-mail with 201; a body that is not JSON, or whose e-mail is not a string, gives 500 |
| Register.MinoristaRecord | src/app/api/auth/register/route.js:41-56 | a minorista is stored with the hashed password and null phone, store name and locality |
| Register.MayoristaRecord | src/app/api/auth/register/route.js:59-64 | a mayorista is stored with the empty password and the given wholesale fields, null when missing |
| Register.OtherRoleRecord | src/app/api/auth/register/route.js:33-38 | any other role, or none, is stored with only the base fields |
| Register.RegisterAddsOne | src/app/api/auth/register/route.js:67-74 | a registration adds exactly one user and changes no other |
| Auth.AuthorizeCases | src/auth.js:17-48 | a missing e-mail or password gives the "required" error; an unknown user, a user without a password and a wrong password all give the same "invalid" error; sign-in succeeds exactly otherwise, with the stored user's public fields |
| Auth.MayoristaCannotSignIn | src/auth.js:26-28 | an account registered as mayorista, whose password is empty, can never sign in with credentials |
| Auth.Token.Jwt | src/auth.js:58-68 | at sign-in the token takes the user's id, e-mail, first name and role; later calls leave it as it is |
| Auth.Session.FromToken | src/auth.js:70-80 | with a token and a session user, the user takes the token's id, first name, e-mail and role; otherwise nothing changes |
| Auth.SignInFlow | src/auth.js:58-79 | after sign-in the session user carries the signed-in user's id, e-mail, first name and role |
| AdminLayout.Gate | src/app/admin/layout.jsx:8-24 | no session or no user redirects to /auth/login; a user whose role is not "admin" redirects home; exactly an admin gets the page, whose navbar shows that user |
| AdminLayout.GateAfterSignIn | src/app/admin/layout.jsx:12-21 | a session built by sign-in reaches the admin page exactly when the user's role is "admin", and is never sent to login |
| ProductSchema.NonEmpty | src/lib/validations/products.js:4-5 | sku and name pass exactly when they are non-empty strings; the empty string gets the field's message |
| ProductSchema.Price | src/lib/validations/products.js:6 | price passes exactly when it is a number of at least 0; a negative number gets "Precio inválido" |
| ProductSchema.Strings | src/lib/validations/products.js:7-17 | an array passes exactly when every element is a string accepted by the element check, and keeps them in order |
| ProductSchema.StringArray | src/lib/validations/products.js:7-17 | a missing array becomes empty; an array passes exactly when its elements do; anything else fails |
| ProductSchema.OptionalString | src/lib/validations/products.js:9-10 | description and guiaTalles pass when missing (becoming "") or strings |
| ProductSchema.RubroOf | src/lib/validations/products.js:13-15 | rubro passes exactly as "darccuir" or "yatay"; a missing rubro gets "Rubro requerido" |
| ProductSchema.Active | src/lib/validations/products.js:19 | active passes when missing (becoming true) or boolean |
| ProductSchema.Stock | src/lib/validations/products.js:20 | stock passes when missing (becoming 0) or a non-negative integer |
| ProductSchema.ParseAccepted | src/lib/validations/products.js:3-21 | a product that passes has a non-empty sku and name, a price of at least 0, URL cover images, one of the two rubros and a non-negative stock |
| ProductSchema.ParseDefaults | src/lib/validations/products.js:7-20 | each default stands in for a missing field, and only for that: a present coverImages, subrubros, active, description, guiaTalles, stock or variants reaches the product with its own value |
| ProductSchema.ParseRejects | src/lib/validations/products.js:4-20 | an empty sku or name, a negative price, a missing rubro or a fractional stock makes the parse fail, with the schema's message where it has one |
| ProductSchema.ParseFields | src/lib/validations/products.js:3-21 | an object whose fields hold a conforming product's values parses to that product |
| ProductSchema.ParseEncode | src/lib/validations/products.js:3-21 | round trip: a conforming product written out and parsed again is itself |

## Left out

- Reading the spreadsheet (XLSX parsing, the first sheet, starting at the
  sixth row) is not modelled. The import receives the rows already read.
- The route's per-row `catch` (route.js lines 115-120) is not modelled.
  That path records a database exception's message as an error. The
  database is modelled as never throwing inside the loop.
- The outer 500 response of the price import is not modelled. It happens
  only on exceptions.
- Database ordering is not modelled. Products come in table order rather
  than by `updatedAt` and `createdAt` descending.
- React's `cache` wrapper is not modelled.
- SimilarProducts.GetSimilarProducts accepts the `rubro` argument but does
  not use it, as in the source.
- SubrubrosTree.InactiveHidesDescendants and
  SubrubrosTree.DefaultTreeHidesInactive assume that the table's ids are
  unique. In the database they are primary keys.
- ProductView.VariantImageIndices: every variant is modelled with a
  colour. The component reads `variant.color.hex` for each variant with
  images, so a variant without `color` would throw inside the gallery's
  `useMemo`. The schema keeps `variants` as any JSON value and does not
  rule that out. The model has no such variant and no such failure.
- SimilarProducts.SelectionProperties: the distinct-ids conclusion assumes
  the table's ids are unique. In the database they are primary keys.
- bcrypt hashing and comparison are function parameters, and so is the
  string fold of the slug rule (`toLowerCase`, NFD, accent removal).
- The cryptography of the JWT, its signing secret and its expiry clock are
  not modelled.
- `getOrCreateCartSession` and `revalidatePath` are not modelled. The
  session id is a parameter, and revalidation has no effect the model can
  see.
- The ids the database assigns are parameters.
- `encodeURIComponent` and `URLSearchParams.toString` are function
  parameters.
- `parseFloat`, `String()` on numbers and `z.string().url()` are function
  parameters.
- JavaScript numbers are modelled as mathematical reals or integers, so
  there is no floating-point rounding. The price bounds 0.7 and 1.3 are
  exact.
- Every rendering detail is not modelled:
  - markup and styles;
  - alerts and confirmation dialogs, which are outputs or inputs;
  - `fetch`, `router.push`, `console` and `setTimeout`/`setInterval`;
  - event listeners;
  - the gallery's zoom handlers.
- Carrousel: re-creating the interval whenever the index changes is not
  modelled. Each callback is one tick.
- ProductView: the early return for a missing product is not modelled.
  Neither is the `ProductViewInfo` variant click, which jumps to an index
  of `variantImageIndices`; it is in a file that is not part of this
  model.
- RelatedCarousel.Renders: the early `return null` is a predicate with no
  contract of its own.
- PriceForm.SubmitEnabled: the button's `disabled` state has no contract
  of its own. Submit and Complete state when it holds.
- SubrubrosManager: the draft setters for slug, rubro, parent and order
  (form `onChange` handlers) are plain field writes and are not modelled.
  Only the name handler, which derives the slug, is.
- SubrubrosTree.Tree: the recursion carries a depth bound (`fuel`). The
  default call gives it the table's size, which is enough for any tree
  without a cycle. A cycle of parent ids, which would make the source
  recurse forever, is cut off at that depth.
- ProductSchema: zod's exact set of issues is simplified. Each field gives
  at most one issue, and zod's default messages are `None`.
- ProductSchema: the unknown keys that zod strips have no place in the
  model's product. `variants` is `z.any()` and keeps the JSON value as
  given.
- Register.Post: the model has no server error other than a body whose
  e-mail is not a string. Every other database failure is not modelled.
- GetCart: a null wholesale price reads as 0. In JavaScript, `null * n`
  is 0.
- AddToCart: an exception thrown by `auth()` or by a Prisma call other
  than the as-written `cart.items` failure is not modelled. The catch
  would answer ok:false with "Error al agregar producto", keeping the
  writes already made. Session and database are inputs that do not fail.
- GetCart.Get: an exception thrown by `auth()` is not modelled as its own
  input. It falls into the same catch as a failing query, so its answer
  is the failing-database answer "Error al cargar el carrito".

## Findings

| source | as written | input that shows it | evidently intended | confidence | as-written member | corrected member |
|---|---|---|---|---|---|---|
| src/actions/cart/add-to-cart.js:22-45 | a cart created by `prisma.cart.create` has no `include: { items: true }`, so `cart.items` is undefined and `cart.items.find` throws into the catch, which answers ok:false after the cart has been created | a signed-in user "u1" adds product "p1" to a store with no carts | the first add to a new cart inserts the line with the quantity and answers ok:true | not executed | AddToCart.AddAsWrittenFirstCallFails | AddToCart.AddSucceeds |

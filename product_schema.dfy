/** productSchema: the validator a product object goes through before it is
    stored. Every field has a type and a constraint, and several have a
    default that stands in for a field left out. */
module ProductSchema {
  import opened Common

  /** A JSON value as the validator receives it. Undefined is a key the
      object does not have; Other is any object. */
  datatype Json = Undefined | Null | Str(s: string) | Num(n: real) | Bool(b: bool) | Arr(elems: seq<Json>) | Other

  datatype Rubro = Darccuir | Yatay

  /** The validated product: the output object of the parse. */
  datatype Product = Product(
    sku: string, name: string, price: real, coverImages: seq<string>, variants: Json,
    description: string, guiaTalles: string, rubro: Rubro, subrubros: seq<string>,
    active: bool, stock: nat)

  /** One complaint: the field it is about, and the schema's own message
      where it gives one (None is the validator's default message). */
  datatype Issue = Issue(path: string, message: Option<string>)

  datatype Parsed = Valid(product: Product) | Invalid(issues: seq<Issue>)

  /** The verdict on one field. */
  datatype Check<T> = Ok(value: T) | Bad(issue: Issue)

  function Issues<T>(c: Check<T>): seq<Issue>
  {
    if c.Bad? then [c.issue] else []
  }

  /** The field of the input object. */
  function Get(o: map<string, Json>, k: string): Json
  {
    if k in o then o[k] else Undefined
  }

  /** z.string().min(1, message). */
  function NonEmpty(path: string, message: string, v: Json): (r: Check<string>)
    ensures r.Ok? <==> v.Str? && v.s != ""
    ensures r.Ok? ==> r.value == v.s
    ensures v == Str("") ==> r == Bad(Issue(path, Some(message)))
  {
    if !v.Str? then Bad(Issue(path, None))
    else if v.s == "" then Bad(Issue(path, Some(message)))
    else Ok(v.s)
  }

  /** z.number().min(0, "Precio inválido"). */
  function Price(v: Json): (r: Check<real>)
    ensures r.Ok? <==> v.Num? && v.n >= 0.0
    ensures r.Ok? ==> r.value == v.n
    ensures v.Num? && v.n < 0.0 ==> r == Bad(Issue("price", Some("Precio inválido")))
  {
    if !v.Num? then Bad(Issue("price", None))
    else if v.n < 0.0 then Bad(Issue("price", Some("Precio inválido")))
    else Ok(v.n)
  }

  /** The strings of an array whose every element is a string accepted by
      `ok`; None as soon as one element is not. */
  function Strings(ok: string -> bool, es: seq<Json>): (r: Option<seq<string>>)
    ensures r.Some? <==> forall i :: 0 <= i < |es| ==> es[i].Str? && ok(es[i].s)
    ensures r.Some? ==> |r.value| == |es| && forall i :: 0 <= i < |es| ==> r.value[i] == es[i].s
  {
    if es == [] then Some([])
    else if !es[0].Str? || !ok(es[0].s) then None
    else
      var rest := Strings(ok, es[1..]);
      if rest.None? then None else Some([es[0].s] + rest.value)
  }

  function AnyString(s: string): bool
  {
    true
  }

  /** z.array(element).default([]): the default only for a field left out;
      null is not an array. */
  function StringArray(path: string, ok: string -> bool, v: Json): (r: Check<seq<string>>)
    ensures v == Undefined ==> r == Ok([])
    ensures v.Arr? ==> (r.Ok? <==> forall i :: 0 <= i < |v.elems| ==> v.elems[i].Str? && ok(v.elems[i].s))
    ensures !v.Arr? && v != Undefined ==> r.Bad?
    ensures r.Ok? && v.Arr? ==> |r.value| == |v.elems| && forall i :: 0 <= i < |v.elems| ==> r.value[i] == v.elems[i].s
  {
    if v == Undefined then Ok([])
    else if !v.Arr? then Bad(Issue(path, None))
    else
      var ss := Strings(ok, v.elems);
      if ss.None? then Bad(Issue(path, None)) else Ok(ss.value)
  }

  /** z.string().optional().default(""). */
  function OptionalString(path: string, v: Json): (r: Check<string>)
    ensures r.Ok? <==> v == Undefined || v.Str?
    ensures v == Undefined ==> r == Ok("")
    ensures v.Str? ==> r == Ok(v.s)
  {
    if v == Undefined then Ok("") else if v.Str? then Ok(v.s) else Bad(Issue(path, None))
  }

  /** z.enum(["darccuir", "yatay"], { required_error: "Rubro requerido" }):
      the custom message only for a field left out. */
  function RubroOf(v: Json): (r: Check<Rubro>)
    ensures r.Ok? <==> v == Str("darccuir") || v == Str("yatay")
    ensures r == Ok(Darccuir) <==> v == Str("darccuir")
    ensures v == Undefined ==> r == Bad(Issue("rubro", Some("Rubro requerido")))
  {
    if v == Str("darccuir") then Ok(Darccuir)
    else if v == Str("yatay") then Ok(Yatay)
    else if v == Undefined then Bad(Issue("rubro", Some("Rubro requerido")))
    else Bad(Issue("rubro", None))
  }

  /** z.boolean().default(true). */
  function Active(v: Json): (r: Check<bool>)
    ensures r.Ok? <==> v == Undefined || v.Bool?
    ensures r.Ok? ==> r.value == (v == Undefined || v.b)
  {
    if v == Undefined then Ok(true) else if v.Bool? then Ok(v.b) else Bad(Issue("active", None))
  }

  predicate IsInteger(x: real)
  {
    x.Floor as real == x
  }

  /** z.number().int().min(0).default(0). */
  function Stock(v: Json): (r: Check<nat>)
    ensures r.Ok? <==> v == Undefined || (v.Num? && IsInteger(v.n) && v.n >= 0.0)
    ensures r.Ok? ==> r.value as real == (if v == Undefined then 0.0 else v.n)
  {
    if v == Undefined then Ok(0)
    else if v.Num? && IsInteger(v.n) && v.n >= 0.0 then Ok(v.n.Floor)
    else Bad(Issue("stock", None))
  }

  /** z.any().default([]): anything is accepted, a field left out becomes
      the empty array. */
  function Variants(v: Json): Json
  {
    if v == Undefined then Arr([]) else v
  }

  /** productSchema.safeParse(o). `isUrl` stands for z.string().url(). The
      issues come field by field in the schema's order; keys the schema
      does not name are dropped from the output. */
  function Parse(o: map<string, Json>, isUrl: string -> bool): Parsed
  {
    var sku := NonEmpty("sku", "SKU requerido", Get(o, "sku"));
    var name := NonEmpty("name", "Nombre requerido", Get(o, "name"));
    var price := Price(Get(o, "price"));
    var covers := StringArray("coverImages", isUrl, Get(o, "coverImages"));
    var description := OptionalString("description", Get(o, "description"));
    var guiaTalles := OptionalString("guiaTalles", Get(o, "guiaTalles"));
    var rubro := RubroOf(Get(o, "rubro"));
    var subrubros := StringArray("subrubros", AnyString, Get(o, "subrubros"));
    var active := Active(Get(o, "active"));
    var stock := Stock(Get(o, "stock"));
    var issues := Issues(sku) + Issues(name) + Issues(price) + Issues(covers) + Issues(description)
      + Issues(guiaTalles) + Issues(rubro) + Issues(subrubros) + Issues(active) + Issues(stock);
    if issues != [] then Invalid(issues)
    else Valid(Product(sku.value, name.value, price.value, covers.value, Variants(Get(o, "variants")),
                       description.value, guiaTalles.value, rubro.value, subrubros.value, active.value, stock.value))
  }

  /** The constraints the schema puts on a product it lets through. */
  predicate Conforms(p: Product, isUrl: string -> bool)
  {
    && p.sku != "" && p.name != "" && p.price >= 0.0
    && forall i :: 0 <= i < |p.coverImages| ==> isUrl(p.coverImages[i])
  }

  /** A product that passes has a non-empty sku and name, a price of at
      least 0, cover images that are all URLs, and the fields of the input
      or their defaults. */
  lemma ParseAccepted(o: map<string, Json>, isUrl: string -> bool)
    requires Parse(o, isUrl).Valid?
    ensures var p := Parse(o, isUrl).product;
      && Conforms(p, isUrl)
      && Get(o, "sku") == Str(p.sku) && Get(o, "name") == Str(p.name) && Get(o, "price") == Num(p.price)
      && (p.rubro == Darccuir <==> Get(o, "rubro") == Str("darccuir"))
      && (p.rubro == Yatay <==> Get(o, "rubro") == Str("yatay"))
      && (Get(o, "stock") == Undefined || Get(o, "stock") == Num(p.stock as real))
  {
  }

  /** Each default stands in for a field left out, and only for that: a
      field that is present reaches the product with its own value. */
  lemma ParseDefaults(o: map<string, Json>, isUrl: string -> bool)
    requires Parse(o, isUrl).Valid?
    ensures var p := Parse(o, isUrl).product;
      && ("coverImages" !in o ==> p.coverImages == [])
      && ("subrubros" !in o ==> p.subrubros == [])
      && ("active" !in o ==> p.active)
      && ("description" !in o ==> p.description == "")
      && ("guiaTalles" !in o ==> p.guiaTalles == "")
      && ("stock" !in o ==> p.stock == 0)
      && ("variants" !in o ==> p.variants == Arr([]))
      && (Get(o, "coverImages") != Undefined ==> Get(o, "coverImages") == Arr(StrAll(p.coverImages)))
      && (Get(o, "subrubros") != Undefined ==> Get(o, "subrubros") == Arr(StrAll(p.subrubros)))
      && (Get(o, "active") != Undefined ==> Get(o, "active") == Bool(p.active))
      && (Get(o, "description") != Undefined ==> Get(o, "description") == Str(p.description))
      && (Get(o, "guiaTalles") != Undefined ==> Get(o, "guiaTalles") == Str(p.guiaTalles))
      && (Get(o, "stock") != Undefined ==> Get(o, "stock") == Num(p.stock as real))
      && (Get(o, "variants") != Undefined ==> p.variants == Get(o, "variants"))
  {
    var p := Parse(o, isUrl).product;
    assert Get(o, "coverImages") != Undefined ==> StrAll(p.coverImages) == Get(o, "coverImages").elems;
    assert Get(o, "subrubros") != Undefined ==> StrAll(p.subrubros) == Get(o, "subrubros").elems;
  }

  /** A required field that is missing, empty or out of range makes the
      parse fail with the schema's message for it. */
  lemma ParseRejects(o: map<string, Json>, isUrl: string -> bool)
    ensures Get(o, "sku") == Str("") ==> Parse(o, isUrl).Invalid? && Issue("sku", Some("SKU requerido")) in Parse(o, isUrl).issues
    ensures Get(o, "name") == Str("") ==> Parse(o, isUrl).Invalid? && Issue("name", Some("Nombre requerido")) in Parse(o, isUrl).issues
    ensures Get(o, "price").Num? && Get(o, "price").n < 0.0 ==>
      Parse(o, isUrl).Invalid? && Issue("price", Some("Precio inválido")) in Parse(o, isUrl).issues
    ensures "rubro" !in o ==> Parse(o, isUrl).Invalid? && Issue("rubro", Some("Rubro requerido")) in Parse(o, isUrl).issues
    ensures Get(o, "stock").Num? && !IsInteger(Get(o, "stock").n) ==> Parse(o, isUrl).Invalid?
  {
  }

  function StrAll(ss: seq<string>): (r: seq<Json>)
    ensures |r| == |ss| && forall i :: 0 <= i < |ss| ==> r[i] == Str(ss[i])
  {
    MapSeq(s => Str(s), ss)
  }

  function RubroName(r: Rubro): string
  {
    if r == Darccuir then "darccuir" else "yatay"
  }

  /** The product written back out as a JSON object. */
  function Encode(p: Product): map<string, Json>
  {
    map["sku" := Str(p.sku), "name" := Str(p.name), "price" := Num(p.price),
        "coverImages" := Arr(StrAll(p.coverImages)), "variants" := p.variants,
        "description" := Str(p.description), "guiaTalles" := Str(p.guiaTalles),
        "rubro" := Str(RubroName(p.rubro)), "subrubros" := Arr(StrAll(p.subrubros)),
        "active" := Bool(p.active), "stock" := Num(p.stock as real)]
  }

  /** Each field of the encoded object holds the product's value. */
  lemma EncodeFields(p: Product)
    ensures var o := Encode(p);
      && Get(o, "sku") == Str(p.sku) && Get(o, "name") == Str(p.name) && Get(o, "price") == Num(p.price)
      && Get(o, "coverImages") == Arr(StrAll(p.coverImages)) && Get(o, "variants") == p.variants
      && Get(o, "description") == Str(p.description) && Get(o, "guiaTalles") == Str(p.guiaTalles)
      && Get(o, "rubro") == Str(RubroName(p.rubro)) && Get(o, "subrubros") == Arr(StrAll(p.subrubros))
      && Get(o, "active") == Bool(p.active) && Get(o, "stock") == Num(p.stock as real)
  {
  }

  /** The strings of an encoded array are the strings it was made from. */
  lemma StringsOfStrAll(ok: string -> bool, ss: seq<string>)
    requires forall i :: 0 <= i < |ss| ==> ok(ss[i])
    ensures Strings(ok, StrAll(ss)) == Some(ss)
  {
    var r := Strings(ok, StrAll(ss));
    assert r.Some?;
    assert r.value == ss;
  }

  /** An object whose fields hold a conforming product's values parses to
      that product. */
  lemma ParseFields(o: map<string, Json>, isUrl: string -> bool, p: Product)
    requires Conforms(p, isUrl) && p.variants != Undefined
    requires Get(o, "sku") == Str(p.sku) && Get(o, "name") == Str(p.name) && Get(o, "price") == Num(p.price)
    requires Get(o, "coverImages") == Arr(StrAll(p.coverImages)) && Get(o, "variants") == p.variants
    requires Get(o, "description") == Str(p.description) && Get(o, "guiaTalles") == Str(p.guiaTalles)
    requires Get(o, "rubro") == Str(RubroName(p.rubro)) && Get(o, "subrubros") == Arr(StrAll(p.subrubros))
    requires Get(o, "active") == Bool(p.active) && Get(o, "stock") == Num(p.stock as real)
    ensures Parse(o, isUrl) == Valid(p)
  {
    StringsOfStrAll(isUrl, p.coverImages);
    StringsOfStrAll(AnyString, p.subrubros);
    assert StringArray("coverImages", isUrl, Get(o, "coverImages")) == Ok(p.coverImages);
    assert RubroOf(Get(o, "rubro")) == Ok(p.rubro);
    assert StringArray("subrubros", AnyString, Get(o, "subrubros")) == Ok(p.subrubros);
    assert (p.stock as real).Floor == p.stock;
    assert Stock(Get(o, "stock")) == Ok(p.stock);
  }

  /** Round trip: a product that conforms, written out and parsed again, is
      the same product (an Undefined variants field aside, which the
      output never holds). */
  lemma ParseEncode(p: Product, isUrl: string -> bool)
    requires Conforms(p, isUrl) && p.variants != Undefined
    ensures Parse(Encode(p), isUrl) == Valid(p)
  {
    EncodeFields(p);
    ParseFields(Encode(p), isUrl, p);
  }
}

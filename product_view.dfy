/** The image gallery of the product page: the cover images followed by the
    images of every variant, a map from a variant's colour to the position
    of its first image, and previous/next navigation that wraps around. */
module ProductView {
  import opened Common

  /** A product variant: its colour's hex code and its images, which may be
      missing. */
  datatype Variant = Variant(hex: string, images: Option<seq<string>>)

  function ImagesOf(v: Variant): seq<string>
  {
    if v.images.Some? then v.images.value else []
  }

  /** `v.images?.length > 0` */
  predicate HasImages(v: Variant)
  {
    |ImagesOf(v)| > 0
  }

  function OrEmpty<T>(o: Option<seq<T>>): seq<T>
  {
    if o.Some? then o.value else []
  }

  /** The images of the variants one after another (flatMap). */
  function FlatImages(vs: seq<Variant>): seq<string>
  {
    if vs == [] then [] else FlatImages(vs[..|vs| - 1]) + ImagesOf(vs[|vs| - 1])
  }

  /** Total number of variant images. */
  function ImageCount(vs: seq<Variant>): nat
  {
    if vs == [] then 0 else ImageCount(vs[..|vs| - 1]) + |ImagesOf(vs[|vs| - 1])|
  }

  /** allImages: the cover images, then the images of the variants that
      have some, in variant order; just the covers when no variant has
      images. */
  function AllImages(cover: Option<seq<string>>, variants: Option<seq<Variant>>): seq<string>
  {
    var covers := OrEmpty(cover);
    var withImages := Filter(HasImages, OrEmpty(variants));
    if |withImages| > 0 then covers + FlatImages(withImages) else covers
  }

  /** Variants without images add nothing to the flattened list. */
  lemma {:induction false} FlatImagesSkipsEmpty(vs: seq<Variant>)
    ensures FlatImages(Filter(HasImages, vs)) == FlatImages(vs)
  {
    if vs != [] {
      var front, last := vs[..|vs| - 1], vs[|vs| - 1];
      SplitLast(vs);
      FlatImagesSkipsEmpty(front);
      FilterSnoc(HasImages, front, last);
      if HasImages(last) {
        var f := Filter(HasImages, front);
        assert (f + [last])[..|f|] == f;
      } else {
        assert ImagesOf(last) == [];
        assert Filter(HasImages, vs) == Filter(HasImages, front);
        assert FlatImages(vs) == FlatImages(front) + ImagesOf(last);
      }
    }
  }

  lemma {:induction false} FlatImagesLength(vs: seq<Variant>)
    ensures |FlatImages(vs)| == ImageCount(vs)
  {
    if vs != [] {
      FlatImagesLength(vs[..|vs| - 1]);
    }
  }

  /** With or without variant images, allImages is the covers followed by
      every variant image, so its length is the cover count plus the number
      of variant images. */
  lemma AllImagesShape(cover: Option<seq<string>>, variants: Option<seq<Variant>>)
    ensures AllImages(cover, variants) == OrEmpty(cover) + FlatImages(OrEmpty(variants))
    ensures |AllImages(cover, variants)| == |OrEmpty(cover)| + ImageCount(OrEmpty(variants))
  {
    var vs := OrEmpty(variants);
    FlatImagesSkipsEmpty(vs);
    FlatImagesLength(vs);
    if |Filter(HasImages, vs)| == 0 {
      assert Filter(HasImages, vs) == [];
      assert FlatImages(vs) == [];
    }
  }

  /** The position in allImages where the images of variant j begin. */
  function Start(cover: seq<string>, vs: seq<Variant>, j: nat): nat
    requires j <= |vs|
  {
    |cover| + ImageCount(vs[..j])
  }

  /** Among the first n variants, j is the last one with images that
      carries its colour. */
  predicate LastWithHexBefore(vs: seq<Variant>, n: int, j: int)
    requires n <= |vs|
  {
    0 <= j < n && HasImages(vs[j]) &&
    forall k :: j < k < n && HasImages(vs[k]) ==> vs[k].hex != vs[j].hex
  }

  /** j is the last variant with images that carries its colour. */
  predicate LastWithHex(vs: seq<Variant>, j: int)
  {
    LastWithHexBefore(vs, |vs|, j)
  }

  /** Flattening distributes over concatenation. */
  lemma {:induction false} FlatImagesConcat(a: seq<Variant>, b: seq<Variant>)
    ensures FlatImages(a + b) == FlatImages(a) + FlatImages(b)
  {
    if b == [] {
      assert a + b == a;
    } else {
      var front, last := b[..|b| - 1], b[|b| - 1];
      FlatImagesConcat(a, front);
      assert (a + b)[..|a + b| - 1] == a + front;
      assert (a + b)[|a + b| - 1] == last;
      assert FlatImages(a + b) == FlatImages(a + front) + ImagesOf(last);
      AppendAssoc(FlatImages(a), FlatImages(front), ImagesOf(last));
    }
  }

  lemma FlatImagesPrefix(vs: seq<Variant>, j: nat)
    requires j <= |vs|
    ensures FlatImages(vs) == FlatImages(vs[..j]) + FlatImages(vs[j..])
  {
    assert vs == vs[..j] + vs[j..];
    FlatImagesConcat(vs[..j], vs[j..]);
  }

  /** The images of variant j sit between those of the variants before it
      and those of the variants after it. */
  lemma FlatImagesAround(vs: seq<Variant>, j: nat)
    requires j < |vs|
    ensures FlatImages(vs) == FlatImages(vs[..j]) + ImagesOf(vs[j]) + FlatImages(vs[j + 1..])
  {
    var upTo := vs[..j + 1];
    assert upTo[..j] == vs[..j] && upTo[j] == vs[j];
    assert FlatImages(upTo) == FlatImages(vs[..j]) + ImagesOf(vs[j]);
    FlatImagesPrefix(vs, j + 1);
  }

  lemma SliceMiddle<T>(w: seq<T>, x: seq<T>, y: seq<T>, z: seq<T>)
    ensures (w + (x + y + z))[|w| + |x|..|w| + |x| + |y|] == y
  {
    var all := w + (x + y + z);
    forall i | 0 <= i < |y| ensures all[|w| + |x| + i] == y[i] {
      assert (x + y + z)[|x| + i] == y[i];
    }
  }

  /** The start of a variant with images points at that variant's images
      inside allImages. */
  lemma StartPointsAtVariant(cover: seq<string>, vs: seq<Variant>, j: nat)
    requires j < |vs| && HasImages(vs[j])
    ensures var all := AllImages(Some(cover), Some(vs)); var s := Start(cover, vs, j);
      s >= |cover| && s + |ImagesOf(vs[j])| <= |all| && all[s..s + |ImagesOf(vs[j])|] == ImagesOf(vs[j])
  {
    var imgs := ImagesOf(vs[j]);
    var pre := FlatImages(vs[..j]);
    AllImagesShape(Some(cover), Some(vs));
    FlatImagesAround(vs, j);
    FlatImagesLength(vs[..j]);
    var all := cover + (pre + imgs + FlatImages(vs[j + 1..]));
    assert AllImages(Some(cover), Some(vs)) == all;
    SliceMiddle(cover, pre, imgs, FlatImages(vs[j + 1..]));
  }

  /** Starts strictly increase along the variants that have images. */
  lemma {:induction false} StartsIncrease(cover: seq<string>, vs: seq<Variant>, j: nat, k: nat)
    requires j < k < |vs| && HasImages(vs[j])
    ensures Start(cover, vs, j) < Start(cover, vs, k)
  {
    if k == j + 1 {
      assert vs[..k][..j] == vs[..j];
    } else {
      StartsIncrease(cover, vs, j, k - 1);
      assert vs[..k][..k - 1] == vs[..k - 1];
    }
  }

  /** The colours of the variants that have images. */
  function Hexes(vs: seq<Variant>): set<string>
  {
    if vs == [] then {}
    else Hexes(vs[..|vs| - 1]) + (if HasImages(vs[|vs| - 1]) then {vs[|vs| - 1].hex} else {})
  }

  lemma {:induction false} HexesSpec(vs: seq<Variant>)
    ensures forall h :: h in Hexes(vs) <==> exists j :: 0 <= j < |vs| && HasImages(vs[j]) && vs[j].hex == h
  {
    if vs != [] {
      var front := vs[..|vs| - 1];
      HexesSpec(front);
      forall h | h in Hexes(vs) ensures exists j :: 0 <= j < |vs| && HasImages(vs[j]) && vs[j].hex == h {
        if h in Hexes(front) {
          var j :| 0 <= j < |front| && HasImages(front[j]) && front[j].hex == h;
          assert vs[j] == front[j];
        }
      }
      forall h | exists j :: 0 <= j < |vs| && HasImages(vs[j]) && vs[j].hex == h ensures h in Hexes(vs) {
        var j :| 0 <= j < |vs| && HasImages(vs[j]) && vs[j].hex == h;
        if j < |front| {
          assert front[j] == vs[j];
        }
      }
    }
  }

  /** One more variant: its images follow the previous ones and its colour
      joins the set when it has images. */
  lemma PrefixStep(cover: seq<string>, vs: seq<Variant>, i: nat)
    requires i < |vs|
    ensures Start(cover, vs, i + 1) == Start(cover, vs, i) + |ImagesOf(vs[i])|
    ensures Hexes(vs[..i + 1]) == Hexes(vs[..i]) + (if HasImages(vs[i]) then {vs[i].hex} else {})
  {
    assert vs[..i + 1][..i] == vs[..i];
  }

  /** The last bearer of a colour among the first i + 1 variants is either
      variant i or the last bearer among the first i, and then variant i
      carries another colour or has no images. */
  lemma LastWithHexStep(vs: seq<Variant>, i: nat, j: int)
    requires i < |vs| && LastWithHexBefore(vs, i + 1, j) && j != i
    ensures LastWithHexBefore(vs, i, j)
    ensures HasImages(vs[i]) ==> vs[i].hex != vs[j].hex
  {
  }

  /** When no variant has images there is no colour to record. */
  lemma NoVariantImages(vs: seq<Variant>)
    requires |Filter(HasImages, vs)| == 0
    ensures Hexes(vs) == {}
    ensures forall j :: !LastWithHex(vs, j)
  {
    assert forall j :: 0 <= j < |vs| ==> (vs[j] in Filter(HasImages, vs) <==> HasImages(vs[j]));
    HexesSpec(vs);
  }

  /** m maps the colour of each last bearer among the first n variants to
      that bearer's start. */
  ghost predicate Records(cover: seq<string>, vs: seq<Variant>, n: nat, m: map<string, nat>)
    requires n <= |vs|
  {
    forall j :: LastWithHexBefore(vs, n, j) ==> vs[j].hex in m && m[vs[j].hex] == Start(cover, vs, j)
  }

  /** One step of the loop keeps Records: variant i, when it has images,
      overwrites its colour with its own start. */
  lemma RecordsStep(cover: seq<string>, vs: seq<Variant>, i: nat, m: map<string, nat>)
    requires i < |vs| && Records(cover, vs, i, m)
    ensures Records(cover, vs, i + 1, if HasImages(vs[i]) then m[vs[i].hex := Start(cover, vs, i)] else m)
  {
    var m' := if HasImages(vs[i]) then m[vs[i].hex := Start(cover, vs, i)] else m;
    forall j | LastWithHexBefore(vs, i + 1, j) ensures vs[j].hex in m' && m'[vs[j].hex] == Start(cover, vs, j) {
      if j != i {
        LastWithHexStep(vs, i, j);
      }
    }
  }

  /** The loop body keeps the three facts the loop carries. */
  lemma LoopStep(cover: seq<string>, vs: seq<Variant>, i: nat, current: nat, m: map<string, nat>)
    requires i < |vs| && current == Start(cover, vs, i) && m.Keys == Hexes(vs[..i]) && Records(cover, vs, i, m)
    ensures var m' := if HasImages(vs[i]) then m[vs[i].hex := current] else m;
      && current + (if HasImages(vs[i]) then |ImagesOf(vs[i])| else 0) == Start(cover, vs, i + 1)
      && m'.Keys == Hexes(vs[..i + 1])
      && Records(cover, vs, i + 1, m')
  {
    PrefixStep(cover, vs, i);
    RecordsStep(cover, vs, i, m);
  }

  /** variantImageIndices, the loop of the memo: for each variant with
      images, in order, record its colour at the running index and move the
      index past its images. A colour used twice keeps the later start. */
  method VariantImageIndices(cover: Option<seq<string>>, variants: Option<seq<Variant>>) returns (indices: map<string, nat>)
    ensures indices.Keys == Hexes(OrEmpty(variants))
    ensures forall j :: LastWithHex(OrEmpty(variants), j) ==>
      OrEmpty(variants)[j].hex in indices &&
      indices[OrEmpty(variants)[j].hex] == Start(OrEmpty(cover), OrEmpty(variants), j)
  {
    var covers := OrEmpty(cover);
    var vs := OrEmpty(variants);
    indices := map[];
    var hasVariantImages := |Filter(HasImages, vs)| > 0;
    if !hasVariantImages {
      NoVariantImages(vs);
      return;
    }
    var currentIndex := |covers|;
    var i := 0;
    while i < |vs|
      invariant 0 <= i <= |vs|
      invariant currentIndex == Start(covers, vs, i)
      invariant indices.Keys == Hexes(vs[..i])
      invariant Records(covers, vs, i, indices)
    {
      LoopStep(covers, vs, i, currentIndex, indices);
      if HasImages(vs[i]) {
        indices := indices[vs[i].hex := currentIndex];
        currentIndex := currentIndex + |ImagesOf(vs[i])|;
      }
      i := i + 1;
    }
    assert vs[..i] == vs;
    assert Records(covers, vs, |vs|, indices);
  }

  /** prev + 1 modulo n, when there are images. */
  function Next(i: nat, n: nat): nat
  {
    if n > 0 then (i + 1) % n else i
  }

  /** prev - 1 + n modulo n, when there are images. The dividend is never
      negative, so JavaScript's % and Dafny's agree. */
  function Prev(i: nat, n: nat): nat
  {
    if n > 0 then (i - 1 + n) % n else i
  }

  /** Both steps keep the index in [0, n); with no images they do nothing. */
  lemma StepsStayInRange(i: nat, n: nat)
    ensures n > 0 ==> Next(i, n) < n && Prev(i, n) < n
    ensures n == 0 ==> Next(i, n) == i && Prev(i, n) == i
  {
  }

  lemma ModBelow(a: int, n: int)
    requires 0 <= a < n
    ensures a % n == a
  {
  }

  lemma ModWrap(a: int, n: int)
    requires 0 < n <= a < 2 * n
    ensures a % n == a - n
  {
  }

  /** On an index in range, prev undoes next and next undoes prev. */
  lemma NextPrevInverse(i: nat, n: nat)
    requires i < n
    ensures Prev(Next(i, n), n) == i
    ensures Next(Prev(i, n), n) == i
  {
    if i + 1 < n {
      ModBelow(i + 1, n);
      ModWrap(i + n, n);
    } else {
      ModWrap(i + 1, n);
      ModBelow(n - 1, n);
    }
    if i == 0 {
      ModBelow(n - 1, n);
      ModWrap(n, n);
    } else {
      ModWrap(i - 1 + n, n);
      ModBelow(i, n);
    }
  }

  /** The gallery state: the image list and currentImageIndex. */
  class Gallery {
    const allImages: seq<string>
    var currentImageIndex: nat

    constructor (cover: Option<seq<string>>, variants: Option<seq<Variant>>)
      ensures allImages == AllImages(cover, variants)
      ensures currentImageIndex == 0
    {
      allImages := AllImages(cover, variants);
      currentImageIndex := 0;
    }

    method NextImage()
      modifies this
      ensures currentImageIndex == Next(old(currentImageIndex), |allImages|)
    {
      if |allImages| > 0 {
        currentImageIndex := (currentImageIndex + 1) % |allImages|;
      }
    }

    method PrevImage()
      modifies this
      ensures currentImageIndex == Prev(old(currentImageIndex), |allImages|)
    {
      if |allImages| > 0 {
        currentImageIndex := (currentImageIndex - 1 + |allImages|) % |allImages|;
      }
    }

    /** A thumbnail click. */
    method SelectImage(idx: nat)
      modifies this
      ensures currentImageIndex == idx
    {
      currentImageIndex := idx;
    }
  }
}

/** The search bar of the home page and of the catalog. On the home page a
    search goes to the catalog with the query in `q`; in the catalog it
    rewrites the current URL's parameters, keeping the other filters. */
module SearchBar {
  import opened Common

  /** One name=value entry of a query string, in order. */
  type Pair = (string, string)

  /** The entries under name k. */
  function Named(ps: seq<Pair>, k: string): (r: seq<Pair>)
    ensures forall p :: p in r <==> p in ps && p.0 == k
  {
    if ps == [] then [] else (if ps[0].0 == k then [ps[0]] else []) + Named(ps[1..], k)
  }

  /** The entries under any other name. */
  function Others(ps: seq<Pair>, k: string): (r: seq<Pair>)
    ensures forall p :: p in r <==> p in ps && p.0 != k
  {
    if ps == [] then [] else (if ps[0].0 != k then [ps[0]] else []) + Others(ps[1..], k)
  }

  /** URLSearchParams.getAll(k). */
  function Values(ps: seq<Pair>, k: string): seq<string>
  {
    MapSeq((p: Pair) => p.1, Named(ps, k))
  }

  /** URLSearchParams.set(k, v): the first entry under k takes the value v
      and the later ones go; with no entry under k, (k, v) goes at the
      end. */
  function SetPairs(ps: seq<Pair>, k: string, v: string): seq<Pair>
  {
    if ps == [] then [(k, v)]
    else if ps[0].0 == k then [(k, v)] + Others(ps[1..], k)
    else [ps[0]] + SetPairs(ps[1..], k, v)
  }

  /** URLSearchParams.delete(k). */
  function DeletePairs(ps: seq<Pair>, k: string): seq<Pair>
  {
    Others(ps, k)
  }

  lemma {:induction false} NamedConcat(a: seq<Pair>, b: seq<Pair>, k: string)
    ensures Named(a + b, k) == Named(a, k) + Named(b, k)
  {
    if a == [] {
      assert a + b == b;
    } else {
      assert (a + b)[1..] == a[1..] + b;
      NamedConcat(a[1..], b, k);
    }
  }

  lemma {:induction false} OthersConcat(a: seq<Pair>, b: seq<Pair>, k: string)
    ensures Others(a + b, k) == Others(a, k) + Others(b, k)
  {
    if a == [] {
      assert a + b == b;
    } else {
      assert (a + b)[1..] == a[1..] + b;
      OthersConcat(a[1..], b, k);
    }
  }

  lemma {:induction false} NamedOthers(ps: seq<Pair>, k: string)
    ensures Named(Others(ps, k), k) == []
  {
    if ps != [] {
      var head := if ps[0].0 != k then [ps[0]] else [];
      NamedOthers(ps[1..], k);
      NamedConcat(head, Others(ps[1..], k), k);
      assert Named(head, k) == [];
    }
  }

  /** Other names see the same entries once k's are removed. */
  lemma {:induction false} NamedOthersOther(ps: seq<Pair>, k: string, j: string)
    requires j != k
    ensures Named(Others(ps, k), j) == Named(ps, j)
  {
    if ps != [] {
      var head := if ps[0].0 != k then [ps[0]] else [];
      NamedOthersOther(ps[1..], k, j);
      NamedConcat(head, Others(ps[1..], k), j);
      assert Named(head, j) == (if ps[0].0 == j then [ps[0]] else []);
    }
  }

  lemma {:induction false} OthersOthers(ps: seq<Pair>, k: string)
    ensures Others(Others(ps, k), k) == Others(ps, k)
  {
    if ps != [] {
      var head := if ps[0].0 != k then [ps[0]] else [];
      OthersOthers(ps[1..], k);
      OthersConcat(head, Others(ps[1..], k), k);
      assert Others(head, k) == head;
    }
  }

  /** After set, k has exactly the one entry (k, v). */
  lemma {:induction false} SetNamed(ps: seq<Pair>, k: string, v: string)
    ensures Named(SetPairs(ps, k, v), k) == [(k, v)]
    ensures Values(SetPairs(ps, k, v), k) == [v]
  {
    if ps != [] {
      if ps[0].0 == k {
        NamedOthers(ps[1..], k);
        assert Named(SetPairs(ps, k, v), k) == [(k, v)] + Named(Others(ps[1..], k), k);
      } else {
        SetNamed(ps[1..], k, v);
        assert Named(SetPairs(ps, k, v), k) == Named(SetPairs(ps[1..], k, v), k);
      }
    }
  }

  /** Set changes nothing under another name, in content or order. */
  lemma {:induction false} SetOthers(ps: seq<Pair>, k: string, v: string)
    ensures Others(SetPairs(ps, k, v), k) == Others(ps, k)
  {
    if ps != [] {
      if ps[0].0 == k {
        OthersOthers(ps[1..], k);
        assert Others(SetPairs(ps, k, v), k) == Others(Others(ps[1..], k), k);
      } else {
        SetOthers(ps[1..], k, v);
        assert Others(SetPairs(ps, k, v), k) == [ps[0]] + Others(SetPairs(ps[1..], k, v), k);
      }
    }
  }

  /** Set keeps the entries before the first one under k where they are. */
  lemma {:induction false} SetKeepsPrefix(ps: seq<Pair>, k: string, v: string, i: nat)
    requires i <= |ps| && forall m :: 0 <= m < i ==> ps[m].0 != k
    ensures |SetPairs(ps, k, v)| > i
    ensures SetPairs(ps, k, v)[..i] == ps[..i]
    ensures i < |ps| && ps[i].0 == k ==> SetPairs(ps, k, v)[i] == (k, v)
  {
    if i > 0 {
      SetKeepsPrefix(ps[1..], k, v, i - 1);
      assert SetPairs(ps, k, v) == [ps[0]] + SetPairs(ps[1..], k, v);
    }
  }

  /** Delete leaves no entry under k and every other entry in order. */
  lemma DeleteSpec(ps: seq<Pair>, k: string)
    ensures Values(DeletePairs(ps, k), k) == []
    ensures Others(DeletePairs(ps, k), k) == Others(ps, k)
  {
    NamedOthers(ps, k);
    OthersOthers(ps, k);
  }

  /** The entries under j when a different name k is set or deleted. */
  lemma NamedUnderOther(ps: seq<Pair>, k: string, v: string, j: string)
    requires j != k
    ensures Named(SetPairs(ps, k, v), j) == Named(ps, j)
    ensures Named(DeletePairs(ps, k), j) == Named(ps, j)
  {
    SetOthers(ps, k, v);
    NamedOthersOther(SetPairs(ps, k, v), k, j);
    NamedOthersOther(ps, k, j);
  }

  /** A URL parameter object. */
  class SearchParams {
    var pairs: seq<Pair>

    /** new URLSearchParams(searchParams.toString()): a copy. */
    constructor (pairs: seq<Pair>)
      ensures this.pairs == pairs
    {
      this.pairs := pairs;
    }

    method Set(k: string, v: string)
      modifies this
      ensures pairs == SetPairs(old(pairs), k, v)
    {
      pairs := SetPairs(pairs, k, v);
    }

    method Delete(k: string)
      modifies this
      ensures pairs == DeletePairs(old(pairs), k)
    {
      pairs := DeletePairs(pairs, k);
    }
  }

  datatype Mode = Home | Catalog

  /** The home page's target: the query, trimmed and encoded, in q, or the
      bare path for a blank query. `encode` stands for
      encodeURIComponent. */
  function HomeTarget(redirectTo: string, query: string, encode: string -> string): string
  {
    var t := Trim(query);
    if t != "" then redirectTo + "?q=" + encode(t) else redirectTo
  }

  /** The catalog's new parameters: q set to the trimmed query, or removed
      for a blank one, then page reset to "1". */
  function CatalogPairs(ps: seq<Pair>, query: string): seq<Pair>
  {
    var t := Trim(query);
    SetPairs(if t != "" then SetPairs(ps, "q", t) else DeletePairs(ps, "q"), "page", "1")
  }

  /** The home target always starts with the path; it carries the query
      exactly when the trimmed query is not blank, and surrounding
      whitespace makes no difference. */
  lemma HomeTargetSpec(redirectTo: string, query: string, encode: string -> string)
    ensures var r := HomeTarget(redirectTo, query, encode);
      && |r| >= |redirectTo| && r[..|redirectTo|] == redirectTo
      && (r == redirectTo <==> Trim(query) == "")
      && (Trim(query) != "" ==> r[|redirectTo|..] == "?q=" + encode(Trim(query)))
      && r == HomeTarget(redirectTo, Trim(query), encode)
  {
    TrimIdempotent(query);
    var r := HomeTarget(redirectTo, query, encode);
    if Trim(query) != "" {
      assert r[..|redirectTo|] == redirectTo;
      assert r[|redirectTo|..] == "?q=" + encode(Trim(query));
    }
  }

  /** In the catalog: q holds the trimmed query or nothing, page holds "1",
      and every other parameter keeps its entries. */
  lemma CatalogSpec(ps: seq<Pair>, query: string)
    ensures var r := CatalogPairs(ps, query);
      && Values(r, "q") == (if Trim(query) != "" then [Trim(query)] else [])
      && Values(r, "page") == ["1"]
      && forall j :: j != "q" && j != "page" ==> Named(r, j) == Named(ps, j)
  {
    var t := Trim(query);
    var a := if t != "" then SetPairs(ps, "q", t) else DeletePairs(ps, "q");
    var r := SetPairs(a, "page", "1");
    if t != "" {
      SetNamed(ps, "q", t);
    } else {
      DeleteSpec(ps, "q");
    }
    NamedUnderOther(a, "page", "1", "q");
    SetNamed(a, "page", "1");
    forall j | j != "q" && j != "page"
      ensures Named(r, j) == Named(ps, j)
    {
      NamedUnderOther(a, "page", "1", j);
      NamedUnderOther(ps, "q", t, j);
    }
  }

  /** The search form: its mode and path are props, the query is state.
      The props default to the home mode, the catalog path and an empty
      query. */
  class SearchBox {
    const mode: Mode
    const redirectTo: string
    var query: string

    constructor (mode: Mode := Home, redirectTo: string := "/darccuir/catalog", defaultValue: string := "")
      ensures this.mode == mode && this.redirectTo == redirectTo && query == defaultValue
    {
      this.mode := mode;
      this.redirectTo := redirectTo;
      query := defaultValue;
    }

    /** The input's onChange. */
    method Change(value: string)
      modifies this
      ensures query == value
    {
      query := value;
    }

    /** handleSubmit: the URL router.push gets. `current` is the page's
        parameters and `serialize` stands for URLSearchParams.toString. */
    method HandleSubmit(current: seq<Pair>, encode: string -> string, serialize: seq<Pair> -> string)
      returns (target: string)
      ensures mode == Home ==> target == HomeTarget(redirectTo, query, encode)
      ensures mode == Catalog ==> target == "?" + serialize(CatalogPairs(current, query))
    {
      var trimmedQuery := Trim(query);
      if mode == Home {
        if trimmedQuery != "" {
          target := redirectTo + "?q=" + encode(trimmedQuery);
        } else {
          target := redirectTo;
        }
      } else {
        var params := new SearchParams(current);
        if trimmedQuery != "" {
          params.Set("q", trimmedQuery);
        } else {
          params.Delete("q");
        }
        params.Set("page", "1");
        target := "?" + serialize(params.pairs);
      }
    }
  }
}

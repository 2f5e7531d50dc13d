/** getSubrubrosRecursive: the subrubro (sub-category) tree of a rubro,
    built from a table of records that point to their parent, each level
    ordered by the records' `order`. */
module SubrubrosTree {
  import opened Common

  /** A row of the subrubro table; parentId None is a root (null). */
  datatype Subrubro = Subrubro(
    id: string, name: string, slug: string, rubro: string,
    parentId: Option<string>, order: int, active: bool)

  /** A fetched record with the `children` the loop assigns to it. */
  datatype Node = Node(sub: Subrubro, children: seq<Node>)

  /** The findMany filter of one level. A missing rubro argument (None)
      leaves the rubro unfiltered, as an undefined field does in a Prisma
      `where`. */
  predicate InLevel(parentId: Option<string>, rubro: Option<string>, s: Subrubro)
  {
    s.parentId == parentId && (rubro.None? || s.rubro == rubro.value) && s.active
  }

  predicate SortedByOrder(s: seq<Subrubro>)
  {
    forall i, j :: 0 <= i < j < |s| ==> s[i].order <= s[j].order
  }

  /** Inserts x before the first record with a larger order. */
  function Insert(x: Subrubro, s: seq<Subrubro>): seq<Subrubro>
  {
    if s == [] then [x] else if x.order <= s[0].order then [x] + s else [s[0]] + Insert(x, s[1..])
  }

  /** `orderBy: { order: 'asc' }`, as an insertion sort. */
  function SortByOrder(s: seq<Subrubro>): seq<Subrubro>
  {
    if s == [] then [] else Insert(s[0], SortByOrder(s[1..]))
  }

  lemma {:induction false} InsertCount(x: Subrubro, s: seq<Subrubro>)
    ensures multiset(Insert(x, s)) == multiset(s) + multiset{x}
  {
    if s != [] && x.order > s[0].order {
      InsertCount(x, s[1..]);
      assert s == [s[0]] + s[1..];
    }
  }

  lemma {:induction false} InsertSorted(x: Subrubro, s: seq<Subrubro>)
    requires SortedByOrder(s)
    ensures SortedByOrder(Insert(x, s))
  {
    if s != [] && x.order > s[0].order {
      InsertSorted(x, s[1..]);
      InsertCount(x, s[1..]);
      var r := Insert(x, s[1..]);
      forall k | 0 <= k < |r| ensures s[0].order <= r[k].order {
        assert r[k] in multiset(r);
        if r[k] != x {
          assert r[k] in s[1..];
        }
      }
    }
  }

  /** The sort orders the records without losing or adding any. */
  lemma {:induction false} SortByOrderSpec(s: seq<Subrubro>)
    ensures SortedByOrder(SortByOrder(s))
    ensures multiset(SortByOrder(s)) == multiset(s)
  {
    if s != [] {
      SortByOrderSpec(s[1..]);
      InsertSorted(s[0], SortByOrder(s[1..]));
      InsertCount(s[0], SortByOrder(s[1..]));
      assert s == [s[0]] + s[1..];
    }
  }

  /** One level: the active records of the rubro under parentId, by order. */
  function Level(table: seq<Subrubro>, parentId: Option<string>, rubro: Option<string>): seq<Subrubro>
  {
    SortByOrder(Filter((s: Subrubro) => InLevel(parentId, rubro, s), table))
  }

  /** A level is sorted by order and holds exactly the matching records of
      the table, each as often as in the table. */
  lemma LevelSpec(table: seq<Subrubro>, parentId: Option<string>, rubro: Option<string>)
    ensures var l := Level(table, parentId, rubro);
      && SortedByOrder(l)
      && multiset(l) == multiset(Filter((s: Subrubro) => InLevel(parentId, rubro, s), table))
      && forall s :: s in l <==> s in table && InLevel(parentId, rubro, s)
  {
    var f := Filter((s: Subrubro) => InLevel(parentId, rubro, s), table);
    SortByOrderSpec(f);
    forall s ensures s in Level(table, parentId, rubro) <==> s in f {
      assert s in multiset(Level(table, parentId, rubro)) <==> s in multiset(f);
    }
  }

  /** The tree under parentId, at most `fuel` levels deep. */
  function Tree(table: seq<Subrubro>, parentId: Option<string>, rubro: Option<string>, fuel: nat): seq<Node>
    decreases fuel, 1
  {
    if fuel == 0 then [] else Build(table, Level(table, parentId, rubro), rubro, fuel - 1)
  }

  /** Each record of a level with its subtree as children. */
  function Build(table: seq<Subrubro>, level: seq<Subrubro>, rubro: Option<string>, fuel: nat): (r: seq<Node>)
    ensures |r| == |level|
    decreases fuel + 1, 0, |level|
  {
    if level == [] then []
    else
      var last := level[|level| - 1];
      Build(table, level[..|level| - 1], rubro, fuel) + [Node(last, Tree(table, Some(last.id), rubro, fuel))]
  }

  lemma {:induction false} BuildSpec(table: seq<Subrubro>, level: seq<Subrubro>, rubro: Option<string>, fuel: nat)
    ensures forall i :: 0 <= i < |level| ==>
      Build(table, level, rubro, fuel)[i] == Node(level[i], Tree(table, Some(level[i].id), rubro, fuel))
    decreases |level|
  {
    if level != [] {
      var front := level[..|level| - 1];
      BuildSpec(table, front, rubro, fuel);
      forall i | 0 <= i < |level| - 1 ensures level[i] == front[i] {
      }
    }
  }

  /** Node i of the tree under parentId is record i of that level, and its
      children are the tree under the record's id, built the same way. */
  lemma TreeNodes(table: seq<Subrubro>, parentId: Option<string>, rubro: Option<string>, fuel: nat)
    requires fuel > 0
    ensures var t := Tree(table, parentId, rubro, fuel); var l := Level(table, parentId, rubro);
      |t| == |l| && forall i :: 0 <= i < |t| ==> t[i].sub == l[i] && t[i].children == Tree(table, Some(l[i].id), rubro, fuel - 1)
  {
    BuildSpec(table, Level(table, parentId, rubro), rubro, fuel - 1);
  }

  /** A forest every level of which holds table records that pass that
      level's filter, by non-decreasing order. */
  predicate WellFormed(table: seq<Subrubro>, parentId: Option<string>, rubro: Option<string>, nodes: seq<Node>)
    decreases nodes
  {
    && (forall i, j :: 0 <= i < j < |nodes| ==> nodes[i].sub.order <= nodes[j].sub.order)
    && forall i :: 0 <= i < |nodes| ==>
         && nodes[i].sub in table && InLevel(parentId, rubro, nodes[i].sub)
         && WellFormed(table, Some(nodes[i].sub.id), rubro, nodes[i].children)
  }

  /** Every level of the tree holds active records of the rubro whose
      parentId is the id of the node above (or the requested parentId at
      the top), siblings by non-decreasing order. */
  lemma {:induction false} TreeWellFormed(table: seq<Subrubro>, parentId: Option<string>, rubro: Option<string>, fuel: nat)
    ensures WellFormed(table, parentId, rubro, Tree(table, parentId, rubro, fuel))
    decreases fuel
  {
    if fuel > 0 {
      var t := Tree(table, parentId, rubro, fuel);
      var l := Level(table, parentId, rubro);
      TreeNodes(table, parentId, rubro, fuel);
      LevelSpec(table, parentId, rubro);
      forall i | 0 <= i < |t| ensures WellFormed(table, Some(t[i].sub.id), rubro, t[i].children) {
        TreeWellFormed(table, Some(l[i].id), rubro, fuel - 1);
      }
      forall i | 0 <= i < |t| ensures t[i].sub in table && InLevel(parentId, rubro, t[i].sub) {
        assert t[i].sub == l[i] && l[i] in l;
      }
    }
  }

  /** s is the record of some node of the forest. */
  predicate Occurs(nodes: seq<Node>, s: Subrubro)
    decreases nodes
  {
    exists i :: 0 <= i < |nodes| && (nodes[i].sub == s || Occurs(nodes[i].children, s))
  }

  predicate UniqueIds(table: seq<Subrubro>)
  {
    forall i, j :: 0 <= i < j < |table| ==> table[i].id != table[j].id
  }

  /** In a well-formed forest every record is an active table record, and
      one below the top has its parent among the records of the forest. */
  lemma {:induction false} OccursActive(table: seq<Subrubro>, parentId: Option<string>, rubro: Option<string>, nodes: seq<Node>, s: Subrubro)
    requires WellFormed(table, parentId, rubro, nodes) && Occurs(nodes, s)
    ensures s in table && s.active
    ensures s.parentId != parentId ==> exists q :: Occurs(nodes, q) && q in table && q.active && s.parentId == Some(q.id)
    decreases nodes
  {
    var i :| 0 <= i < |nodes| && (nodes[i].sub == s || Occurs(nodes[i].children, s));
    if nodes[i].sub != s {
      var q := nodes[i].sub;
      assert Occurs(nodes, q);
      OccursActive(table, Some(q.id), rubro, nodes[i].children, s);
      if s.parentId != Some(q.id) {
        var q' :| Occurs(nodes[i].children, q') && q' in table && q'.active && s.parentId == Some(q'.id);
        assert Occurs(nodes, q');
      }
    }
  }

  /** A line of descent in the table, from c[0] down to its last record:
      each record's parentId is the id of the one before. */
  predicate Descent(table: seq<Subrubro>, c: seq<Subrubro>)
  {
    && |c| >= 1
    && (forall k :: 0 <= k < |c| ==> c[k] in table)
    && forall k :: 0 < k < |c| ==> c[k].parentId == Some(c[k - 1].id)
  }

  /** With unique ids, two table records with the same id are one record. */
  lemma SameId(table: seq<Subrubro>, a: Subrubro, b: Subrubro)
    requires UniqueIds(table) && a in table && b in table && a.id == b.id
    ensures a == b
  {
    var i :| 0 <= i < |table| && table[i] == a;
    var j :| 0 <= j < |table| && table[j] == b;
  }

  /** The descendants of an inactive record never appear, at any depth and
      even when they are active themselves: the recursion only descends
      from records it returned. The forest must not start inside the line
      of descent, which the default call (parentId null) never does. */
  lemma {:induction false} InactiveHidesDescendants(table: seq<Subrubro>, parentId: Option<string>, rubro: Option<string>,
                                                    nodes: seq<Node>, c: seq<Subrubro>)
    requires WellFormed(table, parentId, rubro, nodes) && UniqueIds(table)
    requires Descent(table, c) && !c[0].active
    requires forall k :: 0 <= k < |c| - 1 ==> parentId != Some(c[k].id)
    ensures !Occurs(nodes, c[|c| - 1])
    decreases |c|
  {
    if Occurs(nodes, c[|c| - 1]) {
      OccursActive(table, parentId, rubro, nodes, c[|c| - 1]);
      if |c| > 1 {
        var up := c[..|c| - 1];
        assert Descent(table, up);
        assert c[|c| - 1].parentId == Some(up[|up| - 1].id) && parentId != Some(c[|c| - 2].id);
        var q :| Occurs(nodes, q) && q in table && q.active && c[|c| - 1].parentId == Some(q.id);
        SameId(table, q, up[|up| - 1]);
        InactiveHidesDescendants(table, parentId, rubro, nodes, up);
      }
    }
  }

  /** The children of an inactive record never appear, even active ones. */
  lemma InactiveHidesChildren(table: seq<Subrubro>, parentId: Option<string>, rubro: Option<string>, fuel: nat, q: Subrubro, s: Subrubro)
    requires UniqueIds(table) && q in table && !q.active && parentId != Some(q.id)
    requires Occurs(Tree(table, parentId, rubro, fuel), s)
    ensures s.parentId != Some(q.id)
  {
    TreeWellFormed(table, parentId, rubro, fuel);
    OccursActive(table, parentId, rubro, Tree(table, parentId, rubro, fuel), s);
  }

  /** In the default call's tree no record below an inactive one appears. */
  lemma DefaultTreeHidesInactive(table: seq<Subrubro>, rubro: Option<string>, c: seq<Subrubro>)
    requires UniqueIds(table) && Descent(table, c) && !c[0].active
    ensures !Occurs(Tree(table, None, rubro, |table|), c[|c| - 1])
  {
    TreeWellFormed(table, None, rubro, |table|);
    InactiveHidesDescendants(table, None, rubro, Tree(table, None, rubro, |table|), c);
  }

  /** One call of getSubrubrosRecursive: fetch the level, then set each
      record's children to the recursive result for its id. */
  method GetSubrubrosRecursive(table: seq<Subrubro>, parentId: Option<string>, rubro: Option<string>, fuel: nat) returns (nodes: seq<Node>)
    ensures nodes == Tree(table, parentId, rubro, fuel)
    decreases fuel
  {
    if fuel == 0 {
      return [];
    }
    var subrubros := Level(table, parentId, rubro);
    nodes := MapSeq((s: Subrubro) => Node(s, []), subrubros);
    for i := 0 to |nodes|
      invariant |nodes| == |subrubros|
      invariant forall k :: 0 <= k < |nodes| ==> nodes[k].sub == subrubros[k]
      invariant forall k :: 0 <= k < i ==> nodes[k].children == Tree(table, Some(subrubros[k].id), rubro, fuel - 1)
    {
      var children := GetSubrubrosRecursive(table, Some(nodes[i].sub.id), rubro, fuel - 1);
      nodes := nodes[i := Node(nodes[i].sub, children)];
    }
    TreeNodes(table, parentId, rubro, fuel);
  }

  /** The default call (parentId null), with as many levels as the table
      has records. */
  method GetSubrubros(table: seq<Subrubro>, rubro: Option<string>) returns (nodes: seq<Node>)
    ensures nodes == Tree(table, None, rubro, |table|)
    ensures WellFormed(table, None, rubro, nodes)
    ensures forall i :: 0 <= i < |nodes| ==> nodes[i].sub.parentId.None?
  {
    nodes := GetSubrubrosRecursive(table, None, rubro, |table|);
    TreeWellFormed(table, None, rubro, |table|);
  }
}

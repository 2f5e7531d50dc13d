/** The subrubro admin screen: the slug generated from a name, the list kept
    in the component's state (append on create, filter on delete), the
    per-rubro groups and the root/children selection of the tree view. */
module SubrubrosManager {
  import opened Common
  import opened SubrubrosTree

  /** `[a-z0-9]`, the characters a slug keeps. */
  predicate IsSlugChar(c: char)
  {
    ('a' <= c <= 'z') || ('0' <= c <= '9')
  }

  /** Drops the leading characters outside [a-z0-9]. */
  function SkipRun(s: string): (r: string)
    ensures |r| <= |s|
    ensures r == [] || IsSlugChar(r[0])
  {
    if s != [] && !IsSlugChar(s[0]) then SkipRun(s[1..]) else s
  }

  /** `.replace(/[^a-z0-9]+/g, '-')`: each maximal run of other characters
      becomes one '-'. */
  function Collapse(s: string): string
    decreases |s|
  {
    if s == [] then []
    else if IsSlugChar(s[0]) then [s[0]] + Collapse(s[1..])
    else "-" + Collapse(SkipRun(s[1..]))
  }

  function DropLeadingDashes(s: string): string
  {
    if s != [] && s[0] == '-' then DropLeadingDashes(s[1..]) else s
  }

  function DropTrailingDashes(s: string): string
  {
    if s != [] && s[|s| - 1] == '-' then DropTrailingDashes(s[..|s| - 1]) else s
  }

  /** `.replace(/^-+|-+$/g, '')`. */
  function TrimDashes(s: string): string
  {
    DropTrailingDashes(DropLeadingDashes(s))
  }

  /** The slug rule of handleNameChange. `fold` stands for
      `toLowerCase().normalize("NFD")` followed by removing the combining
      marks U+0300 to U+036F. */
  function Slug(fold: string -> string, name: string): string
  {
    TrimDashes(Collapse(fold(name)))
  }

  /** Made of [a-z0-9-], with no '-' at either end and no two '-' in a row:
      the shape of a slug. */
  predicate IsSlug(s: string)
  {
    && (forall i :: 0 <= i < |s| ==> IsSlugChar(s[i]) || s[i] == '-')
    && (s == [] || (s[0] != '-' && s[|s| - 1] != '-'))
    && (forall i :: 0 <= i < |s| - 1 ==> !(s[i] == '-' && s[i + 1] == '-'))
  }

  /** No two '-' in a row in s. */
  predicate NoDoubleDash(s: string)
  {
    forall i :: 0 <= i < |s| - 1 ==> !(s[i] == '-' && s[i + 1] == '-')
  }

  /** Collapse gives a string of [a-z0-9-] with no two '-' in a row. */
  lemma {:induction false} CollapseShape(s: string)
    ensures var c := Collapse(s);
      && (forall i :: 0 <= i < |c| ==> IsSlugChar(c[i]) || c[i] == '-')
      && NoDoubleDash(c)
    decreases |s|
  {
    if s != [] {
      if IsSlugChar(s[0]) {
        CollapseShape(s[1..]);
        var c := Collapse(s);
        assert c == [s[0]] + Collapse(s[1..]);
      } else {
        var rest := SkipRun(s[1..]);
        CollapseShape(rest);
        CollapseStart(rest);
        var c := Collapse(s);
        assert c == "-" + Collapse(rest);
      }
    }
  }

  /** Collapsing a string that starts with a slug character starts with it. */
  lemma CollapseStart(s: string)
    requires s == [] || IsSlugChar(s[0])
    ensures s == [] ==> Collapse(s) == []
    ensures s != [] ==> Collapse(s) != [] && Collapse(s)[0] == s[0]
  {
  }

  /** DropLeadingDashes gives a suffix of s that does not start with '-',
      and what it drops is all '-'. */
  lemma DropLeadingSpec(s: string)
    ensures var r := DropLeadingDashes(s);
      |r| <= |s| && r == s[|s| - |r|..] && (r == [] || r[0] != '-')
      && forall i :: 0 <= i < |s| - |r| ==> s[i] == '-'
  {
    DropLeadingSuffix(s);
    DropLeadingDropped(s);
  }

  lemma {:induction false} DropLeadingSuffix(s: string)
    ensures var r := DropLeadingDashes(s);
      |r| <= |s| && r == s[|s| - |r|..] && (r == [] || r[0] != '-')
  {
    if s != [] && s[0] == '-' {
      DropLeadingSuffix(s[1..]);
      assert s[1..][|s| - 1 - |DropLeadingDashes(s[1..])|..] == s[|s| - |DropLeadingDashes(s[1..])|..];
    }
  }

  lemma {:induction false} DropLeadingDropped(s: string)
    ensures forall i :: 0 <= i < |s| - |DropLeadingDashes(s)| ==> s[i] == '-'
  {
    if s != [] && s[0] == '-' {
      var t := s[1..];
      DropLeadingDropped(t);
      forall i | 1 <= i < |s| - |DropLeadingDashes(t)| ensures s[i] == '-' {
        assert s[i] == t[i - 1];
      }
    }
  }

  /** DropTrailingDashes gives a prefix of s that does not end with '-',
      and what it drops is all '-'. */
  lemma DropTrailingSpec(s: string)
    ensures var r := DropTrailingDashes(s);
      |r| <= |s| && r == s[..|r|] && (r == [] || r[|r| - 1] != '-')
      && forall i :: |r| <= i < |s| ==> s[i] == '-'
  {
    DropTrailingPrefix(s);
    DropTrailingDropped(s);
  }

  lemma {:induction false} DropTrailingPrefix(s: string)
    ensures var r := DropTrailingDashes(s);
      |r| <= |s| && r == s[..|r|] && (r == [] || r[|r| - 1] != '-')
  {
    if s != [] && s[|s| - 1] == '-' {
      DropTrailingPrefix(s[..|s| - 1]);
    }
  }

  lemma {:induction false} DropTrailingDropped(s: string)
    ensures forall i :: |DropTrailingDashes(s)| <= i < |s| ==> s[i] == '-'
  {
    if s != [] && s[|s| - 1] == '-' {
      var t := s[..|s| - 1];
      DropTrailingDropped(t);
      forall i | |DropTrailingDashes(t)| <= i < |s| - 1 ensures s[i] == '-' {
        assert s[i] == t[i];
      }
    }
  }

  /** Every slug has the shape of a slug. */
  lemma SlugShape(fold: string -> string, name: string)
    ensures IsSlug(Slug(fold, name))
  {
    var c := Collapse(fold(name));
    CollapseShape(c);
    CollapseShape(fold(name));
    var l := DropLeadingDashes(c);
    DropLeadingSpec(c);
    var r := DropTrailingDashes(l);
    DropTrailingSpec(l);
    var off := |c| - |l|;
    forall i | 0 <= i < |r| ensures IsSlugChar(r[i]) || r[i] == '-' {
      assert r[i] == l[i] == c[off + i];
    }
    forall i | 0 <= i < |r| - 1 ensures !(r[i] == '-' && r[i + 1] == '-') {
      assert r[i] == c[off + i] && r[i + 1] == c[off + i + 1];
    }
    if r != [] {
      assert r[0] == l[0];
    }
  }

  /** A string of slug characters and single dashes collapses to itself. */
  lemma {:induction false} CollapseFixes(s: string)
    requires forall i :: 0 <= i < |s| ==> IsSlugChar(s[i]) || s[i] == '-'
    requires NoDoubleDash(s)
    requires s == [] || s[|s| - 1] != '-'
    ensures Collapse(s) == s
    decreases |s|
  {
    if s != [] {
      if IsSlugChar(s[0]) {
        CollapseFixes(s[1..]);
      } else {
        assert |s| >= 2 && IsSlugChar(s[1]);
        assert SkipRun(s[1..]) == s[1..];
        CollapseFixes(s[1..]);
      }
    }
  }

  /** The rule is idempotent: the slug of a slug is itself, when the
      lower-casing and accent folding leave slug characters alone (they do
      for [a-z0-9-]). */
  lemma SlugIdempotent(fold: string -> string, name: string)
    requires forall t :: IsSlug(t) ==> fold(t) == t
    ensures Slug(fold, Slug(fold, name)) == Slug(fold, name)
  {
    var s := Slug(fold, name);
    SlugShape(fold, name);
    CollapseFixes(s);
    assert DropLeadingDashes(s) == s;
    assert DropTrailingDashes(s) == s;
  }

  /** The slug characters of the folded name survive, in order. */
  lemma {:induction false} CollapseKeepsSlugChars(s: string)
    ensures Filter(IsSlugChar, Collapse(s)) == Filter(IsSlugChar, s)
    decreases |s|
  {
    if s != [] {
      if IsSlugChar(s[0]) {
        CollapseKeepsSlugChars(s[1..]);
        assert Collapse(s) == [s[0]] + Collapse(s[1..]);
        FilterConcat(IsSlugChar, [s[0]], Collapse(s[1..]));
        FilterConcat(IsSlugChar, [s[0]], s[1..]);
        assert s == [s[0]] + s[1..];
      } else {
        var rest := SkipRun(s[1..]);
        CollapseKeepsSlugChars(rest);
        SkipRunDropsNone(s[1..]);
        FilterConcat(IsSlugChar, "-", Collapse(rest));
        FilterConcat(IsSlugChar, [s[0]], s[1..]);
        assert s == [s[0]] + s[1..];
      }
    }
  }

  lemma {:induction false} SkipRunDropsNone(s: string)
    ensures Filter(IsSlugChar, SkipRun(s)) == Filter(IsSlugChar, s)
  {
    if s != [] && !IsSlugChar(s[0]) {
      SkipRunDropsNone(s[1..]);
    }
  }

  /** The new-subrubro form. */
  datatype Draft = Draft(name: string, slug: string, rubro: string, parentId: Option<string>, order: int)

  function DefaultDraft(): Draft
  {
    Draft("", "", "darccuir", None, 0)
  }

  /** subrubrosPorRubro: the list filtered by one rubro. */
  function PorRubro(subs: seq<Subrubro>, rubro: string): (r: seq<Subrubro>)
  {
    Filter((s: Subrubro) => s.rubro == rubro, subs)
  }

  /** `!s.parentId`: no parent, or an empty one. */
  predicate IsRoot(s: Subrubro)
  {
    !Truthy(s.parentId)
  }

  /** The records listed at the top of a rubro's tree. */
  function Roots(group: seq<Subrubro>): seq<Subrubro>
  {
    Filter(IsRoot, group)
  }

  /** The records shown under a node: parentId === its id. */
  function ChildrenOf(subs: seq<Subrubro>, node: Subrubro): seq<Subrubro>
  {
    Filter((s: Subrubro) => s.parentId == Some(node.id), subs)
  }

  /** The two groups hold the records of their rubro and none other; a
      record of another rubro is in neither; when every record is of one of
      the two rubros the groups together have all of them. */
  lemma GroupsPartition(subs: seq<Subrubro>)
    ensures forall s :: s in PorRubro(subs, "darccuir") <==> s in subs && s.rubro == "darccuir"
    ensures forall s :: s in PorRubro(subs, "yatay") <==> s in subs && s.rubro == "yatay"
    ensures (forall s :: s in subs ==> s.rubro == "darccuir" || s.rubro == "yatay") ==>
      |PorRubro(subs, "darccuir")| + |PorRubro(subs, "yatay")| == |subs|
  {
    if forall s :: s in subs ==> s.rubro == "darccuir" || s.rubro == "yatay" {
      FilterPartition((s: Subrubro) => s.rubro == "darccuir", (s: Subrubro) => s.rubro == "yatay", subs);
    }
  }

  /** Each record of a group is a root or the child of some node whose id
      it names, never both; roots and non-roots add up to the group. */
  lemma RootsAndChildren(group: seq<Subrubro>)
    ensures forall s :: s in Roots(group) <==> s in group && (s.parentId.None? || s.parentId.value == "")
    ensures forall s, n :: s in ChildrenOf(group, n) <==> s in group && s.parentId == Some(n.id)
    ensures forall s, n :: s in ChildrenOf(group, n) && n.id != "" ==> s !in Roots(group)
    ensures |Roots(group)| + |Filter((s: Subrubro) => !IsRoot(s), group)| == |group|
  {
    FilterPartition(IsRoot, (s: Subrubro) => !IsRoot(s), group);
  }

  /** The component's state. */
  class Manager {
    var subrubros: seq<Subrubro>
    var isCreating: bool
    var loading: bool
    var draft: Draft
    const fold: string -> string

    constructor (initialSubrubros: seq<Subrubro>, fold: string -> string)
      ensures subrubros == initialSubrubros && !isCreating && !loading
      ensures draft == DefaultDraft() && this.fold == fold
    {
      subrubros := initialSubrubros;
      isCreating := false;
      loading := false;
      draft := DefaultDraft();
      this.fold := fold;
    }

    /** The create button toggles the form. */
    method ToggleCreating()
      modifies this
      ensures isCreating == !old(isCreating)
      ensures subrubros == old(subrubros) && loading == old(loading) && draft == old(draft)
    {
      isCreating := !isCreating;
    }

    /** handleNameChange: only the name and the generated slug change. */
    method HandleNameChange(name: string)
      modifies this
      ensures draft == old(draft).(name := name, slug := Slug(fold, name))
      ensures subrubros == old(subrubros) && isCreating == old(isCreating) && loading == old(loading)
    {
      draft := draft.(name := name, slug := Slug(fold, name));
    }

    /** handleCreate. `created` is the record the server returns, None when
        the request fails. */
    method HandleCreate(created: Option<Subrubro>)
      modifies this
      ensures created.Some? ==> subrubros == old(subrubros) + [created.value] && draft == DefaultDraft() && !isCreating
      ensures created.None? ==> subrubros == old(subrubros) && draft == old(draft) && isCreating == old(isCreating)
      ensures !loading
    {
      loading := true;
      if created.Some? {
        subrubros := subrubros + [created.value];
        draft := DefaultDraft();
        isCreating := false;
      }
      loading := false;
    }

    /** handleDelete: `confirmed` is the answer to the confirmation dialog
        and `ok` whether the server accepted the deletion. */
    method HandleDelete(id: string, confirmed: bool, ok: bool)
      modifies this
      ensures confirmed && ok ==> subrubros == Filter((s: Subrubro) => s.id != id, old(subrubros))
      ensures !(confirmed && ok) ==> subrubros == old(subrubros)
      ensures isCreating == old(isCreating) && loading == old(loading) && draft == old(draft)
    {
      if !confirmed {
        return;
      }
      if ok {
        subrubros := Filter((s: Subrubro) => s.id != id, subrubros);
      }
    }
  }

  /** Deleting removes exactly the records with that id and keeps the
      others, in their order. */
  lemma {:induction false} DeleteKeepsOthers(subs: seq<Subrubro>, id: string)
    ensures forall s :: s in Filter((s: Subrubro) => s.id != id, subs) <==> s in subs && s.id != id
    ensures (forall i :: 0 <= i < |subs| ==> subs[i].id != id) ==> Filter((s: Subrubro) => s.id != id, subs) == subs
  {
    FilterKeepsAll((s: Subrubro) => s.id != id, subs);
  }
}

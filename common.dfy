/** Small building blocks shared by every module: an Option type, the
    sequence operations JavaScript code uses everywhere (filter, map) and
    JavaScript's String.prototype.trim. */
module Common {

  datatype Option<+T> = None | Some(value: T)

  /** JavaScript truthiness of an optional string: present and non-empty. */
  predicate Truthy(o: Option<string>)
  {
    o.Some? && o.value != ""
  }

  /** Array.prototype.filter: the elements of s that satisfy p, in order. */
  function Filter<T(!new)>(p: T -> bool, s: seq<T>): (r: seq<T>)
    ensures |r| <= |s|
    ensures forall x {:trigger x in r} :: x in r <==> x in s && p(x)
  {
    if s == [] then [] else (if p(s[0]) then [s[0]] else []) + Filter(p, s[1..])
  }

  /** Filtering distributes over concatenation: the kept elements stay in
      their original relative order. */
  lemma {:induction false} FilterConcat<T(!new)>(p: T -> bool, a: seq<T>, b: seq<T>)
    ensures Filter(p, a + b) == Filter(p, a) + Filter(p, b)
  {
    if a != [] {
      assert (a + b)[1..] == a[1..] + b;
      FilterConcat(p, a[1..], b);
    } else {
      assert a + b == b;
    }
  }

  /** Filtering the sequence with one more element at the end. */
  lemma FilterSnoc<T(!new)>(p: T -> bool, a: seq<T>, x: T)
    ensures Filter(p, a + [x]) == Filter(p, a) + (if p(x) then [x] else [])
  {
    FilterConcat(p, a, [x]);
    assert Filter(p, [x]) == (if p(x) then [x] else []) + Filter(p, []);
  }

  /** Filtering keeps everything exactly when every element passes. */
  lemma {:induction false} FilterKeepsAll<T(!new)>(p: T -> bool, s: seq<T>)
    ensures Filter(p, s) == s <==> forall i :: 0 <= i < |s| ==> p(s[i])
  {
    if s != [] {
      FilterKeepsAll(p, s[1..]);
      if !p(s[0]) {
        assert |Filter(p, s)| < |s| by {
          assert Filter(p, s) == Filter(p, s[1..]);
        }
      }
    }
  }

  /** Filtering then mapping a non-empty sequence: the front's result, and
      the last element's image when it passes. */
  lemma MapFilterLast<T(!new), U>(f: T -> U, p: T -> bool, s: seq<T>)
    requires s != []
    ensures MapSeq(f, Filter(p, s)) == MapSeq(f, Filter(p, s[..|s| - 1])) + (if p(s[|s| - 1]) then [f(s[|s| - 1])] else [])
  {
    var front, last := s[..|s| - 1], s[|s| - 1];
    SplitLast(s);
    FilterSnoc(p, front, last);
    MapSnoc(f, Filter(p, front), last);
  }

  /** A predicate and its negation split a sequence: every element is kept
      by exactly one of the two filters. */
  lemma {:induction false} FilterPartition<T(!new)>(p: T -> bool, q: T -> bool, s: seq<T>)
    requires forall x :: x in s ==> (p(x) <==> !q(x))
    ensures |Filter(p, s)| + |Filter(q, s)| == |s|
  {
    if s != [] {
      FilterPartition(p, q, s[1..]);
    }
  }

  /** A non-empty sequence is its front followed by its last element. */
  lemma SplitLast<T>(s: seq<T>)
    requires s != []
    ensures s == s[..|s| - 1] + [s[|s| - 1]]
  {
  }

  lemma AppendAssoc<T>(x: seq<T>, y: seq<T>, z: seq<T>)
    ensures (x + y) + z == x + (y + z)
  {
  }

  /** The first element of s that satisfies p, as a lookup on a unique key
      (findUnique, Array.prototype.find) returns it. */
  function Find<T(!new)>(p: T -> bool, s: seq<T>): (r: Option<T>)
    ensures r.Some? ==> r.value in s && p(r.value)
    ensures r.None? ==> forall x :: x in s ==> !p(x)
  {
    if s == [] then None else if p(s[0]) then Some(s[0]) else Find(p, s[1..])
  }

  /** An element appended after a failed lookup is what the same lookup
      then finds. */
  lemma {:induction false} FindAppended<T(!new)>(p: T -> bool, s: seq<T>, x: T)
    requires Find(p, s).None? && p(x)
    ensures Find(p, s + [x]) == Some(x)
  {
    if s != [] {
      assert (s + [x])[1..] == s[1..] + [x];
      FindAppended(p, s[1..], x);
    } else {
      assert s + [x] == [x];
    }
  }

  /** Array.prototype.map. */
  function MapSeq<T, U>(f: T -> U, s: seq<T>): (r: seq<U>)
    ensures |r| == |s|
    ensures forall i :: 0 <= i < |s| ==> r[i] == f(s[i])
  {
    if s == [] then [] else [f(s[0])] + MapSeq(f, s[1..])
  }

  lemma MapSnoc<T, U>(f: T -> U, a: seq<T>, x: T)
    ensures MapSeq(f, a + [x]) == MapSeq(f, a) + [f(x)]
  {
  }

  /** The characters JavaScript's trim removes: WhiteSpace (TAB, VT, FF, SP,
      NBSP, ZWNBSP and the Unicode space separators) and LineTerminator (LF,
      CR, LS, PS), the two productions ECMA-262 names for
      String.prototype.trim. */
  predicate IsJsWhitespace(c: char)
  {
    c == '\t' || c == '\n' || c == '\U{000B}' || c == '\U{000C}' || c == '\r' ||
    c == ' ' || c == '\U{00A0}' || c == '\U{1680}' || ('\U{2000}' <= c <= '\U{200A}') ||
    c == '\U{2028}' || c == '\U{2029}' || c == '\U{202F}' || c == '\U{205F}' ||
    c == '\U{3000}' || c == '\U{FEFF}'
  }

  /** Drops the leading whitespace. */
  function TrimStart(s: string): string
  {
    if s != [] && IsJsWhitespace(s[0]) then TrimStart(s[1..]) else s
  }

  /** Drops the trailing whitespace. */
  function TrimEnd(s: string): string
  {
    if s != [] && IsJsWhitespace(s[|s| - 1]) then TrimEnd(s[..|s| - 1]) else s
  }

  /** String.prototype.trim. */
  function Trim(s: string): string
  {
    TrimEnd(TrimStart(s))
  }

  /** TrimStart gives the longest suffix of s that does not start with
      whitespace. */
  lemma TrimStartSpec(s: string)
    ensures var r := TrimStart(s);
      && |r| <= |s| && r == s[|s| - |r|..]
      && (forall i :: 0 <= i < |s| - |r| ==> IsJsWhitespace(s[i]))
      && (r == [] || !IsJsWhitespace(r[0]))
  {
    TrimStartSuffix(s);
    TrimStartDropped(s);
  }

  lemma {:induction false} TrimStartSuffix(s: string)
    ensures var r := TrimStart(s);
      |r| <= |s| && r == s[|s| - |r|..] && (r == [] || !IsJsWhitespace(r[0]))
  {
    if s != [] && IsJsWhitespace(s[0]) {
      TrimStartSuffix(s[1..]);
      assert s[1..][|s| - 1 - |TrimStart(s[1..])|..] == s[|s| - |TrimStart(s[1..])|..];
    }
  }

  lemma {:induction false} TrimStartDropped(s: string)
    ensures forall i :: 0 <= i < |s| - |TrimStart(s)| ==> IsJsWhitespace(s[i])
  {
    if s != [] && IsJsWhitespace(s[0]) {
      var t := s[1..];
      TrimStartDropped(t);
      forall i | 1 <= i < |s| - |TrimStart(t)| ensures IsJsWhitespace(s[i]) {
        assert s[i] == t[i - 1];
      }
    }
  }

  /** TrimEnd gives the longest prefix of s that does not end with
      whitespace. */
  lemma TrimEndSpec(s: string)
    ensures var r := TrimEnd(s);
      && |r| <= |s| && r == s[..|r|]
      && (forall i :: |r| <= i < |s| ==> IsJsWhitespace(s[i]))
      && (r == [] || !IsJsWhitespace(r[|r| - 1]))
  {
    TrimEndPrefix(s);
    TrimEndDropped(s);
  }

  lemma {:induction false} TrimEndPrefix(s: string)
    ensures var r := TrimEnd(s);
      |r| <= |s| && r == s[..|r|] && (r == [] || !IsJsWhitespace(r[|r| - 1]))
  {
    if s != [] && IsJsWhitespace(s[|s| - 1]) {
      var t := s[..|s| - 1];
      TrimEndPrefix(t);
      assert t[..|TrimEnd(t)|] == s[..|TrimEnd(t)|];
    }
  }

  lemma {:induction false} TrimEndDropped(s: string)
    ensures forall i :: |TrimEnd(s)| <= i < |s| ==> IsJsWhitespace(s[i])
  {
    if s != [] && IsJsWhitespace(s[|s| - 1]) {
      var t := s[..|s| - 1];
      TrimEndDropped(t);
      forall i | |TrimEnd(t)| <= i < |s| - 1 ensures IsJsWhitespace(s[i]) {
        assert s[i] == t[i];
      }
    }
  }

  /** The trimmed string is the piece s[i..i + |Trim(s)|] of s, where i
      counts the leading whitespace, and only whitespace surrounds it. */
  lemma TrimIsInfix(s: string, i: nat)
    requires i == |s| - |TrimStart(s)|
    ensures i + |Trim(s)| <= |s| && Trim(s) == s[i..i + |Trim(s)|]
    ensures forall k :: 0 <= k < i ==> IsJsWhitespace(s[k])
    ensures forall k :: i + |Trim(s)| <= k < |s| ==> IsJsWhitespace(s[k])
  {
    var t := TrimStart(s);
    var r := TrimEnd(t);
    TrimStartSpec(s);
    TrimEndSpec(t);
    assert t == s[i..];
    assert r == t[..|r|];
    forall k | i + |r| <= k < |s| ensures IsJsWhitespace(s[k]) {
      assert s[k] == t[k - i];
    }
  }

  /** The trimmed string neither starts nor ends with whitespace. */
  lemma TrimEnds(s: string)
    ensures Trim(s) == [] || (!IsJsWhitespace(Trim(s)[0]) && !IsJsWhitespace(Trim(s)[|Trim(s)| - 1]))
  {
    var t := TrimStart(s);
    var r := TrimEnd(t);
    TrimStartSpec(s);
    TrimEndSpec(t);
    if r != [] {
      assert r == t[..|r|];
      assert r[0] == t[0];
    }
  }

  /** Trimming twice is trimming once. */
  lemma TrimIdempotent(s: string)
    ensures Trim(Trim(s)) == Trim(s)
  {
    var r := Trim(s);
    TrimEnds(s);
    assert TrimStart(r) == r;
    assert TrimEnd(r) == r;
  }
}

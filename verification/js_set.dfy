/** A JavaScript `Set` of strings: duplicate-free and kept in insertion
    order, which is the order `[...set]` spreads it into an array. */
module JsSet {

  /** No element occurs twice. */
  predicate Distinct(xs: seq<string>) {
    forall i, j :: 0 <= i < j < |xs| ==> xs[i] != xs[j]
  }

  /** The elements, as a mathematical set. */
  function Elems(xs: seq<string>): set<string> {
    set x | x in xs
  }

  /** `set.add(x)`: appends `x` unless it is already present. */
  function Add(s: seq<string>, x: string): (r: seq<string>)
    requires Distinct(s)
    ensures Distinct(r)
    ensures forall y :: y in r <==> y in s || y == x
    ensures x in s ==> r == s
    ensures x !in s ==> r == s + [x]
  {
    if x in s then s else s + [x]
  }

  /** Adding each of `xs` in turn, as `new Set([...s, ...xs])` and
      `xs.forEach(x => s.add(x))` both do. */
  function AddAll(s: seq<string>, xs: seq<string>): (r: seq<string>)
    requires Distinct(s)
    ensures Distinct(r)
    decreases |xs|
  {
    if xs == [] then s else AddAll(Add(s, xs[0]), xs[1..])
  }

  /** `new Set(xs)`: the distinct elements of `xs` in first-occurrence order. */
  function FromSeq(xs: seq<string>): (r: seq<string>)
    ensures Distinct(r)
  {
    AddAll([], xs)
  }

  /** Adding a batch yields exactly the union of the old elements and the
      batch, and keeps the old elements first and in order. */
  lemma {:induction false} AddAllElems(s: seq<string>, xs: seq<string>)
    requires Distinct(s)
    ensures forall y :: y in AddAll(s, xs) <==> y in s || y in xs
    ensures s <= AddAll(s, xs)
    decreases |xs|
  {
    if xs != [] {
      var s' := Add(s, xs[0]);
      AddAllElems(s', xs[1..]);
      assert xs == [xs[0]] + xs[1..];
    }
  }

  /** `new Set(xs)` holds exactly the elements of `xs`. */
  lemma FromSeqElems(xs: seq<string>)
    ensures Elems(FromSeq(xs)) == Elems(xs)
  {
    AddAllElems([], xs);
  }

  /** A duplicate-free array survives the round trip through `new Set` and
      back unchanged: persisting a set and reloading it restores it. */
  lemma {:induction false} FromSeqOfDistinct(s: seq<string>)
    requires Distinct(s)
    ensures FromSeq(s) == s
  {
    AddAllPrefix([], s);
  }

  /** Adding the elements of a distinct `xs` that are all new to `s`
      appends them in order. */
  lemma {:induction false} AddAllPrefix(s: seq<string>, xs: seq<string>)
    requires Distinct(s) && Distinct(s + xs)
    ensures AddAll(s, xs) == s + xs
    decreases |xs|
  {
    if xs != [] {
      var t := s + xs;
      assert xs[0] == t[|s|];
      assert xs[0] !in s by {
        forall i | 0 <= i < |s| ensures s[i] != xs[0] {
          assert s[i] == t[i];
        }
      }
      assert Add(s, xs[0]) == s + [xs[0]];
      assert (s + [xs[0]]) + xs[1..] == s + xs;
      AddAllPrefix(s + [xs[0]], xs[1..]);
    }
  }

  /** Adding a batch is idempotent: a second identical batch changes nothing. */
  lemma {:induction false} AddAllIdempotent(s: seq<string>, xs: seq<string>)
    requires Distinct(s)
    ensures AddAll(AddAll(s, xs), xs) == AddAll(s, xs)
  {
    var r := AddAll(s, xs);
    AddAllElems(s, xs);
    AddAllPresent(r, xs);
  }

  /** Adding elements that are all present already changes nothing. */
  lemma {:induction false} AddAllPresent(s: seq<string>, xs: seq<string>)
    requires Distinct(s)
    requires forall y :: y in xs ==> y in s
    ensures AddAll(s, xs) == s
    decreases |xs|
  {
    if xs != [] {
      assert xs[0] in xs;
      AddAllPresent(s, xs[1..]);
    }
  }

  /** Adding `a` then `b` is adding `a + b`. */
  lemma {:induction false} AddAllConcat(s: seq<string>, a: seq<string>, b: seq<string>)
    requires Distinct(s)
    ensures AddAll(s, a + b) == AddAll(AddAll(s, a), b)
    decreases |a|
  {
    if a != [] {
      assert (a + b)[0] == a[0];
      assert (a + b)[1..] == a[1..] + b;
      AddAllConcat(Add(s, a[0]), a[1..], b);
    } else {
      assert a + b == b;
    }
  }

  /** `new Set([...s, ...xs])` for a set `s` is `s` with each of `xs` added. */
  lemma SpreadUnion(s: seq<string>, xs: seq<string>)
    requires Distinct(s)
    ensures FromSeq(s + xs) == AddAll(s, xs)
  {
    AddAllConcat([], s, xs);
    FromSeqOfDistinct(s);
  }
}

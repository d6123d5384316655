/** Small shared vocabulary: optional values, JavaScript truthiness of
    optional strings, substring search, one-digit decimal text and
    order-preserving filtering. */
module Common {

  /** A value that may be absent (JavaScript's `undefined` or `null`). */
  datatype Option<+T> = None | Some(value: T) {

    /** The wrapped value, or `default` when absent. */
    function GetOr(default: T): T {
      match this
      case Some(v) => v
      case None => default
    }
  }

  /** The outcome of an operation that can throw: a value or an error message. */
  datatype Result<+T> = Ok(value: T) | Err(message: string)

  /** JavaScript truthiness of an optional string: `undefined`, `null` and `''` are falsy. */
  predicate Truthy(s: Option<string>) {
    s.Some? && s.value != ""
  }

  /** `a || b` on optional strings. */
  function OrElse(a: Option<string>, b: string): (r: string)
    ensures Truthy(a) ==> r == a.value
    ensures !Truthy(a) ==> r == b
  {
    if Truthy(a) then a.value else b
  }

  /** `s || null`: an empty string is stored as an absent value. */
  function EmptyToNone(s: Option<string>): (r: Option<string>)
    ensures r.None? <==> !Truthy(s)
    ensures r.Some? ==> r == s && r.value != ""
  {
    if Truthy(s) then s else None
  }

  /** `s.includes(sub)`: `sub` occurs at some position of `s`. */
  predicate Contains(s: string, sub: string) {
    exists i :: 0 <= i <= |s| - |sub| && OccursAt(s, sub, i)
  }

  /** `sub` occurs in `s` starting at position `i`. */
  predicate OccursAt(s: string, sub: string, i: int) {
    0 <= i <= |s| - |sub| && s[i..i + |sub|] == sub
  }

  /** A witness position makes `Contains` hold. */
  lemma ContainsAt(s: string, sub: string, i: int)
    requires 0 <= i <= |s| - |sub|
    requires s[i..i + |sub|] == sub
    ensures Contains(s, sub)
  {
    assert OccursAt(s, sub, i);
  }

  /** The decimal text of a number 0..9, as JavaScript prints it. */
  function DigitText(n: nat): (r: string)
    requires n <= 9
    ensures |r| == 1 && '0' <= r[0] <= '9'
    ensures r[0] as int - '0' as int == n
  {
    ["0123456789"[n]]
  }

  /** `xs.filter(keep)`: the kept elements, in their original order. */
  function Filter<T(!new)>(xs: seq<T>, keep: T -> bool): (r: seq<T>)
    ensures |r| <= |xs|
    ensures forall x :: x in r <==> x in xs && keep(x)
  {
    if xs == [] then []
    else (if keep(xs[0]) then [xs[0]] else []) + Filter(xs[1..], keep)
  }

  /** A filter whose test fails on every element yields the empty list. */
  lemma {:induction false} FilterKeepsNone<T(!new)>(xs: seq<T>, keep: T -> bool)
    requires forall i :: 0 <= i < |xs| ==> !keep(xs[i])
    ensures Filter(xs, keep) == []
    decreases |xs|
  {
    if xs != [] {
      FilterKeepsNone(xs[1..], keep);
    }
  }

  /** Appending an element the filter drops leaves its result alone. */
  lemma {:induction false} FilterSnocDropped<T(!new)>(xs: seq<T>, x: T, keep: T -> bool)
    requires !keep(x)
    ensures Filter(xs + [x], keep) == Filter(xs, keep)
    decreases |xs|
  {
    if xs == [] {
      assert Filter([x], keep) == [] + Filter([], keep);
    } else {
      assert (xs + [x])[0] == xs[0];
      assert (xs + [x])[1..] == xs[1..] + [x];
      FilterSnocDropped(xs[1..], x, keep);
    }
  }

  /** A string contains its own prefix. */
  lemma ContainsPrefix(x: string, s: string)
    ensures Contains(x + s, x)
  {
    assert (x + s)[0..|x|] == x;
    ContainsAt(x + s, x, 0);
  }

  /** What a string contains, any extension of it at the front contains too. */
  lemma ContainsAfter(a: string, s: string, x: string)
    requires Contains(s, x)
    ensures Contains(a + s, x)
  {
    var i :| 0 <= i <= |s| - |x| && OccursAt(s, x, i);
    assert (a + s)[|a| + i..|a| + i + |x|] == s[i..i + |x|];
    ContainsAt(a + s, x, |a| + i);
  }

  /** A word that occurs in neither part occurs in their concatenation only
      across the joint, which a character next to the joint rules out when
      the word does not contain it. */
  lemma NotContainsJoin(a: string, b: string, w: string)
    requires !Contains(a, w) && !Contains(b, w)
    requires (|a| > 0 && a[|a| - 1] !in w) || (|b| > 0 && b[0] !in w)
    ensures !Contains(a + b, w)
  {
    if Contains(a + b, w) {
      var i :| 0 <= i <= |a + b| - |w| && OccursAt(a + b, w, i);
      if i + |w| <= |a| {
        assert a[i..i + |w|] == (a + b)[i..i + |w|];
        assert OccursAt(a, w, i);
      } else if i >= |a| {
        assert b[i - |a|..i - |a| + |w|] == (a + b)[i..i + |w|];
        assert OccursAt(b, w, i - |a|);
      } else if |a| > 0 && a[|a| - 1] !in w {
        CharOfOccurrence(a + b, w, i, |a| - 1 - i);
      } else {
        CharOfOccurrence(a + b, w, i, |a| - i);
      }
    }
  }

  /** The `k`-th character of an occurrence of `w` at `i`. */
  lemma CharOfOccurrence(s: string, w: string, i: int, k: int)
    requires OccursAt(s, w, i) && 0 <= k < |w|
    ensures w[k] == s[i + k]
  {
    assert s[i..i + |w|][k] == s[i + k];
  }

  /** A string lacking one of a word's characters does not contain the word. */
  lemma NotContainsMissingChar(s: string, w: string, c: char)
    requires c in w && c !in s
    ensures !Contains(s, w)
  {
  }
}

/**
 * `Array.prototype.filter` as a function on sequences, with the facts the
 * photo-policy evaluator needs about it: what survives, that something
 * survives exactly when some element qualifies, and that order is kept.
 */
module JsArray {

  /** The elements of `s` for which `keep` holds, in their original order.
      Defined from the back, the way repeated `push` builds the result. */
  function Filter<T>(s: seq<T>, keep: T -> bool): (r: seq<T>)
    ensures |r| <= |s|
    ensures forall i :: 0 <= i < |r| ==> keep(r[i]) && r[i] in s
  {
    if s == [] then []
    else Filter(s[..|s| - 1], keep) + (if keep(s[|s| - 1]) then [s[|s| - 1]] else [])
  }

  /** Filtering one more element appends it exactly when it qualifies. */
  lemma FilterSnoc<T>(s: seq<T>, x: T, keep: T -> bool)
    ensures Filter(s + [x], keep) == Filter(s, keep) + (if keep(x) then [x] else [])
  {
    assert (s + [x])[..|s + [x]| - 1] == s;
  }

  /** Filtering distributes over concatenation: the result keeps the input's order. */
  lemma {:induction false} FilterConcat<T>(a: seq<T>, b: seq<T>, keep: T -> bool)
    ensures Filter(a + b, keep) == Filter(a, keep) + Filter(b, keep)
  {
    if b == [] {
      assert a + b == a;
    } else {
      var b' := b[..|b| - 1];
      var x := b[|b| - 1];
      assert b == b' + [x];
      assert a + b == (a + b') + [x];
      FilterConcat(a, b', keep);
      FilterSnoc(a + b', x, keep);
      FilterSnoc(b', x, keep);
    }
  }

  /** When every element qualifies, nothing is dropped (duplicates included). */
  lemma {:induction false} FilterAll<T>(s: seq<T>, keep: T -> bool)
    requires forall i :: 0 <= i < |s| ==> keep(s[i])
    ensures Filter(s, keep) == s
  {
    if s != [] {
      FilterAll(s[..|s| - 1], keep);
      assert s[..|s| - 1] + [s[|s| - 1]] == s;
    }
  }

  /** An element survives exactly when it occurs in the input and qualifies. */
  lemma {:induction false} FilterMember<T>(s: seq<T>, keep: T -> bool, x: T)
    ensures x in Filter(s, keep) <==> x in s && keep(x)
  {
    if s != [] {
      var s' := s[..|s| - 1];
      FilterMember(s', keep, x);
      assert s == s' + [s[|s| - 1]];
    }
  }

  /** `filter(...).length > 0` holds exactly when some element qualifies. */
  lemma {:induction false} FilterNonEmpty<T>(s: seq<T>, keep: T -> bool)
    ensures |Filter(s, keep)| > 0 <==> exists i :: 0 <= i < |s| && keep(s[i])
  {
    if s != [] {
      var s' := s[..|s| - 1];
      FilterNonEmpty(s', keep);
      if exists i :: 0 <= i < |s'| && keep(s'[i]) {
        var i :| 0 <= i < |s'| && keep(s'[i]);
        assert s[i] == s'[i];
      }
      if exists i :: 0 <= i < |s| && keep(s[i]) {
        var i :| 0 <= i < |s| && keep(s[i]);
        if i < |s'| {
          assert s'[i] == s[i];
        }
      }
    }
  }
}

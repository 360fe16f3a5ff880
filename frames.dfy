/**
 * The part of a data frame the detectors touch: an ordered sequence of rows,
 * each with its index label and the value of the feature column, and
 * boolean-mask indexing `data[mask]`, which keeps the rows whose mask entry is
 * true in their original order and leaves the rows themselves unchanged.
 */
module Frames {

  datatype Row = Row(id: int, value: real)

  /** `s[mask]` where the mask entry of element `x` is `keep(x)`. */
  function Select(s: seq<Row>, keep: Row -> bool): (r: seq<Row>)
    ensures |r| <= |s|
    ensures forall x :: x in r <==> x in s && keep(x)
  {
    if |s| == 0 then []
    else if keep(s[0]) then [s[0]] + Select(s[1..], keep)
    else Select(s[1..], keep)
  }

  /** `a` can be obtained from `b` by deleting elements, keeping the order of the rest. */
  predicate IsSubsequence(a: seq<Row>, b: seq<Row>)
    decreases |b|
  {
    if |a| == 0 then true
    else if |b| == 0 then false
    else (a[0] == b[0] && IsSubsequence(a[1..], b[1..])) || IsSubsequence(a, b[1..])
  }

  /** A subsequence keeps only elements of the original. */
  lemma {:induction false} SubsequenceMembers(a: seq<Row>, b: seq<Row>)
    requires IsSubsequence(a, b)
    ensures |a| <= |b|
    ensures forall x :: x in a ==> x in b
    decreases |b|
  {
    if |a| > 0 {
      if a[0] == b[0] && IsSubsequence(a[1..], b[1..]) {
        SubsequenceMembers(a[1..], b[1..]);
        assert a == [a[0]] + a[1..] && b == [b[0]] + b[1..];
      } else {
        SubsequenceMembers(a, b[1..]);
        assert b == [b[0]] + b[1..];
      }
    }
  }

  /** Prepending an element to the larger sequence keeps a subsequence a subsequence. */
  lemma SubsequenceOfCons(a: seq<Row>, x: Row, b: seq<Row>)
    requires IsSubsequence(a, b)
    ensures IsSubsequence(a, [x] + b)
  {
    assert ([x] + b)[1..] == b;
  }

  /** Mask indexing returns a subsequence of its input: rows keep their order. */
  lemma {:induction false} SelectIsSubsequence(s: seq<Row>, keep: Row -> bool)
    ensures IsSubsequence(Select(s, keep), s)
  {
    if |s| > 0 {
      SelectIsSubsequence(s[1..], keep);
      var r := Select(s, keep);
      if keep(s[0]) {
        assert r[0] == s[0] && r[1..] == Select(s[1..], keep);
      } else {
        assert s == [s[0]] + s[1..];
        SubsequenceOfCons(r, s[0], s[1..]);
      }
    }
  }

  /**
   * A mask that is true on fewer elements of `s` selects a subsequence of
   * what the larger mask selects.
   */
  lemma {:induction false} SelectNarrower(s: seq<Row>, p: Row -> bool, q: Row -> bool)
    requires forall x :: x in s && p(x) ==> q(x)
    ensures IsSubsequence(Select(s, p), Select(s, q))
  {
    if |s| > 0 {
      assert forall x :: x in s[1..] ==> x in s;
      SelectNarrower(s[1..], p, q);
      var a, b := Select(s[1..], p), Select(s[1..], q);
      if p(s[0]) {
        assert ([s[0]] + a)[1..] == a && ([s[0]] + b)[1..] == b;
      } else if q(s[0]) {
        SubsequenceOfCons(a, s[0], b);
      }
    }
  }

  /** A mask that is true on every element keeps the whole sequence. */
  lemma {:induction false} SelectAll(s: seq<Row>, keep: Row -> bool)
    requires forall i :: 0 <= i < |s| ==> keep(s[i])
    ensures Select(s, keep) == s
  {
    if |s| > 0 {
      SelectAll(s[1..], keep);
    }
  }

  /** A mask that is false on every element keeps nothing. */
  lemma SelectNone(s: seq<Row>, keep: Row -> bool)
    requires forall i :: 0 <= i < |s| ==> !keep(s[i])
    ensures Select(s, keep) == []
  {
  }

  /** Mask indexing of a concatenation is the concatenation of the two selections. */
  lemma {:induction false} SelectAppend(a: seq<Row>, b: seq<Row>, keep: Row -> bool)
    ensures Select(a + b, keep) == Select(a, keep) + Select(b, keep)
  {
    if |a| > 0 {
      SelectAppend(a[1..], b, keep);
      assert (a + b)[1..] == a[1..] + b;
    } else {
      assert a + b == b;
    }
  }

  /**
   * When every element satisfies exactly one of three masks, the three
   * selections together hold every element of `s` exactly as often as `s` does.
   */
  lemma {:induction false} SelectPartition(s: seq<Row>, p: Row -> bool, q: Row -> bool, t: Row -> bool)
    requires forall x :: x in s ==> (p(x) || q(x) || t(x))
    requires forall x :: x in s ==> !(p(x) && q(x)) && !(p(x) && t(x)) && !(q(x) && t(x))
    ensures multiset(Select(s, p)) + multiset(Select(s, q)) + multiset(Select(s, t)) == multiset(s)
  {
    if |s| > 0 {
      assert forall x :: x in s[1..] ==> x in s;
      SelectPartition(s[1..], p, q, t);
      assert s == [s[0]] + s[1..];
    }
  }

  /** Each row with its value replaced by `f` of it, keeping its index label. */
  function Transform(s: seq<Row>, f: real -> real): (r: seq<Row>)
    ensures |r| == |s|
    ensures forall i :: 0 <= i < |s| ==> r[i] == Row(s[i].id, f(s[i].value))
  {
    if |s| == 0 then [] else [Row(s[0].id, f(s[0].value))] + Transform(s[1..], f)
  }

  /**
   * Selecting with `p` and then transforming the values is selecting the
   * transformed rows with `q`, when `q` says of a transformed row what `p`
   * says of the original.
   */
  lemma {:induction false} SelectTransform(s: seq<Row>, f: real -> real, p: Row -> bool, q: Row -> bool)
    requires forall row :: p(row) == q(Row(row.id, f(row.value)))
    ensures Transform(Select(s, p), f) == Select(Transform(s, f), q)
  {
    if |s| > 0 {
      SelectTransform(s[1..], f, p, q);
      assert Transform(s, f)[1..] == Transform(s[1..], f);
      assert q(Transform(s, f)[0]) == p(s[0]);
    }
  }
}

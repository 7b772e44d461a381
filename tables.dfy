/** Helpers shared by the table operations: id columns made sorted and
    distinct (`sorted(set(...))`) or distinct in first-appearance order
    (`Series.unique()`), label lookup, sums and means of real columns, and
    the sequence view of a two-dimensional array. */
module Tables {

  datatype Option<T> = None | Some(value: T)

  predicate StrictlyAscending(s: seq<int>) {
    forall i, j :: 0 <= i < j < |s| ==> s[i] < s[j]
  }

  predicate Distinct(s: seq<int>) {
    forall i, j :: 0 <= i < j < |s| ==> s[i] != s[j]
  }

  lemma AscendingIsDistinct(s: seq<int>)
    requires StrictlyAscending(s)
    ensures Distinct(s)
  {
  }

  /** Adds x to a strictly ascending sequence, keeping it strictly ascending. */
  function Insert(s: seq<int>, x: int): (r: seq<int>)
    requires StrictlyAscending(s)
    ensures StrictlyAscending(r)
    ensures forall y :: y in r <==> y in s || y == x
  {
    if |s| == 0 || x < s[0] then
      assert forall j :: 0 < j < |s| ==> s[0] < s[j];
      [x] + s
    else if x == s[0] then s
    else
      var t := Insert(s[1..], x);
      assert forall k :: 0 <= k < |t| ==> t[k] in t;
      assert forall y :: y in s[1..] ==> s[0] < y;
      [s[0]] + t
  }

  /** `sorted(set(xs))`: the distinct values of xs in ascending order. */
  function SortedDistinct(xs: seq<int>): (r: seq<int>)
    ensures StrictlyAscending(r)
    ensures forall y :: y in r <==> y in xs
  {
    if |xs| == 0 then []
    else
      assert xs == xs[..|xs| - 1] + [xs[|xs| - 1]];
      Insert(SortedDistinct(xs[..|xs| - 1]), xs[|xs| - 1])
  }

  /** A value above every element goes at the end. */
  lemma {:induction false} InsertLargest(s: seq<int>, x: int)
    requires StrictlyAscending(s) && forall y :: y in s ==> y < x
    ensures Insert(s, x) == s + [x]
  {
    if |s| > 0 {
      var t := s[1..];
      assert s[0] in s;
      assert StrictlyAscending(t) by {
        forall i, j | 0 <= i < j < |t| ensures t[i] < t[j] {
          assert t[i] == s[i + 1] && t[j] == s[j + 1];
        }
      }
      assert forall y :: y in t ==> y in s;
      InsertLargest(t, x);
      assert Insert(s, x) == [s[0]] + Insert(t, x);
      assert [s[0]] + (t + [x]) == s + [x];
    }
  }

  /** Dropping the last element keeps the order, and the last is the largest. */
  lemma AscendingPrefix(p: seq<int>, x: int)
    requires StrictlyAscending(p + [x])
    ensures StrictlyAscending(p)
    ensures forall y :: y in p ==> y < x
  {
    var xs := p + [x];
    forall i, j | 0 <= i < j < |p| ensures p[i] < p[j] {
      assert p[i] == xs[i] && p[j] == xs[j];
    }
    forall y | y in p ensures y < x {
      var k :| 0 <= k < |p| && p[k] == y;
      assert xs[k] == y && xs[|p|] == x;
    }
  }

  /** An ascending sequence of distinct values comes back unchanged. */
  lemma {:induction false} SortedDistinctOfAscending(xs: seq<int>)
    requires StrictlyAscending(xs)
    ensures SortedDistinct(xs) == xs
  {
    if |xs| > 0 {
      var p, x := xs[..|xs| - 1], xs[|xs| - 1];
      assert p + [x] == xs;
      AscendingPrefix(p, x);
      SortedDistinctOfAscending(p);
      InsertLargest(p, x);
    }
  }

  /** Position of the first occurrence of x in xs. */
  function FirstIndex(xs: seq<int>, x: int): (i: nat)
    requires x in xs
    ensures i < |xs| && xs[i] == x && x !in xs[..i]
  {
    if xs[0] == x then 0
    else
      var i := FirstIndex(xs[1..], x);
      assert xs[..i + 1] == [xs[0]] + xs[1..][..i];
      1 + i
  }

  lemma FirstIndexIs(xs: seq<int>, x: int, i: nat)
    requires i < |xs| && xs[i] == x && x !in xs[..i]
    ensures FirstIndex(xs, x) == i
  {
  }

  /** `Series.unique()`: the distinct values of xs in order of first appearance. */
  function Unique(xs: seq<int>): (r: seq<int>)
    ensures Distinct(r)
    ensures forall y :: y in r <==> y in xs
    ensures forall i, j :: 0 <= i < j < |r| ==> FirstIndex(xs, r[i]) < FirstIndex(xs, r[j])
  {
    if |xs| == 0 then []
    else
      var p, x := xs[..|xs| - 1], xs[|xs| - 1];
      assert xs == p + [x];
      var u := Unique(p);
      forall y | y in p ensures FirstIndex(xs, y) == FirstIndex(p, y) {
        var f := FirstIndex(p, y);
        assert xs[..f] == p[..f];
        FirstIndexIs(xs, y, f);
      }
      if x in u then u
      else
        assert xs[..|xs| - 1] == p;
        FirstIndexIs(xs, x, |xs| - 1);
        assert forall k :: 0 <= k < |u| ==> u[k] in p;
        u + [x]
  }

  /** Position of label x in a sequence of labels that holds it. */
  function IndexOf(ids: seq<int>, x: int): (i: nat)
    requires x in ids
    ensures i < |ids| && ids[i] == x
  {
    if ids[0] == x then 0 else 1 + IndexOf(ids[1..], x)
  }

  function Sum(xs: seq<real>): real {
    if |xs| == 0 then 0.0 else Sum(xs[..|xs| - 1]) + xs[|xs| - 1]
  }

  /** `Series.mean()` of a non-empty column. */
  function Mean(xs: seq<real>): real
    requires |xs| > 0
  {
    Sum(xs) / (|xs| as real)
  }

  predicate HasShape(g: seq<seq<real>>, rows: nat, cols: nat) {
    |g| == rows && forall i :: 0 <= i < rows ==> |g[i]| == cols
  }

  /** The cells of a two-dimensional array, row by row. */
  ghost function Grid(m: array2<real>): (g: seq<seq<real>>)
    reads m
    ensures HasShape(g, m.Length0, m.Length1)
    ensures forall i, j :: 0 <= i < m.Length0 && 0 <= j < m.Length1 ==> g[i][j] == m[i, j]
  {
    seq(m.Length0, i requires 0 <= i < m.Length0 reads m =>
      seq(m.Length1, j requires 0 <= j < m.Length1 reads m => m[i, j]))
  }

  lemma GridEquals(m: array2<real>, g: seq<seq<real>>)
    requires HasShape(g, m.Length0, m.Length1)
    requires forall i, j :: 0 <= i < m.Length0 && 0 <= j < m.Length1 ==> m[i, j] == g[i][j]
    ensures Grid(m) == g
  {
    var h := Grid(m);
    forall i | 0 <= i < m.Length0 ensures h[i] == g[i] {
      assert |h[i]| == |g[i]|;
    }
  }
}

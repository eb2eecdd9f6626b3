/** What `ORDER BY member_no ASC` (and `GROUP BY member_no`) does to a column
    of ids: every distinct id once, ascending. */
module SqlOrder {

  predicate StrictlyIncreasing(s: seq<int>) {
    forall i, j :: 0 <= i < j < |s| ==> s[i] < s[j]
  }

  /** Places `x` into an ascending, duplicate-free sequence. */
  function Insert(x: int, s: seq<int>): (r: seq<int>)
    requires StrictlyIncreasing(s)
    ensures StrictlyIncreasing(r)
    ensures forall y :: y in r <==> y == x || y in s
    decreases |s|
  {
    if s == [] then [x]
    else if x < s[0] then [x] + s
    else if x == s[0] then s
    else
      assert s == [s[0]] + s[1..];
      var rest := Insert(x, s[1..]);
      assert forall y :: y in s[1..] ==> s[0] < y;
      assert forall y :: y in rest ==> s[0] < y;
      var r := [s[0]] + rest;
      assert forall i :: 0 < i < |r| ==> r[i] == rest[i - 1] && r[i] in rest;
      r
  }

  /** The distinct values of `xs`, ascending. */
  function SortedDistinct(xs: seq<int>): (r: seq<int>)
    ensures StrictlyIncreasing(r)
    ensures forall y :: y in r <==> y in xs
    decreases |xs|
  {
    if xs == [] then []
    else
      var init := xs[..|xs| - 1];
      assert xs == init + [xs[|xs| - 1]];
      Insert(xs[|xs| - 1], SortedDistinct(init))
  }

  lemma HeadIsLeast(s: seq<int>, y: int)
    requires StrictlyIncreasing(s) && y in s
    ensures s[0] <= y
  {
    var j :| 0 <= j < |s| && s[j] == y;
    if j > 0 {
      assert s[0] < s[j];
    }
  }

  /** An ascending, duplicate-free sequence is fixed by its elements. */
  lemma {:induction false} StrictlyIncreasingUnique(a: seq<int>, b: seq<int>)
    requires StrictlyIncreasing(a) && StrictlyIncreasing(b)
    requires forall y :: y in a <==> y in b
    ensures a == b
    decreases |a|
  {
    if |a| > 0 {
      assert a[0] in a;
      assert a[0] in b;
    }
    if |b| > 0 {
      assert b[0] in b;
      assert b[0] in a;
    }
    if a != [] && b != [] {
      // both heads are the least element of the common set
      HeadIsLeast(a, b[0]);
      HeadIsLeast(b, a[0]);
      forall y ensures y in a[1..] <==> y in b[1..] {
        if y in a[1..] {
          var j :| 1 <= j < |a| && a[j] == y;
          assert a[0] < a[j];
          assert y in a;
          assert y in b;
          var k :| 0 <= k < |b| && b[k] == y;
          assert b[1..][k - 1] == y;
        }
        if y in b[1..] {
          var j :| 1 <= j < |b| && b[j] == y;
          assert b[0] < b[j];
          assert y in b;
          assert y in a;
          var k :| 0 <= k < |a| && a[k] == y;
          assert a[1..][k - 1] == y;
        }
      }
      StrictlyIncreasingUnique(a[1..], b[1..]);
      assert a == [a[0]] + a[1..];
      assert b == [b[0]] + b[1..];
    }
  }

  /** The ordered ids depend only on which ids occur, not on where the rows
      are stored nor on how often an id occurs. */
  lemma SortedDistinctDependsOnlyOnElements(xs: seq<int>, ys: seq<int>)
    requires forall y :: y in xs <==> y in ys
    ensures SortedDistinct(xs) == SortedDistinct(ys)
  {
    StrictlyIncreasingUnique(SortedDistinct(xs), SortedDistinct(ys));
  }
}

/** Column sums over ordered tables.
    A table is a sequence of rows; a column is a function from a row to its
    value. The sum is taken from the last row backwards, so that appending a
    row and dropping the last row have one-step consequences. */
module Columns {

  /** Sum of column `col` over the rows of `s`. */
  function SumOf<T>(s: seq<T>, col: T -> real): real
  {
    if s == [] then 0.0 else SumOf(s[..|s| - 1], col) + col(s[|s| - 1])
  }

  /** Extending a prefix by one row adds that row's value. */
  lemma SumOfPrefixStep<T>(s: seq<T>, col: T -> real, k: nat)
    requires k < |s|
    ensures SumOf(s[..k + 1], col) == SumOf(s[..k], col) + col(s[k])
  {
    assert s[..k + 1][..k] == s[..k];
  }

  /** The sum of a concatenation is the sum of the sums. */
  lemma {:induction false} SumOfAppend<T>(s: seq<T>, t: seq<T>, col: T -> real)
    ensures SumOf(s + t, col) == SumOf(s, col) + SumOf(t, col)
  {
    if t == [] {
      assert s + t == s;
    } else {
      var u := t[..|t| - 1];
      assert (s + t)[..|s + t| - 1] == s + u;
      SumOfAppend(s, u, col);
    }
  }
}

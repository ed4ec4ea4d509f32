/** Sequence identities used by the back-recursive folds, each proved in a
    context of its own so that callers need not re-derive them. */
module SeqFacts {

  lemma AppendAssoc<T>(a: seq<T>, b: seq<T>, c: seq<T>)
    ensures a + b + c == a + (b + c)
  {
  }

  lemma AppendEmpty<T>(a: seq<T>)
    ensures a + [] == a && [] + a == a
  {
  }

  /** Dropping the last element of `init + [x]` gives back `init`. */
  lemma DropLast<T>(init: seq<T>, x: T)
    ensures (init + [x])[..|init|] == init
    ensures (init + [x])[|init|] == x
  {
  }

  /** A non-empty sequence is its prefix followed by its last element. */
  lemma SplitLast<T>(s: seq<T>)
    requires s != []
    ensures s == s[..|s| - 1] + [s[|s| - 1]]
  {
  }

  /** The prefix of length `i + 1` extends the prefix of length `i` by `s[i]`. */
  lemma TakeNext<T>(s: seq<T>, i: nat)
    requires i < |s|
    ensures s[..i + 1] == s[..i] + [s[i]]
  {
  }

  lemma TakeAll<T>(s: seq<T>)
    ensures s[..|s|] == s
  {
  }

  /** A common front keeps a prefix a prefix. */
  lemma PrefixAfter<T>(a: seq<T>, p: seq<T>, q: seq<T>)
    requires p <= q
    ensures a + p <= a + q
  {
    assert a + q == (a + p) + q[|p|..];
  }

  lemma PrefixTrans<T>(a: seq<T>, b: seq<T>, c: seq<T>)
    requires a <= b && b <= c
    ensures a <= c
  {
  }

  /** The head and tail of `a + t` for a non-empty `a`. */
  lemma ConsAppend<T>(a: seq<T>, t: seq<T>)
    requires a != []
    ensures (a + t)[0] == a[0]
    ensures (a + t)[1..] == a[1..] + t
    ensures [a[0]] + (a[1..] + t) == a + t
  {
  }

  /** Suffixes of `a[1..] + t` are suffixes of `a + t` one further on. */
  lemma SuffixShift<T>(a: seq<T>, t: seq<T>, i: nat)
    requires a != [] && i <= |a| - 1
    ensures (a[1..] + t)[i..] == (a + t)[i + 1..]
  {
  }

  /** Cutting `a + b` inside `a`. */
  lemma CutInFront<T>(a: seq<T>, b: seq<T>, n: nat)
    requires n <= |a|
    ensures (a + b)[..n] == a[..n]
    ensures (a + b)[n..] == a[n..] + b
  {
  }

  lemma DropNone<T>(s: seq<T>)
    ensures s[0..] == s
  {
  }

  /** The rows of a table laid end to end. */
  function Flatten<T>(rows: seq<seq<T>>): seq<T>
    decreases |rows|
  {
    if rows == [] then [] else Flatten(rows[..|rows| - 1]) + rows[|rows| - 1]
  }

  /** Rows of `n` cells each make `|rows| * n` elements. */
  lemma {:induction false} FlattenLength<T>(rows: seq<seq<T>>, n: nat)
    requires forall i :: 0 <= i < |rows| ==> |rows[i]| == n
    ensures |Flatten(rows)| == |rows| * n
    decreases |rows|
  {
    if rows != [] {
      var k := |rows| - 1;
      assert forall i :: 0 <= i < k ==> rows[..k][i] == rows[i];
      FlattenLength(rows[..k], n);
      MulSucc(k, n);
    }
  }

  /** With rows of `n` cells each, cell `j` of row `i` is element `i * n + j`. */
  lemma {:induction false} FlattenCell<T>(rows: seq<seq<T>>, n: nat, i: nat, j: nat)
    requires forall i :: 0 <= i < |rows| ==> |rows[i]| == n
    requires i < |rows| && j < n
    ensures i * n + j < |Flatten(rows)|
    ensures Flatten(rows)[i * n + j] == rows[i][j]
    decreases |rows|
  {
    var k := |rows| - 1;
    var init := rows[..k];
    assert forall m :: 0 <= m < k ==> init[m] == rows[m];
    FlattenLength(init, n);
    assert Flatten(rows) == Flatten(init) + rows[k];
    if i < k {
      FlattenCell(init, n, i, j);
      assert init[i] == rows[i];
    } else {
      assert i * n + j == |Flatten(init)| + j;
    }
  }

  lemma MulSucc(k: nat, n: nat)
    ensures (k + 1) * n == k * n + n
  {
  }
}

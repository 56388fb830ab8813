/** Facts about sequences used by the collection passes of the game loop. */
module Seqs {

  /** No element occurs twice: a std::vector holds its elements by value, so in a
      model whose elements are references no reference may be shared. */
  ghost predicate Distinct<T>(s: seq<T>)
  {
    forall i, j :: 0 <= i < j < |s| ==> s[i] != s[j]
  }

  /** r is obtained from s by deleting elements without reordering the rest. */
  ghost predicate IsSubsequence<T>(r: seq<T>, s: seq<T>)
    decreases |s|
  {
    r == [] ||
    (|r| <= |s| &&
     ((r[0] == s[0] && IsSubsequence(r[1..], s[1..])) || IsSubsequence(r, s[1..])))
  }

  /** A subsequence only holds elements of the original, and deleting elements
      of a sequence without repetitions leaves one without repetitions. */
  lemma {:induction false} SubsequenceDistinct<T>(r: seq<T>, s: seq<T>)
    requires IsSubsequence(r, s)
    requires Distinct(s)
    ensures Distinct(r)
    ensures forall x :: x in r ==> x in s
    decreases |s|
  {
    if r == [] {
    } else if r[0] == s[0] && IsSubsequence(r[1..], s[1..]) {
      SubsequenceDistinct(r[1..], s[1..]);
      assert s[0] !in s[1..] by {
        forall j | 0 <= j < |s[1..]| ensures s[1..][j] != s[0] {
          assert s[1..][j] == s[1 + j];
        }
      }
      forall i, j | 0 <= i < j < |r| ensures r[i] != r[j] {
        assert r[j] == r[1..][j - 1];
        if i > 0 {
          assert r[i] == r[1..][i - 1];
        } else {
          assert r[j] in s[1..];
        }
      }
      forall x | x in r ensures x in s {
        if x != r[0] {
          assert x in r[1..];
        }
      }
    } else {
      SubsequenceDistinct(r, s[1..]);
      forall x | x in r ensures x in s {
        assert x in s[1..];
      }
    }
  }

  lemma {:induction false} SubsequenceReflexive<T>(s: seq<T>)
    ensures IsSubsequence(s, s)
  {
    if s != [] {
      SubsequenceReflexive(s[1..]);
    }
  }

  lemma SubsequenceOfTail<T>(r: seq<T>, s: seq<T>)
    requires s != [] && IsSubsequence(r, s[1..])
    ensures IsSubsequence(r, s)
  {
    if r != [] {
      SubsequenceLength(r, s[1..]);
    }
  }

  lemma {:induction false} SubsequenceLength<T>(r: seq<T>, s: seq<T>)
    requires IsSubsequence(r, s)
    ensures |r| <= |s|
  {
  }

  lemma {:induction false} SubsequenceTransitive<T>(a: seq<T>, b: seq<T>, c: seq<T>)
    requires IsSubsequence(a, b) && IsSubsequence(b, c)
    ensures IsSubsequence(a, c)
    decreases |c|
  {
    if a != [] {
      SubsequenceLength(a, b);
      SubsequenceLength(b, c);
      if b[0] == c[0] && IsSubsequence(b[1..], c[1..]) {
        if a[0] == b[0] && IsSubsequence(a[1..], b[1..]) {
          SubsequenceTransitive(a[1..], b[1..], c[1..]);
        } else {
          SubsequenceTransitive(a, b[1..], c[1..]);
        }
      } else {
        SubsequenceTransitive(a, b, c[1..]);
      }
    }
  }
}

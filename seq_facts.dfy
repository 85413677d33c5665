/** Small facts about slices of sequences, kept apart so that proofs about sequences of strings need not redo them. */
module SeqFacts {
  /** Indexing a sequence with one element put in front. */
  lemma ConsIndex<T>(x: T, ys: seq<T>, i: nat)
    requires i < |ys|
    ensures ([x] + ys)[0] == x && ([x] + ys)[i + 1] == ys[i]
  {
  }

  /** The head and the tail of a concatenation whose first part is not empty. */
  lemma TailOfConcat<T>(a: seq<T>, b: seq<T>)
    requires a != []
    ensures (a + b)[0] == a[0] && (a + b)[1..] == a[1..] + b
  {
  }

  /** Concatenation is associative. */
  lemma ConcatAssoc<T>(a: seq<T>, b: seq<T>, c: seq<T>)
    ensures a + (b + c) == (a + b) + c
  {
  }

  /** A concatenation is empty exactly when both parts are. */
  lemma ConcatEmpty<T>(a: seq<T>, b: seq<T>)
    ensures a + b == [] <==> a == [] && b == []
    ensures a == [] ==> a + b == b
  {
  }

  /** A prefix of a prefix is a prefix. */
  lemma PrefixOfPrefix<T>(s: seq<T>, i: nat, j: nat)
    requires i <= j <= |s|
    ensures s[..j][..i] == s[..i]
  {
  }

  /** A prefix split in two at an earlier point. */
  lemma SplitPrefix<T>(s: seq<T>, i: nat, j: nat)
    requires i <= j <= |s|
    ensures s[..j] == s[..i] + s[i..j]
  {
  }

  /** Extending a slice by one element. */
  lemma SnocSlice<T>(a: seq<T>, b: seq<T>, j: nat)
    requires j < |b|
    ensures a + b[..j + 1] == (a + b[..j]) + [b[j]]
  {
  }

  /** The last element of a sequence that grew by one, and what was there before. */
  lemma Snoc<T>(a: seq<T>, x: T)
    ensures (a + [x])[..|a|] == a && (a + [x])[|a|] == x
  {
  }

  /** Adding an empty slice changes nothing. */
  lemma EmptySlice<T>(a: seq<T>, b: seq<T>)
    ensures a + b[..0] == a
  {
  }

  /** The slice up to the length is the whole sequence. */
  lemma WholeSlice<T>(a: seq<T>)
    ensures a[..|a|] == a
  {
  }

  /** A slice that reaches into the second part of a concatenation. */
  lemma SliceOfConcat<T>(a: seq<T>, b: seq<T>, j: nat)
    requires j <= |b|
    ensures (a + b)[..|a| + j] == a + b[..j]
  {
  }

  /** A prefix is the slice of its own length. */
  lemma PrefixIsSlice<T>(a: seq<T>, b: seq<T>)
    requires a <= b
    ensures b[..|a|] == a
  {
  }

  /** A slice one longer ends with the next element. */
  lemma SliceSnoc<T>(s: seq<T>, i: nat)
    requires i < |s|
    ensures s[..i + 1] == s[..i] + [s[i]]
  {
  }

  /** An element of a prefix is the element of the whole sequence. */
  lemma IndexOfPrefix<T>(s: seq<T>, m: nat, k: nat)
    requires k < m <= |s|
    ensures s[..m][k] == s[k]
  {
  }

  lemma SliceOfTail<T>(s: seq<T>, a: nat, b: nat)
    requires a <= b < |s|
    ensures s[1..][a..b] == s[a + 1..b + 1]
  {
  }

  lemma SliceOfInit<T>(s: seq<T>, a: nat, b: nat)
    requires a <= b < |s|
    ensures s[..|s| - 1][a..b] == s[a..b]
  {
  }

  lemma TailOfInit<T>(s: seq<T>)
    requires |s| > 1
    ensures s[..|s| - 1][1..] == s[1..][..|s| - 2]
  {
  }
}

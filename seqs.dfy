// Facts about slicing and joining sequences, stated once for any element
// type so that the solver never has to compare elements to prove them.

module Seqs {
  /** A slice one longer ends with the next element. */
  lemma TakeOneMore<T>(s: seq<T>, i: nat)
    requires i < |s|
    ensures s[..i + 1] == s[..i] + [s[i]]
  {
  }

  /** Taking everything is the whole sequence. */
  lemma TakeAll<T>(s: seq<T>)
    ensures s[..|s|] == s
  {
  }

  /** A suffix starts with its first element and goes on with the next suffix. */
  lemma DropOne<T>(s: seq<T>, i: nat)
    requires i < |s|
    ensures s[i..][0] == s[i] && s[i..][1..] == s[i + 1..]
  {
  }

  /** Dropping from a suffix drops from the sequence. */
  lemma DropDrop<T>(s: seq<T>, i: nat, n: nat)
    requires i + n <= |s|
    ensures s[i..][n..] == s[i + n..]
  {
  }

  /** A non-empty sequence is its front followed by its last element. */
  lemma DropDropAt<T>(s: seq<T>, i: nat, n: nat, j: nat)
    requires i + n == j <= |s|
    ensures s[i..][n..] == s[j..]
  {
    DropDrop(s, i, n);
  }

  lemma TakeDrop<T>(s: seq<T>, k: nat)
    requires k <= |s|
    ensures s[..k] + s[k..] == s
  {
  }

  lemma InitLast<T>(s: seq<T>)
    requires s != []
    ensures s[..|s| - 1] + [s[|s| - 1]] == s
  {
  }

  /** The front of a sequence with one more element. */
  lemma SnocInit<T>(s: seq<T>, x: T)
    ensures (s + [x])[..|s|] == s && (s + [x])[|s|] == x
  {
  }

  lemma ConsSnoc<T>(a: T, r: seq<T>, x: T)
    ensures [a] + (r + [x]) == ([a] + r) + [x]
  {
  }

  lemma SnocAssoc<T>(d: seq<T>, es: seq<T>)
    requires es != []
    ensures (d + es[..|es| - 1]) + [es[|es| - 1]] == d + es
  {
    assert es[..|es| - 1] + [es[|es| - 1]] == es;
  }

  lemma AppendAssoc<T>(a: seq<T>, b: seq<T>, c: seq<T>)
    ensures a + (b + c) == (a + b) + c
  {
  }

  /** A prefix of a prefix. */
  lemma TakeTake<T>(s: seq<T>, i: nat, j: nat)
    requires j <= i <= |s|
    ensures s[..i][..j] == s[..j]
  {
  }

  /** The front and the last element of a sequence with one more in front. */
  lemma ConsInit<T>(a: T, s: seq<T>)
    requires s != []
    ensures ([a] + s)[..|s|] == [a] + s[..|s| - 1] && ([a] + s)[|s|] == s[|s| - 1]
  {
  }

  /** The tail of a non-empty sequence with one more element. */
  lemma SnocTail<T>(s: seq<T>, x: T)
    requires s != []
    ensures (s + [x])[1..] == s[1..] + [x]
  {
  }

  lemma Pair<T>(a: T, b: T)
    ensures [a] + [b] == [a, b]
  {
  }

  lemma EmptyAppend<T>(s: seq<T>)
    ensures [] + s == s
  {
  }

  lemma AppendHead<T>(a: seq<T>, b: seq<T>)
    requires a != []
    ensures (a + b)[0] == a[0] && (a + b)[1..] == a[1..] + b
  {
  }

  /** The first element and the tail of a sequence with one in front. */
  lemma ConsParts<T>(a: T, s: seq<T>)
    ensures ([a] + s)[0] == a && ([a] + s)[1..] == s
  {
  }

  /** One element, a sequence and two more elements, followed by `r`,
      grouped from the right. */
  lemma Regroup<T>(a: T, b: seq<T>, c: T, d: T, r: seq<T>)
    ensures [a] + b + [c, d] + r == [a] + (b + ([c] + ([d] + r)))
  {
  }

  /** A non-empty sequence is its first element followed by its tail. */
  lemma HeadTail<T>(s: seq<T>)
    requires s != []
    ensures [s[0]] + s[1..] == s
  {
  }

  lemma AppendNil<T>(s: seq<T>)
    ensures s + [] == s
  {
  }
}

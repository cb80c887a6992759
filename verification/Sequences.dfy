/** What proofs about concatenation keep using. */
module Sequences {
  lemma Assoc<T>(a: seq<T>, b: seq<T>, c: seq<T>)
    ensures a + b + c == a + (b + c)
  {
  }

  lemma WithNothing<T>(s: seq<T>)
    ensures s + [] == s && [] + s == s
  {
  }

  lemma TailOfConcat<T>(a: seq<T>, b: seq<T>)
    requires a != []
    ensures (a + b)[0] == a[0] && (a + b)[1..] == a[1..] + b
  {
  }

  lemma OneMore<T>(s: seq<T>, t: seq<T>, i: nat)
    requires i < |t|
    ensures s + t[..i + 1] == s + t[..i] + [t[i]]
  {
  }

  /** What is left when one element is taken out. */
  function Without<T>(s: seq<T>, i: nat): seq<T>
    requires i < |s|
  {
    s[..i] + s[i + 1..]
  }

  /** Two queue steps in a row: what is in it and what comes in is what goes out
      and what stays. */
  lemma InOut<T>(a: seq<T>, i: seq<T>, o: seq<T>, b: seq<T>, i': seq<T>, o': seq<T>, c: seq<T>)
    requires a + i == o + b && b + i' == o' + c
    ensures a + (i + i') == o + o' + c
  {
    Assoc(a, i, i');
    Assoc(o, b, i');
    Assoc(o, o', c);
  }
}

/** Generic facts about sequence concatenation and slicing. */
module Seqs {

  lemma SplitLast<T>(s: seq<T>)
    requires s != []
    ensures s == s[..|s| - 1] + [s[|s| - 1]]
  {
  }

  lemma DropLast<T>(s: seq<T>, x: T)
    ensures (s + [x])[..|s|] == s && (s + [x])[|s|] == x
  {
  }

  /** Moving the first element of the remainder to the end of the done part
      keeps the whole. */
  lemma Regroup<T>(done: seq<T>, x: T, rest: seq<T>, remainder: seq<T>)
    requires [x] + rest == remainder
    ensures (done + [x]) + rest == done + remainder
  {
    assert (done + [x]) + rest == done + ([x] + rest);
  }

  lemma Assoc<T>(a: seq<T>, b: seq<T>, c: seq<T>)
    ensures (a + b) + c == a + (b + c)
  {
  }

  lemma Middle<T>(s: seq<T>, head: seq<T>, before: seq<T>, x: seq<T>, after: seq<T>)
    requires s == head + (before + (x + after))
    ensures |head + before| + |x| <= |s|
    ensures s[|head + before|..|head + before| + |x|] == x
  {
    assert s == (head + before) + x + after;
  }
}

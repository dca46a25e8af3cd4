/** Searching a string for a character. */
module Strings {
  /** The index of the first `c` at or after `from`, or the length. */
  function IndexOf(s: string, c: char, from: nat): (i: nat)
    requires from <= |s|
    ensures from <= i <= |s|
    decreases |s| - from
  {
    if from == |s| || s[from] == c then from else IndexOf(s, c, from + 1)
  }

  lemma {:induction false} IndexIsFirst(s: string, c: char, from: nat)
    requires from <= |s|
    ensures var i := IndexOf(s, c, from); c !in s[from..i] && (i < |s| ==> s[i] == c)
    decreases |s| - from
  {
    if from < |s| && s[from] != c {
      IndexIsFirst(s, c, from + 1);
      assert s[from..IndexOf(s, c, from)] == [s[from]] + s[from + 1..IndexOf(s, c, from)];
    }
  }

  lemma {:induction false} IndexIs(s: string, c: char, from: nat, i: nat)
    requires from <= i <= |s| && c !in s[..i] && (i < |s| ==> s[i] == c)
    ensures IndexOf(s, c, from) == i
    decreases i - from
  {
    if from < i {
      assert s[from] in s[..i];
      IndexIs(s, c, from + 1, i);
    }
  }
}

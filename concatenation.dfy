/**
 * Building a string by appending one piece per element of a sequence, left
 * to right, as a loop over a StringBuilder does. The facts here hold for
 * any per-element function `f`.
 */
module Concatenation {

  /** f(s[0]) + f(s[1]) + ... + f(s[|s| - 1]), built from the left. */
  function ConcatMap<T>(f: T -> string, s: seq<T>): (r: string)
  {
    if s == [] then "" else ConcatMap(f, s[..|s| - 1]) + f(s[|s| - 1])
  }

  /** Appending one element appends its piece. */
  lemma ConcatMapSnoc<T>(f: T -> string, s: seq<T>, x: T)
    ensures ConcatMap(f, s + [x]) == ConcatMap(f, s) + f(x)
  {
  }

  /** The pieces of a concatenation are the pieces of its parts. */
  lemma {:induction false} ConcatMapAppend<T>(f: T -> string, a: seq<T>, b: seq<T>)
    ensures ConcatMap(f, a + b) == ConcatMap(f, a) + ConcatMap(f, b)
  {
    if b == [] {
      assert a + b == a;
    } else {
      var b', last := b[..|b| - 1], b[|b| - 1];
      assert b == b' + [last];
      assert a + b == (a + b') + [last];
      calc {
        ConcatMap(f, a + b);
        { ConcatMapSnoc(f, a + b', last); }
        ConcatMap(f, a + b') + f(last);
        { ConcatMapAppend(f, a, b'); }
        (ConcatMap(f, a) + ConcatMap(f, b')) + f(last);
        ConcatMap(f, a) + (ConcatMap(f, b') + f(last));
        { ConcatMapSnoc(f, b', last); }
        ConcatMap(f, a) + ConcatMap(f, b);
      }
    }
  }
}

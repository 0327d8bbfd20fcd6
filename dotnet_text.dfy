/**
 * The two .NET string facilities the converter relies on:
 * Char.IsWhiteSpace and String.IsNullOrWhiteSpace. String.Trim, which uses
 * the same notion of white space, is defined as an independent reference so
 * that the blank-value test can be related to "empty after trimming".
 */
module DotNetText {
  import opened XmlEvents

  /**
   * Char.IsWhiteSpace: the Unicode space separators (U+0020, U+00A0, U+1680,
   * U+2000..U+200A, U+202F, U+205F, U+3000), the line and paragraph
   * separators (U+2028, U+2029), and the control characters U+0009..U+000D
   * and U+0085.
   */
  predicate IsWhiteSpace(c: char)
  {
    var k := c as int;
    || (0x09 <= k <= 0x0D) || k == 0x20 || k == 0x85 || k == 0xA0
    || k == 0x1680 || (0x2000 <= k <= 0x200A) || k == 0x2028 || k == 0x2029
    || k == 0x202F || k == 0x205F || k == 0x3000
  }

  /** Every character of `s` is white space (vacuously true of ""). */
  predicate AllWhiteSpace(s: string)
  {
    forall i :: 0 <= i < |s| ==> IsWhiteSpace(s[i])
  }

  /** String.IsNullOrWhiteSpace: null, empty, or white space only. */
  predicate IsNullOrWhiteSpace(v: Option<string>)
  {
    v.None? || AllWhiteSpace(v.value)
  }

  /** String.TrimStart(): drop the leading white space. */
  function TrimStart(s: string): string
  {
    if s != [] && IsWhiteSpace(s[0]) then TrimStart(s[1..]) else s
  }

  /** String.TrimEnd(): drop the trailing white space. */
  function TrimEnd(s: string): string
  {
    if s != [] && IsWhiteSpace(s[|s| - 1]) then TrimEnd(s[..|s| - 1]) else s
  }

  /** String.Trim(): drop white space at both ends. */
  function Trim(s: string): string
  {
    TrimEnd(TrimStart(s))
  }

  lemma {:induction false} TrimStartEmpty(s: string)
    ensures TrimStart(s) == "" <==> AllWhiteSpace(s)
  {
    if s != [] && IsWhiteSpace(s[0]) {
      TrimStartEmpty(s[1..]);
      assert AllWhiteSpace(s) <==> AllWhiteSpace(s[1..]) by {
        forall i | 0 <= i < |s[1..]| ensures s[1..][i] == s[i + 1] { }
      }
    }
  }

  lemma {:induction false} TrimStartHead(s: string)
    requires TrimStart(s) != ""
    ensures !IsWhiteSpace(TrimStart(s)[0])
  {
    if s != [] && IsWhiteSpace(s[0]) {
      TrimStartHead(s[1..]);
    }
  }

  /** TrimEnd keeps a string whose first character is not white space non-empty. */
  lemma {:induction false} TrimEndKeepsHead(s: string)
    requires s != [] && !IsWhiteSpace(s[0])
    ensures TrimEnd(s) != ""
  {
    if IsWhiteSpace(s[|s| - 1]) {
      TrimEndKeepsHead(s[..|s| - 1]);
    }
  }

  /**
   * The value test the converter applies is exactly "empty after trimming":
   * a present value is null-or-white-space if and only if Trim makes it "".
   */
  lemma BlankIffTrimmedEmpty(s: string)
    ensures IsNullOrWhiteSpace(Some(s)) <==> Trim(s) == ""
  {
    TrimStartEmpty(s);
    if TrimStart(s) != "" {
      TrimStartHead(s);
      TrimEndKeepsHead(TrimStart(s));
    }
  }
}

/** `String.prototype.trim` and cutting characters off the ends of a text. */
module Texts {

  /** The white space and line terminators that `trim` removes. */
  predicate Space(c: char) {
    || c == ' ' || c == '\t' || c == '\n' || c == '\U{000B}' || c == '\U{000C}' || c == '\r' || c == '\U{00A0}' || c == '\U{1680}'
    || '\U{2000}' <= c <= '\U{200A}' || c == '\U{2028}' || c == '\U{2029}' || c == '\U{202F}' || c == '\U{205F}'
    || c == '\U{3000}' || c == '\U{FEFF}'
  }

  function TrimEnd(s: string, drop: char -> bool): string {
    if |s| > 0 && drop(s[|s| - 1]) then TrimEnd(s[..|s| - 1], drop) else s
  }

  function TrimStart(s: string, drop: char -> bool): string {
    if |s| > 0 && drop(s[0]) then TrimStart(s[1..], drop) else s
  }

  function Trim(s: string): string {
    TrimEnd(TrimStart(s, Space), Space)
  }

  lemma {:induction false} TrimStartIsSuffix(s: string, drop: char -> bool)
    ensures var r := TrimStart(s, drop); |r| <= |s| && r == s[|s| - |r|..]
  {
    if |s| > 0 && drop(s[0]) {
      TrimStartIsSuffix(s[1..], drop);
    }
  }

  /** Trimming the end keeps every prefix that ends in a kept character. */
  lemma {:induction false} TrimEndIsPrefix(s: string, drop: char -> bool, keep: nat)
    requires keep <= |s| && (keep == 0 || !drop(s[keep - 1]))
    ensures var r := TrimEnd(s, drop); keep <= |r| <= |s| && r == s[..|r|]
  {
    if |s| > 0 && drop(s[|s| - 1]) {
      TrimEndIsPrefix(s[..|s| - 1], drop, keep);
    }
  }
}

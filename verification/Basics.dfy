/** What several modules share: optional values, sizes of sets, induction over runs, trimming text. */
module Basics {

  datatype Option<T> = None | Some(value: T)

  function Min(x: int, y: int): int { if x <= y then x else y }

  function Max(x: int, y: int): int { if x <= y then y else x }

  lemma SubsetSize<T>(a: set<T>, b: set<T>)
    requires a <= b
    ensures |a| <= |b|
  {
    assert b == a + (b - a);
  }

  /** What holds of one state and passes from each to the next holds of the later ones. */
  lemma {:induction false} Throughout(good: seq<bool>, i: nat, n: nat)
    requires i <= n < |good| && good[i] && forall j, k :: i <= j < n && k == j + 1 && good[j] ==> good[k]
    ensures good[n]
    decreases n
  {
    if i < n {
      Throughout(good, i, n - 1);
    }
  }

  /** unicode.IsSpace. */
  predicate IsSpace(c: char) {
    || '\t' <= c <= '\r' || c == ' ' || c == '\U{85}' || c == '\U{A0}' || c == '\U{1680}'
      || '\U{2000}' <= c <= '\U{200A}'
    || c == '\U{2028}' || c == '\U{2029}' || c == '\U{202F}' || c == '\U{205F}' || c == '\U{3000}'
  }

  /** The characters with the White_Space property of Unicode. */
  lemma SpacesAre(c: char)
    ensures IsSpace(c) <==>
      c in "\t\n\U{B}\U{C}\r \U{85}\U{A0}\U{1680}\U{2000}\U{2001}\U{2002}\U{2003}\U{2004}\U{2005}\U{2006}"
         + "\U{2007}\U{2008}\U{2009}\U{200A}\U{2028}\U{2029}\U{202F}\U{205F}\U{3000}"
  {
  }

  function TrimLeft(s: string, cut: char -> bool): string {
    if s != "" && cut(s[0]) then TrimLeft(s[1..], cut) else s
  }

  function TrimRight(s: string, cut: char -> bool): string {
    if s != "" && cut(s[|s| - 1]) then TrimRight(s[..|s| - 1], cut) else s
  }

  /** strings.Trim and strings.TrimSpace. */
  function Trim(s: string, cut: char -> bool): string {
    TrimRight(TrimLeft(s, cut), cut)
  }

  lemma {:induction false} TrimLeftCuts(s: string, cut: char -> bool) returns (i: nat)
    ensures i <= |s| && TrimLeft(s, cut) == s[i..] && forall k :: 0 <= k < i ==> cut(s[k])
    ensures TrimLeft(s, cut) != "" ==> !cut(TrimLeft(s, cut)[0])
  {
    i := 0;
    if s != "" && cut(s[0]) {
      i := TrimLeftCuts(s[1..], cut);
      i := i + 1;
    }
  }

  lemma {:induction false} TrimRightCuts(s: string, cut: char -> bool) returns (j: nat)
    ensures j <= |s| && TrimRight(s, cut) == s[..j] && forall k :: j <= k < |s| ==> cut(s[k])
    ensures TrimRight(s, cut) != "" ==> !cut(TrimRight(s, cut)[j - 1])
    decreases |s|
  {
    j := |s|;
    if s != "" && cut(s[j - 1]) {
      j := TrimRightCuts(s[..j - 1], cut);
    }
  }

  /** What is trimmed is what is cut at either end, and nothing more: the text from `i` to `j` stays. */
  lemma TrimCuts(s: string, cut: char -> bool) returns (i: nat, j: nat)
    ensures i <= j <= |s| && Trim(s, cut) == s[i..j]
    ensures (forall k :: 0 <= k < i ==> cut(s[k])) && forall k :: j <= k < |s| ==> cut(s[k])
    ensures i < j ==> !cut(s[i]) && !cut(s[j - 1])
  {
    i := TrimLeftCuts(s, cut);
    j := TrimRightCuts(s[i..], cut);
    j := i + j;
  }

  function TrimSpace(s: string): string {
    Trim(s, IsSpace)
  }
}

/** Types and character classes the other modules share. */
module Basics {

  datatype Option<T> = None | Some(value: T)

  type Byte = x: int | 0 <= x < 256

  function Min(a: int, b: int): int {
    if a < b then a else b
  }

  /** White space as both languages trim it, in ASCII. */
  predicate Space(c: char) {
    c in " \t\n\r" || c == '\U{000B}' || c == '\U{000C}'
  }

  predicate Blank(text: string) {
    forall c :: c in text ==> Space(c)
  }

  function Trim(t: string): string
    decreases |t|
  {
    if t != "" && Space(t[0]) then Trim(t[1..])
    else if t != "" && Space(t[|t| - 1]) then Trim(t[..|t| - 1])
    else t
  }

  /** Trimming takes white space off both ends and nothing else. */
  lemma {:induction false} TrimExactly(t: string) returns (front: string, back: string)
    ensures t == front + Trim(t) + back && Blank(front) && Blank(back)
    ensures Trim(t) != "" ==> !Space(Trim(t)[0]) && !Space(Trim(t)[|Trim(t)| - 1])
    decreases |t|
  {
    hide Space;
    front, back := "", "";
    if t != "" && Space(t[0]) {
      front, back := TrimExactly(t[1..]);
      BlankAdded(t[0], front);
      assert t == [t[0]] + t[1..];
      front := [t[0]] + front;
    } else if t != "" && Space(t[|t| - 1]) {
      front, back := TrimExactly(t[..|t| - 1]);
      BlankAdded(t[|t| - 1], back);
      assert t == t[..|t| - 1] + [t[|t| - 1]];
      back := back + [t[|t| - 1]];
    }
  }

  lemma BlankAdded(c: char, t: string)
    requires Space(c) && Blank(t)
    ensures Blank([c] + t) && Blank(t + [c])
  {
    hide Space;
  }

  /** Letter case folded, in ASCII. */
  function Fold(c: char): char {
    if 'A' <= c <= 'Z' then c - 'A' + 'a' else c
  }

  /** Two characters fold alike exactly when they are one, or one letter in two cases. */
  lemma FoldAlikeIff(a: char, b: char)
    ensures Fold(a) == Fold(b) <==>
              a == b || ('A' <= a <= 'Z' && b == a - 'A' + 'a') || ('A' <= b <= 'Z' && a == b - 'A' + 'a')
  {
  }
}

/**
 * Name normalisation. Every name the registry indexes (widget factories,
 * model factories, file types, creators) and every file extension it
 * matches is compared after lower-casing, so 'test', 'TEST' and 'Test'
 * denote the same entry.
 */
module Names {

  /** Lower-cases one ASCII capital letter and leaves every other character alone. */
  function LowerChar(c: char): char {
    if 'A' <= c <= 'Z' then (c as int - 'A' as int + 'a' as int) as char else c
  }

  /**
   * The case-folded form of a name: no ASCII capital survives, and every
   * character that is not one is kept where it was.
   */
  function Lowercase(s: string): (r: string)
    ensures |r| == |s|
    ensures forall i :: 0 <= i < |s| ==> r[i] == LowerChar(s[i])
    ensures forall i | 0 <= i < |r| :: !('A' <= r[i] <= 'Z')
    ensures forall i | 0 <= i < |s| && !('A' <= s[i] <= 'Z') :: r[i] == s[i]
  {
    seq(|s|, i requires 0 <= i < |s| => LowerChar(s[i]))
  }

  /** Two names denote the same registry key when they agree after case folding. */
  predicate SameName(a: string, b: string) {
    Lowercase(a) == Lowercase(b)
  }

  /** Case folding is idempotent: a folded name is its own key. */
  lemma LowercaseIdempotent(s: string)
    ensures Lowercase(Lowercase(s)) == Lowercase(s)
  {
  }

  /** Names of different lengths are different keys. */
  lemma LengthsDiffer(a: string, b: string)
    requires |a| != |b|
    ensures !SameName(a, b)
  {
    assert |Lowercase(a)| != |Lowercase(b)|;
  }

  /** Names that fold differently at some position are different keys. */
  lemma CharsDiffer(a: string, b: string, i: nat)
    requires i < |a| && i < |b| && LowerChar(a[i]) != LowerChar(b[i])
    ensures !SameName(a, b)
  {
    assert Lowercase(a)[i] != Lowercase(b)[i];
  }

  /** Names whose characters fold alike, position by position, are the same key. */
  lemma FoldAlike(a: string, b: string)
    requires |a| == |b| && forall i | 0 <= i < |a| :: LowerChar(a[i]) == LowerChar(b[i])
    ensures SameName(a, b)
  {
    assert Lowercase(a) == Lowercase(b);
  }
}

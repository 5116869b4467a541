/**
 How the pieces meet in `check_password`: the entropy of the password,
 evaluated with a base-2 logarithm, is what `determine_strength` labels.
 */
module Passcheck {
  import opened CharClasses
  import opened Pool
  import opened Entropy
  import opened Strength

  /** The label `determine_strength` gives the computed entropy, for a given
      base-2 logarithm. `check_password` prints it only when the brute-force
      estimate in between does not overflow. */
  function CheckLabel(pw: string, common: set<string>, log2: nat -> real): (l: Label)
    ensures l != Unknown
    ensures pw in common ==> l == Weak
  {
    DetermineStrength(pw, ToReal(CalculateEntropy(pw), log2), common).0
  }

  /** An empty password, or one made only of characters in none of the five
      classes, is labelled WEAK, whatever the logarithm. */
  lemma UnclassifiedIsWeak(pw: string, common: set<string>, log2: nat -> real)
    requires forall i :: 0 <= i < |pw| ==> !Classified(pw[i])
    ensures CheckLabel(pw, common, log2) == Weak
  {
  }

  /** A password made only of whitespace passes both guards, but its entropy
      is `length * log2(1)`, which is 0, so it is labelled WEAK too. */
  lemma WhitespaceOnlyIsWeak(pw: string, common: set<string>, log2: nat -> real)
    requires log2(1) == 0.0
    requires forall i :: 0 <= i < |pw| ==> IsSpace(pw[i])
    ensures CheckLabel(pw, common, log2) == Weak
  {
    if pw != [] {
      WhitespaceOnlyPool(pw);
    }
  }
}

/**
 `determine_strength`: a denylisted password is WEAK outright; any other
 password is labelled by its entropy against two fixed thresholds.
 */
module Strength {

  datatype Label = Weak | Acceptable | Strong | Unknown

  /** The marker shown beside the label: a red, yellow, green or white circle. */
  function Emoji(l: Label): (marker: string)
    ensures |marker| == 1
    ensures l != Unknown ==> '\U{1F534}' <= marker[0] <= '\U{1F7E2}'
  {
    match l
    case Weak => "\U{1F534}"
    case Acceptable => "\U{1F7E1}"
    case Strong => "\U{1F7E2}"
    case Unknown => "\U{26AA}"
  }

  /** Entropy, in bits, below which a password is WEAK. */
  const AcceptableFrom: real := 28.0

  /** Entropy, in bits, from which a password is STRONG. */
  const StrongFrom: real := 50.0

  /** The label and its marker, as the source returns them. */
  function DetermineStrength(pw: string, entropy: real, common: set<string>): (r: (Label, string))
    ensures r.0 != Unknown
    ensures pw in common ==> r.0 == Weak
    ensures r.1 == Emoji(r.0)
  {
    if pw in common then (Weak, Emoji(Weak))
    else if entropy < AcceptableFrom then (Weak, Emoji(Weak))
    else if entropy < StrongFrom then (Acceptable, Emoji(Acceptable))
    else if entropy >= StrongFrom then (Strong, Emoji(Strong))
    else (Unknown, Emoji(Unknown))
  }

  /** Position of a label on the scale WEAK < ACCEPTABLE < STRONG. */
  function Rank(l: Label): nat {
    match l
    case Unknown => 0
    case Weak => 1
    case Acceptable => 2
    case Strong => 3
  }

  /** The labelling by bands, as an independent statement: for a password not
      on the denylist each label holds exactly on its band of entropy. */
  lemma StrengthBands(pw: string, entropy: real, common: set<string>)
    requires pw !in common
    ensures DetermineStrength(pw, entropy, common).0 == Weak <==> entropy < 28.0
    ensures DetermineStrength(pw, entropy, common).0 == Acceptable <==> 28.0 <= entropy < 50.0
    ensures DetermineStrength(pw, entropy, common).0 == Strong <==> 50.0 <= entropy
  {
  }

  /** More entropy never gives a weaker label. */
  lemma StrengthMonotone(pw: string, e1: real, e2: real, common: set<string>)
    requires e1 <= e2
    ensures Rank(DetermineStrength(pw, e1, common).0) <= Rank(DetermineStrength(pw, e2, common).0)
  {
  }

  /** A larger denylist never gives a stronger label. */
  lemma DenylistOnlyWeakens(pw: string, entropy: real, common: set<string>, more: set<string>)
    requires common <= more
    ensures Rank(DetermineStrength(pw, entropy, more).0) <= Rank(DetermineStrength(pw, entropy, common).0)
  {
  }

  /** The four markers are distinct, so the marker determines the label. */
  lemma EmojiInjective(a: Label, b: Label)
    requires Emoji(a) == Emoji(b)
    ensures a == b
  {
  }
}

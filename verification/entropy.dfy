/**
 The decision part of `calculate_entropy`. The returned value is kept symbolic:
 `Bits(length, pool)` stands for `length * log2(pool)`, which is never
 evaluated here; `Zero` is the literal 0 the two guards return.
 */
module Entropy {
  import opened CharClasses
  import opened Pool

  datatype EntropyValue = Zero | Bits(length: nat, pool: nat)

  /** The number the symbolic value stands for, given a base-2 logarithm. */
  function ToReal(e: EntropyValue, log2: nat -> real): (r: real)
    ensures e.Zero? ==> r == 0.0
    ensures e.Bits? && log2(e.pool) == 0.0 ==> r == 0.0
  {
    match e
    case Zero => 0.0
    case Bits(length, pool) => length as real * log2(pool)
  }

  function CalculateEntropy(pw: string): (e: EntropyValue)
    ensures |pw| == 0 ==> e == Zero
    ensures e.Zero? <==> forall i :: 0 <= i < |pw| ==> !Classified(pw[i])
    ensures e.Bits? ==> e.length == |pw| >= 1 && e.pool == ClassSum(Present(pw))
    ensures e.Bits? ==> 1 <= e.pool <= 95
  {
    if |pw| == 0 then Zero
    else
      var pool := PoolSize(pw);
      PoolSizeIsClassSum(pw);
      if pool > 0 then Bits(|pw|, pool) else Zero
  }

  /** The empty password stops at the first guard. */
  lemma EntropyOfEmpty()
    ensures CalculateEntropy("") == Zero
  {
  }

  /** BEL NUL is non-empty, but neither character is in any of the five
      classes, so its pool is 0 and it stops at the second guard: `log2` is
      never applied to 0. Control characters that are whitespace, such as
      tab, are in a class and do not stop here. */
  lemma EntropyOfUnclassified()
    ensures CalculateEntropy("\U{7}\U{0}") == Zero
  {
    var ctl := "\U{7}\U{0}";
    PunctuationRanges(ctl[0]);
    PunctuationRanges(ctl[1]);
    assert !Classified(ctl[0]) && !Classified(ctl[1]);
  }

  /** A non-empty password of whitespace passes both guards with a pool of 1,
      so its entropy is `length * log2(1)`, which is 0. */
  lemma EntropyOfWhitespace()
    ensures CalculateEntropy(" ") == Bits(1, 1)
  {
    assert InClass(" "[0], Space);
    WhitespaceOnlyPool(" ");
  }

  /** A password of whitespace only draws from a pool of 1 when non-empty. */
  lemma WhitespaceOnlyPool(pw: string)
    requires pw != []
    requires forall i :: 0 <= i < |pw| ==> IsSpace(pw[i])
    ensures PoolSize(pw) == 1
  {
    forall i, k | 0 <= i < |pw| && InClass(pw[i], k)
      ensures k == Space
    {
      ClassesDisjoint(pw[i], Space, k);
    }
    assert InClass(pw[0], Space);
  }

  /** Four characters from four classes: `4 * log2(94)` bits. */
  lemma EntropyOfFourClasses()
    ensures CalculateEntropy("Aa1!") == Bits(4, 94)
  {
    PoolSizeFourClasses();
  }
}

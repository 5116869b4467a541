/**
 The five character classes `calculate_entropy` tests a password against, and
 the number of symbols each one adds to the brute-force pool. Classification is
 the ASCII part of Python's `str.islower`, `str.isupper`, `str.isdigit`,
 membership in `string.punctuation`, and `str.isspace`.
 */
module CharClasses {

  datatype CharClass = Lower | Upper | Digit | Punct | Space

  const AllClasses: set<CharClass> := {Lower, Upper, Digit, Punct, Space}

  /** Python's `string.punctuation`: the 32 printable ASCII symbols. */
  const Punctuation: string := "!\"#$%&'()*+,-./:;<=>?@[\\]^_`{|}~"

  predicate IsLower(c: char) {
    'a' <= c <= 'z'
  }

  predicate IsUpper(c: char) {
    'A' <= c <= 'Z'
  }

  predicate IsDigit(c: char) {
    '0' <= c <= '9'
  }

  predicate IsPunct(c: char) {
    c in Punctuation
  }

  /** ASCII whitespace as Python sees it: tab through carriage return, the four
      information separators 0x1C-0x1F, and the space. */
  predicate IsSpace(c: char): (b: bool)
    ensures b <==> c in {'\t', '\n', '\U{B}', '\U{C}', '\r', '\U{1C}', '\U{1D}', '\U{1E}', '\U{1F}', ' '}
  {
    '\t' <= c <= '\r' || '\U{1C}' <= c <= '\U{1F}' || c == ' '
  }

  /** Whether `c` passes the test for class `k`. Only ASCII characters pass
      any test. */
  predicate InClass(c: char, k: CharClass): (b: bool)
    ensures b ==> c <= '\U{7F}'
  {
    PunctuationRanges(c);
    match k
    case Lower => IsLower(c)
    case Upper => IsUpper(c)
    case Digit => IsDigit(c)
    case Punct => IsPunct(c)
    case Space => IsSpace(c)
  }

  /** Number of symbols a class adds to the pool; punctuation adds
      `len(string.punctuation)`. */
  function Size(k: CharClass): (n: nat)
    ensures n > 0
    ensures k == Punct ==> n == |Punctuation|
  {
    match k
    case Lower => 26
    case Upper => 26
    case Digit => 10
    case Punct => |Punctuation|
    case Space => 1
  }

  lemma PunctuationSize()
    ensures |Punctuation| == 32
  {
  }

  /** No ASCII character is in two classes at once. */
  lemma ClassesDisjoint(c: char, k1: CharClass, k2: CharClass)
    requires InClass(c, k1) && InClass(c, k2)
    ensures k1 == k2
  {
    if IsPunct(c) {
      PunctuationRanges(c);
    }
  }

  /** The punctuation symbols are exactly the printable ASCII characters
      that are neither letters, digits nor the space. */
  lemma PunctuationRanges(c: char)
    ensures IsPunct(c) <==>
      ('!' <= c <= '/' || ':' <= c <= '@' || '[' <= c <= '`' || '{' <= c <= '~')
  {
    if '!' <= c <= '/' || ':' <= c <= '@' || '[' <= c <= '`' || '{' <= c <= '~' {
      var i := if c <= '/' then c as int - '!' as int
               else if c <= '@' then c as int - ':' as int + 15
               else if c <= '`' then c as int - '[' as int + 22
               else c as int - '{' as int + 28;
      assert Punctuation[i] == c;
    }
  }
}

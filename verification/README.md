# PassCheck decision logic in Dafny

PassCheck is a command-line password-strength checker. For each password it
works out the *character pool*: every character class that occurs at least
once adds its full size. The classes are lowercase 26, uppercase 26, digit 10,
punctuation 32 (the length of Python's `string.punctuation`) and whitespace 1.
The entropy is `length * log2(pool)`, or 0 when the password is empty or the
pool is 0. A password on the denylist is WEAK. Any other password is WEAK below
28 bits, ACCEPTABLE from 28 up to 50, and STRONG from 50. A helper,
`format_time`, writes a number of seconds as years, days, hours, minutes and
seconds, largest first. It keeps only the non-zero parts and falls back to
"0 seconds".

This project models those three pieces as pure functions and proves what they
promise:

- `CharClasses` and `Pool` hold the character classes and the pool size.
  `PoolSize` follows the source's five tests in order. It is proved equal to an
  order-free sum of the class sizes over the *set* of classes present
  (`ClassSum`). From that it follows that the pool depends only on which
  characters occur, and that it never exceeds 95.
- `Entropy` holds the two zero guards of `calculate_entropy`. The returned
  value stays symbolic: `Bits(length, pool)` stands for `length * log2(pool)`.
- `Strength` holds `determine_strength`, with entropy as an abstract `real`.
  It proves the denylist override, the three bands, monotonicity, and that the
  `UNKNOWN` fallback cannot be reached.
- `TimeFormat` holds `format_time` on whole seconds. The loop is the recursive
  `EmitFrom`. Its partner is a closed-form quotient per unit, `Quotient`. The
  proofs show that the loop emits exactly the non-zero quotients, in unit
  order, and that they recombine to the input. They also prove the bounds
  below a year (days < 365, hours < 24, minutes < 60, seconds < 60) and that
  "0 seconds" appears exactly for 0.
- `Text` holds decimal rendering and `", ".join`.
- `Passcheck` feeds the entropy to `determine_strength`, with the base-2
  logarithm as a parameter. It leaves out the brute-force estimate that
  `check_password` computes in between (see "Left out"). It proves that every
  password the guards send to 0, and every whitespace-only password, is
  labelled WEAK.

Character classes are restricted to ASCII (see "Left out"). On ASCII,
`str.isspace` is also true for the four information separators 0x1C-0x1F, and
the model includes them.

## Model

| member | source | states |
|---|---|---|
| CharClasses.IsSpace | passcheck.py:26 | a character is ASCII whitespace exactly when it is tab, line feed, vertical tab, form feed, carriage return, one of the separators 0x1C-0x1F, or the space |
| CharClasses.InClass | passcheck.py:18-26 | only ASCII characters pass any of the five class tests |
| CharClasses.Size | passcheck.py:19-27 | every class adds a positive number of symbols, and punctuation adds `len(string.punctuation)` |
| CharClasses.PunctuationSize | passcheck.py:24-25 | punctuation adds `len(string.punctuation)`, which is 32 |
| CharClasses.PunctuationRanges | passcheck.py:24 | a character is punctuation exactly when it is a printable ASCII symbol that is not a letter, a digit or the space |
| CharClasses.ClassesDisjoint | passcheck.py:18-26 | no ASCII character passes two of the five class tests |
| Pool.Occurs | passcheck.py:18-26 | the `any(...)` test holds exactly when some character of the password passes the class test |
| Pool.Present | passcheck.py:18-26 | the set of classes present holds exactly the classes that some character of the password belongs to |
| Pool.PoolSize | passcheck.py:17-27 | the pool is at most 95, and it is 0 exactly when no character of the password is in any class |
| Pool.ClassSumRemove | passcheck.py:17-27 | the set sum of class sizes can take out any member first, so it does not depend on order |
| Pool.ClassSumByClass | passcheck.py:17-27 | the set sum of class sizes is the sum of each class's size when present and 0 when absent |
| Pool.PoolSizeIsClassSum | passcheck.py:17-27 | the pool size is the sum of the sizes of the classes present |
| Pool.PoolSizeDependsOnCharacters | passcheck.py:17-27 | two passwords with the same characters, in any order and any number of times, have the same classes and the same pool |
| Pool.PoolSizeMaximum | passcheck.py:17-27 | the pool is 95 exactly when all five classes occur |
| Pool.PoolSizeOneLower | passcheck.py:18-19 | "a" has a pool of 26 |
| Pool.PoolSizeFourClasses | passcheck.py:18-25 | "Aa1!" has a pool of 26 + 26 + 10 + 32 = 94 |
| Pool.PoolSizeUnclassified | passcheck.py:17-27 | the password BEL (U+0007), whose one character is in none of the five classes, has a pool of 0 |
| Entropy.CalculateEntropy | passcheck.py:14-28 | the empty password gives 0; the guards return 0 exactly when no character is in any class (the empty password included); otherwise it is `length * log2(pool)` with length the password length and pool the class-set sum, between 1 and 95 |
| Entropy.EntropyOfEmpty | passcheck.py:15-16 | the empty password gives 0 |
| Entropy.EntropyOfUnclassified | passcheck.py:17-28 | the non-empty password BEL NUL, whose characters are in none of the five classes, stops at the second guard with 0, not `log2(0)` |
| Entropy.ToReal | passcheck.py:28 | a guarded 0 stands for 0.0, and so does `length * log2(pool)` whenever `log2(pool)` is 0 |
| Entropy.WhitespaceOnlyPool | passcheck.py:17-27 | a non-empty password of whitespace only has a pool of 1 |
| Entropy.EntropyOfWhitespace | passcheck.py:26-28 | " " passes both guards and gives `1 * log2(1)` |
| Entropy.EntropyOfFourClasses | passcheck.py:17-28 | "Aa1!" gives `4 * log2(94)` |
| Strength.DetermineStrength | passcheck.py:55-64 | a denylisted password is WEAK whatever its entropy; the UNKNOWN fallback is never returned; the marker matches the label |
| Strength.StrengthBands | passcheck.py:58-63 | off the denylist: WEAK exactly below 28, ACCEPTABLE exactly from 28 to below 50, STRONG exactly from 50 |
| Strength.StrengthMonotone | passcheck.py:58-63 | more entropy never gives a weaker label |
| Strength.DenylistOnlyWeakens | passcheck.py:56-57 | growing the denylist never gives a stronger label |
| Strength.Emoji | passcheck.py:57-64 | each marker is a single character; the markers of the three reachable labels lie in the range U+1F534..U+1F7E2 |
| Strength.EmojiInjective | passcheck.py:57-64 | each label has its own marker |
| Passcheck.CheckLabel | passcheck.py:68-70 | the label of the computed entropy is never UNKNOWN, and is WEAK for a denylisted password |
| Passcheck.UnclassifiedIsWeak | passcheck.py:68-70 | a password with no character in any class, the empty one included, is labelled WEAK for every logarithm |
| Passcheck.WhitespaceOnlyIsWeak | passcheck.py:68-70 | a password of whitespace only is labelled WEAK whenever `log2(1)` is 0 |
| Text.NatToString | passcheck.py:50 | `int(value)` renders as a non-empty string of digits, with no leading zero for a positive value, and "0" for zero |
| Text.NatToStringRoundTrip | passcheck.py:50 | reading back the digits gives the value rendered |
| Text.Join | passcheck.py:52 | a joined list starts with its first element, and a one-element list joins to that element |
| TimeFormat.IntervalsShape | passcheck.py:39-45 | the five units are years, days, hours, minutes and seconds, in that order; each is larger than and a whole multiple of the next, and the last is 1 |
| TimeFormat.Parts | passcheck.py:38-51 | the parts of a number of seconds are valid, in unit order, and recombine to that number |
| TimeFormat.Render | passcheck.py:50 | a part renders as digits, a space and the unit's name, and reading back the digits gives the part's value |
| TimeFormat.EmitFrom | passcheck.py:47-51 | each emitted part has a non-zero value and a unit at or after the current one, and the units strictly increase |
| TimeFormat.EmitFromRecombines | passcheck.py:47-51 | the emitted parts, each quotient times its unit, sum back to the loop's starting value |
| TimeFormat.RemainingStep | passcheck.py:39-51 | each unit is a whole multiple of the next, so the value left before round i + 1 is the input modulo unit i |
| TimeFormat.EmitFromValues | passcheck.py:47-51 | every part the loop emits carries the closed-form quotient of its unit |
| TimeFormat.EmitFromComplete | passcheck.py:47-51 | every unit with a non-zero closed-form quotient is emitted with that quotient |
| TimeFormat.PartsMeaning | passcheck.py:39-51 | the emitted parts are exactly the non-zero quotients, in the order years, days, hours, minutes, seconds, and recombine to the input |
| TimeFormat.NoPartsIffZero | passcheck.py:47-52 | nothing is emitted exactly for 0 whole seconds |
| TimeFormat.NoPartsIffNoQuotient | passcheck.py:47-52 | nothing is emitted exactly when every unit's quotient is 0 |
| TimeFormat.QuotientBounds | passcheck.py:39-51 | after the years there are fewer than 365 days, 24 hours, 60 minutes and 60 seconds |
| TimeFormat.JoinedStartsNonZero | passcheck.py:50-52 | the joined text of a non-empty list of parts starts with a non-zero digit |
| TimeFormat.RenderAll | passcheck.py:50 | each part is rendered as its value, a space and its unit name, in the order of the parts |
| TimeFormat.FormatTime | passcheck.py:38-52 | the text is "0 seconds" exactly when the input is 0 whole seconds |
| TimeFormat.FormatTimeZero | passcheck.py:52 | 0 seconds renders as "0 seconds" |
| TimeFormat.FormatTimeOneYear | passcheck.py:39-52 | 31536000 seconds renders as "1 years" |
| TimeFormat.PartsOfMinuteSecond | passcheck.py:39-51 | 61 seconds yields one minute and one second, and nothing for the larger units |
| TimeFormat.RenderMinuteSecond | passcheck.py:50-52 | those two parts render and join as "1 minutes, 1 seconds" |
| TimeFormat.FormatTimeMinuteSecond | passcheck.py:38-52 | 61 seconds renders as "1 minutes, 1 seconds" |

## Left out

- `load_common_passwords` (passcheck.py:7-11) reads a file. The denylist is a given `set<string>`, so a missing file is the empty set.
- `estimate_bruteforce_time` (passcheck.py:31-35) is floating-point `2 ** entropy / 1e9`. It is not modelled.
- `math.log2` in `calculate_entropy` (passcheck.py:28) is not evaluated. The entropy is the symbolic `Bits(length, pool)`, and `determine_strength` takes entropy as a `real`. So the model cannot connect a concrete password to a concrete label, except where the entropy is 0.
- Passcheck.CheckLabel: labels every password, but `check_password` reaches `determine_strength` (passcheck.py:70) only when `estimate_bruteforce_time` on line 69 returns. Its float `2 ** entropy` (passcheck.py:33) raises `OverflowError` once the entropy reaches about 1024 bits, for example 218 copies of `a` (218 * log2(26) is about 1024.7). For such passwords the source stops with an exception and prints no label, while the model still gives one. Floating point is not modelled, so the exact overflow bound is not either.
- `check_password` and `main` (passcheck.py:67-91) print and loop on console input, including the case-insensitive `exit` sentinel. Only the label that `determine_strength` gives the computed entropy is modelled (`Passcheck.CheckLabel`).
- Entropy.CalculateEntropy: `Bits(n, 1)` stands for `n * log2(1)`, which is 0.0. So a whitespace-only password also has entropy 0, although it passes both guards. The contract's "0 exactly when" is about the guards' literal 0, not about the value 0.0.
- CharClasses.InClass: the class tests are the ASCII part of Python's `str.islower`, `str.isupper`, `str.isdigit` and `str.isspace`. Python also puts many non-ASCII characters in these classes (for example, 'é' is lowercase and U+00A0 is whitespace). The model puts every non-ASCII character in no class.
- TimeFormat.FormatTime: `seconds` is a whole number of seconds (`nat`). A float input, and its fractional part (which `%` keeps and `//` then drops in the last round), is not modelled.
- Text.Join: the contract states only that the text starts with the first element and that one element joins to itself. The full `", "` layout is shown only on the worked example `TimeFormat.FormatTimeMinuteSecond`.
- `format_time` is defined in the source, but its only call, in `check_password` (passcheck.py:75), is commented out. The model still covers it.

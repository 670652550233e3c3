# Secure password generator — Dafny model

This project models `generate_password` from `password_generator.py`, the core of a
command-line password generator. The routine works in three steps:

1. It rejects a length below 1.
2. It assembles an alphabet by concatenating, in the fixed order uppercase, lowercase,
   digits, special, the character sets of the enabled categories. It rejects an empty
   alphabet.
3. It draws `length` characters from the alphabet with a cryptographically secure choice.

The model is three modules:

- `Charsets` (`charsets.dfy`) holds the four character sets as literals:
  `string.ascii_uppercase`, `string.ascii_lowercase`, `string.digits` and
  `SAFE_SPECIAL_CHARS`. Each literal is tied to an independent description by code
  point. Those descriptions show that no category repeats a character and that the
  categories are pairwise disjoint.
- `PasswordGenerator` (`generator.dfy`) holds the configuration, the two error cases,
  alphabet assembly, the draw and `GeneratePassword`.
- `GeneratorProperties` (`properties.dfy`) holds the lemmas that relate several calls or
  definitions. They cover alphabet membership, independence from assembly order and
  exclusion of disabled categories. They also show the draw is a bijection between
  in-range index sequences and passwords over the alphabet.

The secure random choice is an oracle. Its answers, in draw order, are the parameter
`draws`. `GeneratePassword` consults the first `length` of them, one per position, as the
source's loop over `range(length)` calls the choice `length` times. `DrawsFit` constrains the
answers only when the draw is actually reached, that is, when the length is at least 1 and
the alphabet is non-empty: there must be at least `length` answers, and the consulted ones
must be indices into the alphabet. The error paths consult no answer, as in the source,
where both errors are raised before any random choice is made.

The bijection result is the model's stand-in for uniformity. The alphabet has no
repeated characters (`AlphabetNoDuplicates`), so answer sequences that differ among their
first `length` entries give distinct passwords (`DistinctDrawsDistinctPasswords`). Every
password over the alphabet is reachable (`EveryPasswordReachable`). So if each index is
uniform and independent, each password of the requested length is equally likely.

`SAFE_SPECIAL_CHARS` (`password_generator.py:13`) has 26 characters:
`!@#$%^&*()_+-=[]{}|;:,.<>?`, so the full alphabet has 26 + 26 + 10 + 26 = 88 characters.
The safe set is exactly the 32 printable ASCII punctuation characters minus six: double
quote, single quote, backslash, backtick, slash and tilde (`Charsets.InCategory`).

## Model

| member | source | states |
|---|---|---|
| Charsets.CategorySizes | password_generator.py:38-46 | uppercase and lowercase contribute 26 characters each, digits 10, the safe special set 26 |
| Charsets.RunMembers | password_generator.py:39-44 | a block of consecutive code points contains exactly the characters in its range, each once |
| Charsets.UppercaseIsRun | password_generator.py:39-40 | the uppercase set is the consecutive code points from `A` |
| Charsets.LowercaseIsRun | password_generator.py:41-42 | the lowercase set is the consecutive code points from `a` |
| Charsets.DigitsIsRun | password_generator.py:43-44 | the digit set is the consecutive code points from `0` |
| Charsets.SpecialCharsAreSafePunctuation | password_generator.py:12-13 | every character of the safe special set is printable ASCII punctuation other than `"`, `'`, `\`, backtick, `/` and `~` |
| Charsets.SafePunctuationIsSpecialChar | password_generator.py:12-13 | every printable ASCII punctuation character other than those six is in the safe special set |
| Charsets.SpecialCharsNoDuplicates | password_generator.py:12-13 | the safe special set repeats no character |
| Charsets.SpecialMembers | password_generator.py:12-13 | the safe special set is exactly the printable ASCII punctuation except `"`, `'`, `\`, backtick, `/` and `~`, with no character repeated |
| Charsets.CategoryMembers | password_generator.py:38-46 | each category's set contains exactly the characters of its code-point description, with no repeats |
| Charsets.CategoriesDisjoint | password_generator.py:38-46 | no character belongs to two different categories |
| Charsets.SafeSpecialExcludesQuoting | password_generator.py:12-13 | the safe special set contains no single quote, double quote, backslash or backtick |
| PasswordGenerator.Alphabet | password_generator.py:37-46 | the alphabet length is 26·[upper] + 26·[lower] + 10·[digits] + 26·[special], so it is non-empty exactly when some category is enabled |
| PasswordGenerator.Draw | password_generator.py:51-52 | the drawn string has one character per oracle answer, and position i holds the alphabet character at the i-th answer |
| PasswordGenerator.GeneratePassword | password_generator.py:16-54 | a length below 1 is the length error whatever the flags; otherwise no enabled category is the empty-alphabet error; on success the password has exactly `length` characters, one per consulted answer, and position i is the alphabet character at the i-th answer |
| GeneratorProperties.AlphabetMembers | password_generator.py:37-46 | a character is in the alphabet exactly when an enabled category contains it |
| GeneratorProperties.AlphabetNoDuplicates | password_generator.py:37-46 | the assembled alphabet never repeats a character |
| GeneratorProperties.AlphabetOrderIndependent | password_generator.py:37-46 | assembling the enabled categories in any order that lists all four gives an alphabet with the same characters |
| GeneratorProperties.OutputInEnabledCategories | password_generator.py:37-52 | every character of a generated password belongs to an enabled category |
| GeneratorProperties.DisabledCategoryAbsent | password_generator.py:37-52 | no character of a switched-off category appears in a generated password |
| GeneratorProperties.DigitsOnly | password_generator.py:43-52 | with only digits enabled and length at least 1, generation succeeds and every character is between `0` and `9` |
| GeneratorProperties.DefaultPassword | password_generator.py:16-17 | the default settings succeed with a 16-character password over an 88-character alphabet |
| GeneratorProperties.DrawDrawsFor | password_generator.py:51-52 | drawing with the indices recovered from a password over the alphabet gives that password back |
| GeneratorProperties.DrawsForDraw | password_generator.py:51-52 | over an alphabet without repeats, the indices are recovered exactly from the drawn password |
| GeneratorProperties.EveryPasswordReachable | password_generator.py:48-54 | with a valid configuration, every string of the requested length over the alphabet is produced by some oracle answers |
| GeneratorProperties.DistinctDrawsDistinctPasswords | password_generator.py:51-54 | with a valid configuration, answer sequences that differ among their first `length` entries always produce different passwords |

## Left out

- Randomness quality (uniformity, independence and unpredictability of `secrets.choice`) is a probabilistic property of a foreign library. The choice is an oracle supplying in-range indices, and the bijection lemmas above carry uniform indices over to uniform passwords.
- `main` and the argparse setup (`password_generator.py:57-134`) are command-line glue: flag parsing, help text, printing, the count check and exit codes.
- Batches requested with `--number` repeat independent, stateless calls, so they add nothing beyond the single-call contract.
- Python's `string` module is not modelled as a library. Its three constants are written out as literals.
- The Python argument `length` may be any integer. The model uses an unbounded `int`, so a very large length is not modelled as exhausting memory.

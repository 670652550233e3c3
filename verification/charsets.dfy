/**
 The four fixed ASCII character categories a password alphabet is assembled
 from: the contents of Python's `string.ascii_uppercase`,
 `string.ascii_lowercase` and `string.digits`, written out as literals, and
 the generator's own `SAFE_SPECIAL_CHARS`.

 Each literal is related to an independent characterisation of its category
 (a range or a class of ASCII code points), and from those the categories are
 shown to be free of repeated characters and pairwise disjoint.
 */
module Charsets {

  /** The character categories, in the order the generator concatenates them. */
  datatype Category = Upper | Lower | Digit | Special

  const AsciiUppercase: string := "ABCDEFGHIJKLMNOPQRSTUVWXYZ"
  const AsciiLowercase: string := "abcdefghijklmnopqrstuvwxyz"
  const AsciiDigits: string := "0123456789"

  /** The punctuation the generator treats as safe to place in a password. */
  const SafeSpecialChars: string := "!@#$%^&*()_+-=[]{}|;:,.<>?"

  /** The literal character set of a category. */
  function Chars(k: Category): string
  {
    match k
    case Upper => AsciiUppercase
    case Lower => AsciiLowercase
    case Digit => AsciiDigits
    case Special => SafeSpecialChars
  }

  /** Printable ASCII punctuation: the visible characters that are neither letters nor digits. */
  predicate IsAsciiPunctuation(c: char)
  {
    ('!' <= c <= '/') || (':' <= c <= '@') || ('[' <= c <= '`') || ('{' <= c <= '~')
  }

  /** Punctuation that is awkward inside shell words or quoted strings, or easily misread. */
  predicate IsUnsafePunctuation(c: char)
  {
    c == '"' || c == '\'' || c == '\\' || c == '`' || c == '/' || c == '~'
  }

  /** Category membership stated by code point, independently of the literals. */
  predicate InCategory(k: Category, c: char)
  {
    match k
    case Upper => 'A' <= c <= 'Z'
    case Lower => 'a' <= c <= 'z'
    case Digit => '0' <= c <= '9'
    case Special => IsAsciiPunctuation(c) && !IsUnsafePunctuation(c)
  }

  /** No character occurs twice in `s`. */
  predicate NoDuplicates(s: string)
  {
    forall i, j :: 0 <= i < j < |s| ==> s[i] != s[j]
  }

  /** The number of characters each category contributes to an alphabet. */
  lemma CategorySizes()
    ensures |Chars(Upper)| == 26
    ensures |Chars(Lower)| == 26
    ensures |Chars(Digit)| == 10
    ensures |Chars(Special)| == 26
  {
  }

  /** A contiguous block of code points starting at `first`, listed in order. */
  predicate IsRun(s: string, first: char)
  {
    forall i :: 0 <= i < |s| ==> s[i] as int == first as int + i
  }

  /** A run contains exactly the code points from its first character on, and repeats none. */
  lemma RunMembers(s: string, first: char)
    requires IsRun(s, first)
    ensures forall c :: c in s <==> first as int <= c as int < first as int + |s|
    ensures NoDuplicates(s)
  {
    forall c | first as int <= c as int < first as int + |s|
      ensures c in s
    {
      var i := c as int - first as int;
      assert s[i] == c;
    }
  }

  lemma UppercaseIsRun()
    ensures IsRun(AsciiUppercase, 'A')
  {
  }

  lemma LowercaseIsRun()
    ensures IsRun(AsciiLowercase, 'a')
  {
  }

  lemma DigitsIsRun()
    ensures IsRun(AsciiDigits, '0')
  {
  }

  /** Every safe special character is ASCII punctuation outside the unsafe six. */
  lemma SpecialCharsAreSafePunctuation()
    ensures forall i :: 0 <= i < |SafeSpecialChars| ==> InCategory(Special, SafeSpecialChars[i])
  {
  }

  /** Every ASCII punctuation character outside the unsafe six is a safe special character. */
  lemma SafePunctuationIsSpecialChar()
    ensures forall c :: InCategory(Special, c) ==> c in SafeSpecialChars
  {
  }

  /** A string repeats nothing when some key maps each of its characters back to its own position. */
  lemma KeyedNoDuplicates(s: string, key: char -> int)
    requires forall i :: 0 <= i < |s| ==> key(s[i]) == i
    ensures NoDuplicates(s)
  {
    forall i, j | 0 <= i < j < |s|
      ensures s[i] != s[j]
    {
      assert key(s[i]) == i && key(s[j]) == j;
    }
  }

  /** The position of each safe special character within `SafeSpecialChars`, and -1 for any other character. */
  function SpecialPosition(c: char): int
  {
    match c
    case '!' => 0
    case '@' => 1
    case '#' => 2
    case '$' => 3
    case '%' => 4
    case '^' => 5
    case '&' => 6
    case '*' => 7
    case '(' => 8
    case ')' => 9
    case '_' => 10
    case '+' => 11
    case '-' => 12
    case '=' => 13
    case '[' => 14
    case ']' => 15
    case '{' => 16
    case '}' => 17
    case '|' => 18
    case ';' => 19
    case ':' => 20
    case ',' => 21
    case '.' => 22
    case '<' => 23
    case '>' => 24
    case '?' => 25
    case _ => -1
  }

  lemma SpecialCharsNoDuplicates()
    ensures NoDuplicates(SafeSpecialChars)
  {
    assert forall i :: 0 <= i < |SafeSpecialChars| ==> SpecialPosition(SafeSpecialChars[i]) == i;
    KeyedNoDuplicates(SafeSpecialChars, SpecialPosition);
  }

  /** The safe special characters are exactly the ASCII punctuation minus the unsafe six, each once. */
  lemma SpecialMembers()
    ensures forall c :: c in SafeSpecialChars <==> InCategory(Special, c)
    ensures NoDuplicates(SafeSpecialChars)
  {
    SpecialCharsAreSafePunctuation();
    SafePunctuationIsSpecialChar();
    SpecialCharsNoDuplicates();
  }

  /** Every category's literal holds exactly the characters of that category, each once. */
  lemma CategoryMembers(k: Category)
    ensures forall c :: c in Chars(k) <==> InCategory(k, c)
    ensures NoDuplicates(Chars(k))
  {
    match k
    case Upper => UppercaseIsRun(); RunMembers(AsciiUppercase, 'A');
    case Lower => LowercaseIsRun(); RunMembers(AsciiLowercase, 'a');
    case Digit => DigitsIsRun(); RunMembers(AsciiDigits, '0');
    case Special => SpecialMembers();
  }

  /** No character belongs to two different categories. */
  lemma CategoriesDisjoint(k1: Category, k2: Category, c: char)
    requires k1 != k2
    ensures !(c in Chars(k1) && c in Chars(k2))
  {
    CategoryMembers(k1);
    CategoryMembers(k2);
  }

  /** The safe special characters contain no quote, backslash or backtick. */
  lemma SafeSpecialExcludesQuoting()
    ensures '\'' !in SafeSpecialChars && '"' !in SafeSpecialChars
    ensures '\\' !in SafeSpecialChars && '`' !in SafeSpecialChars
  {
    SpecialCharsAreSafePunctuation();
  }
}

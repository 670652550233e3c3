/**
 Properties of the generator that relate several calls or several definitions:
 what the alphabet contains and that it is independent of the order of
 assembly, that disabled categories never appear in a password, and that the
 draw is a bijection between in-range index sequences and passwords over the
 alphabet, so uniformly chosen indices give uniformly chosen passwords.
 */
module GeneratorProperties {
  import opened Charsets
  import opened PasswordGenerator

  /** A character is in the alphabet exactly when some enabled category contains it. */
  lemma AlphabetMembers(cfg: Config, c: char)
    ensures c in Alphabet(cfg) <==>
      (cfg.useUppercase && InCategory(Upper, c)) || (cfg.useLowercase && InCategory(Lower, c)) ||
      (cfg.useDigits && InCategory(Digit, c)) || (cfg.useSpecial && InCategory(Special, c))
  {
    CategoryMembers(Upper);
    CategoryMembers(Lower);
    CategoryMembers(Digit);
    CategoryMembers(Special);
  }

  /** Concatenating two repetition-free, disjoint strings repeats nothing. */
  lemma ConcatNoDuplicates(a: string, b: string)
    requires NoDuplicates(a) && NoDuplicates(b)
    requires forall c :: c in a ==> c !in b
    ensures NoDuplicates(a + b)
  {
    forall i, j | 0 <= i < j < |a + b|
      ensures (a + b)[i] != (a + b)[j]
    {
      if j >= |a| && i < |a| {
        assert (a + b)[i] in a;
        assert (a + b)[j] == b[j - |a|];
      }
    }
  }

  /** Each character occurs at most once in the alphabet, so each has exactly one index. */
  lemma AlphabetNoDuplicates(cfg: Config)
    ensures NoDuplicates(Alphabet(cfg))
  {
    CategoryMembers(Upper);
    CategoryMembers(Lower);
    CategoryMembers(Digit);
    CategoryMembers(Special);
    var a1 := Extend("", cfg, Upper);
    var a2 := Extend(a1, cfg, Lower);
    var a3 := Extend(a2, cfg, Digit);
    assert forall c :: c in a1 ==> InCategory(Upper, c);
    if cfg.useLowercase { ConcatNoDuplicates(a1, Chars(Lower)); }
    assert forall c :: c in a2 ==> InCategory(Upper, c) || InCategory(Lower, c);
    if cfg.useDigits { ConcatNoDuplicates(a2, Chars(Digit)); }
    assert forall c :: c in a3 ==> InCategory(Upper, c) || InCategory(Lower, c) || InCategory(Digit, c);
    if cfg.useSpecial { ConcatNoDuplicates(a3, Chars(Special)); }
  }

  /** The alphabet assembled with the categories taken in an arbitrary order. */
  function AlphabetInOrder(cfg: Config, order: seq<Category>): string
  {
    if |order| == 0 then ""
    else Extend("", cfg, order[0]) + AlphabetInOrder(cfg, order[1..])
  }

  /** Whatever order the categories are assembled in, the alphabet holds the same characters. */
  lemma AlphabetOrderIndependent(cfg: Config, order: seq<Category>, c: char)
    requires forall k: Category :: k in order
    ensures c in AlphabetInOrder(cfg, order) <==> c in Alphabet(cfg)
  {
    InOrderMembers(cfg, order, c);
    AlphabetMembers(cfg, c);
    assert Upper in order && Lower in order && Digit in order && Special in order;
    CategoryMembers(Upper);
    CategoryMembers(Lower);
    CategoryMembers(Digit);
    CategoryMembers(Special);
  }

  /** A character is in an order-built alphabet when some enabled category listed in `order` contains it. */
  lemma {:induction false} InOrderMembers(cfg: Config, order: seq<Category>, c: char)
    ensures c in AlphabetInOrder(cfg, order) <==>
      exists j :: 0 <= j < |order| && Enabled(cfg, order[j]) && c in Chars(order[j])
  {
    if |order| > 0 {
      InOrderMembers(cfg, order[1..], c);
      if c in AlphabetInOrder(cfg, order[1..]) {
        var j :| 0 <= j < |order[1..]| && Enabled(cfg, order[1..][j]) && c in Chars(order[1..][j]);
        assert order[j + 1] == order[1..][j];
      }
      if exists j :: 0 <= j < |order| && Enabled(cfg, order[j]) && c in Chars(order[j]) {
        var j :| 0 <= j < |order| && Enabled(cfg, order[j]) && c in Chars(order[j]);
        if j > 0 { assert order[1..][j - 1] == order[j]; }
      }
    }
  }

  /** Every character of a generated password lies in an enabled category. */
  lemma OutputInEnabledCategories(cfg: Config, draws: seq<nat>)
    requires DrawsFit(cfg, draws)
    ensures GeneratePassword(cfg, draws).Ok? ==>
      forall i :: 0 <= i < cfg.length ==>
        exists k :: Enabled(cfg, k) && InCategory(k, GeneratePassword(cfg, draws).value[i])
  {
    var r := GeneratePassword(cfg, draws);
    if r.Ok? {
      forall i | 0 <= i < cfg.length
        ensures exists k :: Enabled(cfg, k) && InCategory(k, r.value[i])
      {
        AlphabetMembers(cfg, r.value[i]);
      }
    }
  }

  /** A switched-off category contributes no character to any generated password. */
  lemma DisabledCategoryAbsent(cfg: Config, draws: seq<nat>, k: Category)
    requires DrawsFit(cfg, draws)
    requires !Enabled(cfg, k)
    ensures GeneratePassword(cfg, draws).Ok? ==>
      forall i :: 0 <= i < cfg.length ==> GeneratePassword(cfg, draws).value[i] !in Chars(k)
  {
    var r := GeneratePassword(cfg, draws);
    if r.Ok? {
      forall i | 0 <= i < cfg.length
        ensures r.value[i] !in Chars(k)
      {
        var c := r.value[i];
        AlphabetMembers(cfg, c);
        CategoryMembers(k);
        CategoryMembers(Upper);
        CategoryMembers(Lower);
        CategoryMembers(Digit);
        CategoryMembers(Special);
      }
    }
  }

  /** With only digits enabled, a password of length one or more consists of decimal digits. */
  lemma DigitsOnly(n: int, draws: seq<nat>)
    requires DrawsFit(Config(n, false, false, true, false), draws)
    requires n >= 1
    ensures GeneratePassword(Config(n, false, false, true, false), draws).Ok?
    ensures forall i :: 0 <= i < n ==>
      '0' <= GeneratePassword(Config(n, false, false, true, false), draws).value[i] <= '9'
  {
  }

  /** The default settings give a 16-character password over all four categories. */
  lemma DefaultPassword(draws: seq<nat>)
    requires DrawsFit(DefaultConfig, draws)
    ensures GeneratePassword(DefaultConfig, draws).Ok?
    ensures |GeneratePassword(DefaultConfig, draws).value| == 16
    ensures |Alphabet(DefaultConfig)| == 88
  {
  }

  /** The first index at which `c` occurs in `s`. */
  function IndexOf(s: string, c: char): (i: nat)
    requires c in s
    ensures i < |s| && s[i] == c
    ensures forall j :: 0 <= j < i ==> s[j] != c
  {
    if s[0] == c then 0 else 1 + IndexOf(s[1..], c)
  }

  /** The oracle answers that make the draw produce `password`. */
  function DrawsFor(alphabet: string, password: string): (draws: seq<nat>)
    requires forall i :: 0 <= i < |password| ==> password[i] in alphabet
    ensures |draws| == |password|
    ensures forall i :: 0 <= i < |draws| ==> draws[i] < |alphabet| && alphabet[draws[i]] == password[i]
  {
    seq(|password|, i requires 0 <= i < |password| => IndexOf(alphabet, password[i]))
  }

  /** Drawing the indices recovered from a password gives the password back. */
  lemma DrawDrawsFor(alphabet: string, password: string)
    requires forall i :: 0 <= i < |password| ==> password[i] in alphabet
    ensures Draw(alphabet, DrawsFor(alphabet, password)) == password
  {
  }

  /** Over a repetition-free alphabet, the indices are recovered from the drawn password. */
  lemma DrawsForDraw(alphabet: string, draws: seq<nat>)
    requires NoDuplicates(alphabet)
    requires forall i :: 0 <= i < |draws| ==> draws[i] < |alphabet|
    ensures DrawsFor(alphabet, Draw(alphabet, draws)) == draws
  {
  }

  /** Every string of the requested length over the alphabet is a possible password. */
  lemma EveryPasswordReachable(cfg: Config, password: string)
    requires cfg.length >= 1 && SomeEnabled(cfg)
    requires |password| == cfg.length
    requires forall i :: 0 <= i < |password| ==> password[i] in Alphabet(cfg)
    ensures exists draws :: DrawsFit(cfg, draws) && GeneratePassword(cfg, draws) == Ok(password)
  {
    var draws := DrawsFor(Alphabet(cfg), password);
    DrawDrawsFor(Alphabet(cfg), password);
    assert draws[..cfg.length] == draws;
    assert DrawsFit(cfg, draws);
  }

  /** Answers that differ somewhere in the consulted prefix always give different passwords, so the draw loses no randomness. */
  lemma DistinctDrawsDistinctPasswords(cfg: Config, d1: seq<nat>, d2: seq<nat>)
    requires cfg.length >= 1 && SomeEnabled(cfg)
    requires DrawsFit(cfg, d1) && DrawsFit(cfg, d2)
    requires d1[..cfg.length] != d2[..cfg.length]
    ensures GeneratePassword(cfg, d1) != GeneratePassword(cfg, d2)
  {
    AlphabetNoDuplicates(cfg);
    DrawsForDraw(Alphabet(cfg), d1[..cfg.length]);
    DrawsForDraw(Alphabet(cfg), d2[..cfg.length]);
  }
}

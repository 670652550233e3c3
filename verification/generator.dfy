/**
 The password generator: validate the requested length, assemble the alphabet
 from the enabled categories in a fixed order, then draw `length` characters
 from it.

 The secure random choice is not modelled as randomness. It is an oracle that
 answers each draw with an index into the alphabet; the sequence of its
 answers, in draw order, is the parameter `draws`.
 */
module PasswordGenerator {
  import opened Charsets

  /** The per-call settings: requested length and the four category switches. */
  datatype Config = Config(
    length: int,
    useUppercase: bool,
    useLowercase: bool,
    useDigits: bool,
    useSpecial: bool)

  /** The two ways a request is rejected. */
  datatype GenError =
    | InvalidLength   // length below 1
    | EmptyAlphabet   // no category enabled

  datatype Result<T> = Ok(value: T) | Err(error: GenError)

  /** The settings used when the caller gives none. */
  const DefaultConfig: Config := Config(16, true, true, true, true)

  /** Whether `cfg` switches category `k` on. */
  predicate Enabled(cfg: Config, k: Category)
  {
    match k
    case Upper => cfg.useUppercase
    case Lower => cfg.useLowercase
    case Digit => cfg.useDigits
    case Special => cfg.useSpecial
  }

  predicate SomeEnabled(cfg: Config)
  {
    cfg.useUppercase || cfg.useLowercase || cfg.useDigits || cfg.useSpecial
  }

  /** One step of alphabet assembly: append a category's characters when it is switched on. */
  function Extend(characters: string, cfg: Config, k: Category): string
  {
    if Enabled(cfg, k) then characters + Chars(k) else characters
  }

  /** The alphabet, built as the enabled categories concatenated in the order upper, lower, digits, special. */
  function Alphabet(cfg: Config): (a: string)
    ensures |a| == (if cfg.useUppercase then 26 else 0) + (if cfg.useLowercase then 26 else 0)
                 + (if cfg.useDigits then 10 else 0) + (if cfg.useSpecial then 26 else 0)
    ensures |a| > 0 <==> SomeEnabled(cfg)
  {
    CategorySizes();
    Extend(Extend(Extend(Extend("", cfg, Upper), cfg, Lower), cfg, Digit), cfg, Special)
  }

  /**
   The oracle's answers: once drawing is reached, at least one answer per position, each of the
   first `length` in range of the alphabet; later answers are never consulted, and on an error
   path none is.
   */
  predicate DrawsFit(cfg: Config, draws: seq<nat>)
  {
    cfg.length >= 1 && |Alphabet(cfg)| > 0 ==>
      |draws| >= cfg.length && forall i :: 0 <= i < cfg.length ==> draws[i] < |Alphabet(cfg)|
  }

  /** Turns the oracle's indices, in order, into the characters they select. */
  function Draw(alphabet: string, draws: seq<nat>): (password: string)
    requires forall i :: 0 <= i < |draws| ==> draws[i] < |alphabet|
    ensures |password| == |draws|
    ensures forall i :: 0 <= i < |draws| ==> password[i] == alphabet[draws[i]]
  {
    if |draws| == 0 then ""
    else [alphabet[draws[0]]] + Draw(alphabet, draws[1..])
  }

  /** Validate, assemble the alphabet, reject an empty one, then draw `length` characters. */
  function GeneratePassword(cfg: Config, draws: seq<nat>): (r: Result<string>)
    requires DrawsFit(cfg, draws)
    ensures r == Err(InvalidLength) <==> cfg.length < 1
    ensures r == Err(EmptyAlphabet) <==> cfg.length >= 1 && !SomeEnabled(cfg)
    ensures r.Ok? ==> |r.value| == cfg.length
    ensures r.Ok? ==> forall i :: 0 <= i < |r.value| ==> r.value[i] == Alphabet(cfg)[draws[i]]
  {
    if cfg.length < 1 then Err(InvalidLength)
    else
      var characters := Alphabet(cfg);
      if |characters| == 0 then Err(EmptyAlphabet)
      else Ok(Draw(characters, draws[..cfg.length]))
  }
}

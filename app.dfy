/**
  Password evaluation: keyspace size, entropy with the dictionary penalty, strength tier,
  recommendations, and the empty-password guard of the evaluation endpoint.

  The dictionary is passed explicitly as `commonPasswords`. The base-2 logarithm is a
  parameter `log2`; the general lemmas assume only `Log2Law` of it, and the worked
  examples and the overflow lemmas assume true numeric bounds on its value at one
  argument.
 */
module App {
  import opened Wrappers
  import opened AsciiText
  import PasswordsSet

  // ---------------------------------------------------------------------------
  // The logarithm

  /** What the model assumes of `math.log2` on positive integers: it is 0 at 1 and
      non-decreasing. */
  ghost predicate Log2Law(log2: int -> real) {
    && log2(1) == 0.0
    && forall a, b :: 1 <= a <= b ==> log2(a) <= log2(b)
  }

  lemma Log2NonNegative(log2: int -> real, n: int)
    requires Log2Law(log2) && 1 <= n
    ensures 0.0 <= log2(n)
  {
  }

  // ---------------------------------------------------------------------------
  // Character classes and the keyspace size

  const LOWERCASE_WEIGHT := 26
  const UPPERCASE_WEIGHT := 26
  const DIGIT_WEIGHT := 10
  const SYMBOL_WEIGHT := 32

  /** `re.search(r'[a-z]', password)` finds a match. */
  predicate HasLower(p: string) { exists i :: 0 <= i < |p| && IsLowerAscii(p[i]) }

  /** `re.search(r'[A-Z]', password)` finds a match. */
  predicate HasUpper(p: string) { exists i :: 0 <= i < |p| && IsUpperAscii(p[i]) }

  /** `re.search(r'[0-9]', password)` finds a match. */
  predicate HasDigit(p: string) { exists i :: 0 <= i < |p| && IsDigitAscii(p[i]) }

  /** `re.search(r'[^a-zA-Z0-9]', password)` finds a match. */
  predicate HasSymbol(p: string) { exists i :: 0 <= i < |p| && IsSymbol(p[i]) }

  /** Two passwords that use exactly the same character classes. */
  predicate SameComposition(p: string, q: string) {
    && HasLower(p) == HasLower(q)
    && HasUpper(p) == HasUpper(q)
    && HasDigit(p) == HasDigit(q)
    && HasSymbol(p) == HasSymbol(q)
  }

  function Weight(present: bool, weight: int): int {
    if present then weight else 0
  }

  /** The keyspace size N: the weight of every class present, at least 1. It is 1 only for
      the empty password, since every character belongs to one of the four classes. */
  function Keyspace(p: string): (n: int)
    ensures 1 <= n <= 94
    ensures n == 1 <==> p == []
    ensures p != [] ==> 10 <= n
  {
    assert p != [] ==> IsLowerAscii(p[0]) || IsUpperAscii(p[0]) || IsDigitAscii(p[0]) || IsSymbol(p[0]);
    var n := Weight(HasLower(p), LOWERCASE_WEIGHT) + Weight(HasUpper(p), UPPERCASE_WEIGHT)
             + Weight(HasDigit(p), DIGIT_WEIGHT) + Weight(HasSymbol(p), SYMBOL_WEIGHT);
    Max(n, 1)
  }

  function Max(a: int, b: int): int { if a < b then b else a }

  function MaxReal(a: real, b: real): real { if a < b then b else a }

  /** `calculate_N`: adds the weight of each class present, one test at a time. */
  method CalculateN(password: string) returns (n: int)
    ensures n == Keyspace(password)
  {
    n := 0;
    if HasLower(password) {
      n := n + LOWERCASE_WEIGHT;
    }
    if HasUpper(password) {
      n := n + UPPERCASE_WEIGHT;
    }
    if HasDigit(password) {
      n := n + DIGIT_WEIGHT;
    }
    if HasSymbol(password) {
      n := n + SYMBOL_WEIGHT;
    }
    n := Max(n, 1);
  }

  /** Passwords that use the same classes have the same keyspace size. */
  lemma KeyspaceDependsOnCompositionOnly(p: string, q: string)
    requires SameComposition(p, q)
    ensures Keyspace(p) == Keyspace(q)
  {
  }

  /** A non-ASCII character, letters included, is not in `[a-zA-Z0-9]`: it counts as a
      symbol. */
  lemma NonAsciiLetterIsSymbol()
    ensures forall c: char :: 128 <= c as int ==> IsSymbol(c)
    ensures IsSymbol('ñ') && IsSymbol('É')
    ensures Keyspace("ñ") == SYMBOL_WEIGHT
  {
  }

  // ---------------------------------------------------------------------------
  // Entropy

  const DICTIONARY_PENALTY: real := 20.0

  /** The lookup key: `password.lower().strip()`. */
  function LookupKey(p: string): string {
    Strip(Lower(p))
  }

  /** The test shared by the penalty and the `in_dictionary` flag. */
  predicate InDictionary(p: string, commonPasswords: set<string>) {
    LookupKey(p) in commonPasswords
  }

  /** `L * log2(N)` before any penalty. */
  function RawEntropy(p: string, log2: int -> real): real {
    (|p| as real) * log2(Keyspace(p))
  }

  /** `calculate_entropy`: the raw entropy less the dictionary penalty, floored at 0. */
  function Entropy(p: string, commonPasswords: set<string>, log2: int -> real): (e: real)
    ensures 0.0 <= e
  {
    var penalty := if InDictionary(p, commonPasswords) then DICTIONARY_PENALTY else 0.0;
    MaxReal(RawEntropy(p, log2) - penalty, 0.0)
  }

  /** `calculate_entropy`, step by step: the product, the penalty, then the floor. */
  method CalculateEntropy(password: string, commonPasswords: set<string>, log2: int -> real)
    returns (e: real)
    ensures e == Entropy(password, commonPasswords, log2)
  {
    var l := |password|;
    var n := CalculateN(password);
    e := (l as real) * log2(n);
    assert e == RawEntropy(password, log2);
    var passwordLower := Strip(Lower(password));
    if passwordLower in commonPasswords {
      e := e - DICTIONARY_PENALTY;
    }
    e := MaxReal(e, 0.0);
  }

  /** With a lawful logarithm the penalty is the only thing the floor can cut: a password
      outside the dictionary keeps its raw entropy, one inside loses 20 bits, floored at 0. */
  lemma EntropyCases(p: string, commonPasswords: set<string>, log2: int -> real)
    requires Log2Law(log2)
    ensures 0.0 <= RawEntropy(p, log2)
    ensures !InDictionary(p, commonPasswords) ==> Entropy(p, commonPasswords, log2) == RawEntropy(p, log2)
    ensures InDictionary(p, commonPasswords) ==>
              Entropy(p, commonPasswords, log2) == MaxReal(RawEntropy(p, log2) - DICTIONARY_PENALTY, 0.0)
    ensures Entropy(p, commonPasswords, log2) <= RawEntropy(p, log2)
  {
  }

  /** For a fixed character-class composition and the same dictionary outcome, a longer
      password never has lower entropy. */
  lemma EntropyMonotoneInLength(p: string, q: string, commonPasswords: set<string>, log2: int -> real)
    requires Log2Law(log2)
    requires SameComposition(p, q) && |p| <= |q|
    requires InDictionary(p, commonPasswords) == InDictionary(q, commonPasswords)
    ensures Entropy(p, commonPasswords, log2) <= Entropy(q, commonPasswords, log2)
  {
    KeyspaceDependsOnCompositionOnly(p, q);
    RawEntropyMonotone(p, q, log2);
    FloorMonotone(RawEntropy(p, log2), RawEntropy(q, log2),
                  if InDictionary(p, commonPasswords) then DICTIONARY_PENALTY else 0.0);
  }

  /** With the keyspace fixed, raw entropy grows with length. */
  lemma RawEntropyMonotone(p: string, q: string, log2: int -> real)
    requires Log2Law(log2)
    requires Keyspace(p) == Keyspace(q) && |p| <= |q|
    ensures RawEntropy(p, log2) <= RawEntropy(q, log2)
  {
  }

  /** Subtracting the same penalty and flooring at 0 keeps the order. */
  lemma FloorMonotone(a: real, b: real, c: real)
    requires a <= b
    ensures MaxReal(a - c, 0.0) <= MaxReal(b - c, 0.0)
  {
  }

  /** The loader normalises with `strip().lower()` and the lookup with `lower().strip()`:
      a password is found in a loaded dictionary exactly when some accepted row's entry is
      its normalised form, so a listed password is found in any ASCII letter case and with
      any surrounding ASCII whitespace. */
  lemma LookupAgreesWithLoader(rows: seq<PasswordsSet.Row>, p: string)
    ensures InDictionary(p, PasswordsSet.Collected(rows))
            <==> exists k :: 0 <= k < |rows| && PasswordsSet.Accepts(rows[k])
                             && PasswordsSet.Entry(rows[k]) == Lower(Strip(p))
  {
    LowerStripCommute(p);
    PasswordsSet.CollectedMembership(rows, LookupKey(p));
  }

  /** Passwords that differ only in ASCII letter case or in surrounding ASCII whitespace
      are both found or both missed. */
  lemma LookupIgnoresCaseAndPadding(p: string, q: string, before: string, after: string,
                                    commonPasswords: set<string>)
    requires Lower(p) == Lower(q)
    requires forall k :: 0 <= k < |before| ==> IsSpace(before[k])
    requires forall k :: 0 <= k < |after| ==> IsSpace(after[k])
    ensures InDictionary(p, commonPasswords) <==> InDictionary(before + q + after, commonPasswords)
  {
    LowerStripCommute(p);
    LowerStripCommute(q);
    LowerStripCommute(before + q + after);
    StripPadded(before, q, after);
  }

  // ---------------------------------------------------------------------------
  // Strength tier

  datatype Strength = Weak | Acceptable | Strong | VeryStrong {
    /** The label the service reports. */
    function Label(): string {
      match this
      case Weak => "Débil"
      case Acceptable => "Aceptable"
      case Strong => "Fuerte"
      case VeryStrong => "Muy Fuerte"
    }

    function Rank(): nat {
      match this
      case Weak => 0
      case Acceptable => 1
      case Strong => 2
      case VeryStrong => 3
    }
  }

  /** The tier of an entropy value; exactly 40 bits is still weak. */
  function Tier(entropy: real): (s: Strength)
    ensures s == VeryStrong <==> 80.0 <= entropy
    ensures s == Strong <==> 60.0 <= entropy < 80.0
    ensures s == Acceptable <==> 40.0 < entropy < 60.0
    ensures s == Weak <==> entropy <= 40.0
  {
    if entropy >= 80.0 then VeryStrong
    else if entropy >= 60.0 then Strong
    else if entropy > 40.0 then Acceptable
    else Weak
  }

  /** Higher entropy never gives a lower tier. */
  lemma TierMonotone(e1: real, e2: real)
    requires e1 <= e2
    ensures Tier(e1).Rank() <= Tier(e2).Rank()
  {
  }

  /** The four labels are distinct, so the label determines the tier. */
  lemma LabelsDistinct(s: Strength, t: Strength)
    ensures s.Label() == t.Label() <==> s == t
  {
  }

  // ---------------------------------------------------------------------------
  // Recommendations

  const LENGTH_ADVICE := "Aumenta la longitud a al menos 8 caracteres."
  const UPPERCASE_ADVICE := "Añade al menos una mayúscula."
  const SYMBOL_ADVICE := "Incluye símbolos para mayor entropía."
  const MIN_LENGTH := 8

  /** The position of a message in the fixed order length, uppercase, symbols. */
  function AdviceRank(m: string): int {
    if m == LENGTH_ADVICE then 0
    else if m == UPPERCASE_ADVICE then 1
    else if m == SYMBOL_ADVICE then 2
    else 3
  }

  /** Only the three messages, each at most once, in their fixed order. */
  predicate InAdviceOrder(rs: seq<string>) {
    && (forall i :: 0 <= i < |rs| ==> AdviceRank(rs[i]) < 3)
    && (forall i, j :: 0 <= i < j < |rs| ==> AdviceRank(rs[i]) < AdviceRank(rs[j]))
  }

  function Recommendations(p: string): (rs: seq<string>)
    ensures LENGTH_ADVICE in rs <==> |p| < MIN_LENGTH
    ensures UPPERCASE_ADVICE in rs <==> !HasUpper(p)
    ensures SYMBOL_ADVICE in rs <==> !HasSymbol(p)
    ensures InAdviceOrder(rs)
    ensures |rs| <= 3
  {
    DistinctAdvice();
    (if |p| < MIN_LENGTH then [LENGTH_ADVICE] else [])
    + (if !HasUpper(p) then [UPPERCASE_ADVICE] else [])
    + (if !HasSymbol(p) then [SYMBOL_ADVICE] else [])
  }

  lemma DistinctAdvice()
    ensures LENGTH_ADVICE != UPPERCASE_ADVICE && LENGTH_ADVICE != SYMBOL_ADVICE
    ensures UPPERCASE_ADVICE != SYMBOL_ADVICE
    ensures AdviceRank(LENGTH_ADVICE) == 0 && AdviceRank(UPPERCASE_ADVICE) == 1
    ensures AdviceRank(SYMBOL_ADVICE) == 2
  {
  }

  /** An ordered list of the three messages repeats none of them. */
  lemma InAdviceOrderDistinct(rs: seq<string>)
    requires InAdviceOrder(rs)
    ensures forall i, j :: 0 <= i < j < |rs| ==> rs[i] != rs[j]
  {
  }

  /** Inserting a letter A-Z anywhere removes the uppercase advice; a non-ASCII capital
      such as 'É' does not, since `[A-Z]` does not match it. */
  lemma UppercaseAdviceDisappears(p: string, k: int, c: char)
    requires 0 <= k <= |p| && IsUpperAscii(c)
    ensures UPPERCASE_ADVICE !in Recommendations(p[..k] + [c] + p[k..])
  {
    var q := p[..k] + [c] + p[k..];
    assert q[k] == c;
  }

  // ---------------------------------------------------------------------------
  // check_password_strength and evaluate_password

  datatype StrengthInfo = StrengthInfo(strength: Strength, inDictionary: bool, recommendations: seq<string>)

  /** The crack-time estimate raises `2` to the entropy as a double. The largest double
      lies just below 2^1024, so `2 ** entropy` raises `OverflowError` once the entropy
      reaches 1024 bits. */
  const OVERFLOW_EXPONENT: real := 1024.0

  /** Whether computing `2 ** entropy` fails with an overflow. */
  predicate CrackTimeOverflows(entropy: real) {
    entropy >= OVERFLOW_EXPONENT
  }

  /** `check_password_strength`: `None` when the crack-time estimate overflows, which
      raises before the result is built; the estimate's value itself is not modelled. */
  method CheckPasswordStrength(password: string, entropy: real, commonPasswords: set<string>)
    returns (info: Option<StrengthInfo>)
    ensures info.None? <==> CrackTimeOverflows(entropy)
    ensures info.Some? ==>
              && info.value.strength == Tier(entropy)
              && info.value.inDictionary == InDictionary(password, commonPasswords)
              && info.value.recommendations == Recommendations(password)
  {
    var strength := Weak;
    if entropy >= 80.0 {
      strength := VeryStrong;
    } else if entropy >= 60.0 {
      strength := Strong;
    } else if entropy > 40.0 {
      strength := Acceptable;
    }
    if entropy >= OVERFLOW_EXPONENT {
      return None;
    }
    var inDict := Strip(Lower(password)) in commonPasswords;
    var recommendations := [];
    if |password| < MIN_LENGTH {
      recommendations := recommendations + [LENGTH_ADVICE];
    }
    if !HasUpper(password) {
      recommendations := recommendations + [UPPERCASE_ADVICE];
    }
    if !HasSymbol(password) {
      recommendations := recommendations + [SYMBOL_ADVICE];
    }
    info := Some(StrengthInfo(strength, inDict, recommendations));
  }

  const PASSWORD_REQUIRED := "Password requerida"

  datatype Evaluation = Evaluation(
    length: nat,
    keyspaceSize: int,
    entropyBits: real,
    strength: Strength,
    inDictionary: bool,
    recommendations: seq<string>)

  /** A rejected request, a request whose crack-time estimate overflowed (the exception
      escapes `evaluate_password`, so no result is returned), or a result. */
  datatype Response = Rejected(error: string) | Overflow | Evaluated(result: Evaluation)

  /** The outcome of one evaluation request whose `password` field is `Some` string, or
      `None` when the body or the field is absent. */
  function Evaluate(password: Option<string>, commonPasswords: set<string>, log2: int -> real): (r: Response)
    ensures r.Rejected? <==> password == None || password == Some([])
    ensures r.Rejected? ==> r.error == PASSWORD_REQUIRED
    ensures r.Overflow? <==>
              password.Some? && password.value != []
              && CrackTimeOverflows(Entropy(password.value, commonPasswords, log2))
    ensures r.Evaluated? ==>
              var p := password.value;
              var e := Entropy(p, commonPasswords, log2);
              && r.result.length == |p|
              && 10 <= r.result.keyspaceSize <= 94 && r.result.keyspaceSize == Keyspace(p)
              && 0.0 <= r.result.entropyBits < OVERFLOW_EXPONENT && r.result.entropyBits == e
              && r.result.strength == Tier(e)
              && r.result.inDictionary == InDictionary(p, commonPasswords)
              && r.result.recommendations == Recommendations(p)
  {
    match password
    case None => Rejected(PASSWORD_REQUIRED)
    case Some(p) =>
      if p == [] then Rejected(PASSWORD_REQUIRED)
      else
        var e := Entropy(p, commonPasswords, log2);
        if CrackTimeOverflows(e) then Overflow
        else Evaluated(Evaluation(|p|, Keyspace(p), e, Tier(e), InDictionary(p, commonPasswords), Recommendations(p)))
  }

  /** `evaluate_password` after the transport has extracted the `password` field. */
  method EvaluatePassword(password: Option<string>, commonPasswords: set<string>, log2: int -> real)
    returns (r: Response)
    ensures r == Evaluate(password, commonPasswords, log2)
  {
    var p := if password.Some? then password.value else [];
    if p == [] {
      return Rejected(PASSWORD_REQUIRED);
    }
    var l := |p|;
    var n := CalculateN(p);
    var entropy := CalculateEntropy(p, commonPasswords, log2);
    var info := CheckPasswordStrength(p, entropy, commonPasswords);
    if info.None? {
      return Overflow;
    }
    r := Evaluated(Evaluation(l, n, entropy, info.value.strength, info.value.inDictionary,
                              info.value.recommendations));
  }

  /** The `in_dictionary` flag is set exactly when the penalty was taken: the evaluated
      entropy is the penalised one when the flag is set and the raw one otherwise, and the
      request fails exactly when that entropy reaches the overflow exponent. */
  lemma FlagMatchesPenalty(p: string, commonPasswords: set<string>, log2: int -> real)
    requires Log2Law(log2) && p != []
    ensures var r := Evaluate(Some(p), commonPasswords, log2);
            var penalised := MaxReal(RawEntropy(p, log2) - DICTIONARY_PENALTY, 0.0);
            && !r.Rejected?
            && (r.Overflow? <==>
                  CrackTimeOverflows(if InDictionary(p, commonPasswords) then penalised else RawEntropy(p, log2)))
            && (r.Evaluated? ==>
                  r.result.entropyBits == if r.result.inDictionary then penalised else RawEntropy(p, log2))
  {
    EntropyCases(p, commonPasswords, log2);
  }

  /** A password of at most 156 characters never overflows: its entropy is at most
      156 * log2(94), below 1024 bits, given the true bound log2(94) < 6.56. */
  lemma ModerateLengthEvaluated(p: string, commonPasswords: set<string>, log2: int -> real)
    requires Log2Law(log2) && log2(94) <= 6.56
    requires 0 < |p| <= 156
    ensures Evaluate(Some(p), commonPasswords, log2).Evaluated?
  {
    var n := Keyspace(p);
    assert 1 <= n <= 94;
    assert log2(n) <= log2(94);
    Log2NonNegative(log2, n);
    ProductBound(|p| as real, log2(n), 156.0, 6.56);
    assert RawEntropy(p, log2) <= 156.0 * 6.56;
    EntropyCases(p, commonPasswords, log2);
    assert !CrackTimeOverflows(Entropy(p, commonPasswords, log2));
  }

  /** `x * y <= a * b` for non-negative factors bounded by `a` and `b`. */
  lemma ProductBound(x: real, y: real, a: real, b: real)
    requires 0.0 <= x <= a && 0.0 <= y <= b
    ensures x * y <= a * b
  {
    assert x * y <= a * y;
    assert a * y <= a * b;
  }

  /** Any password of at least 223 lower-case letters a-z reaches more than 1028 bits even
      after the dictionary penalty, given the true bound log2(26) > 4.7, so the request
      fails whatever the dictionary. */
  lemma LongLowercaseOverflows(p: string, commonPasswords: set<string>, log2: int -> real)
    requires 4.7 <= log2(26)
    requires |p| >= 223 && forall i :: 0 <= i < |p| ==> IsLowerAscii(p[i])
    ensures Evaluate(Some(p), commonPasswords, log2) == Overflow
  {
    assert IsLowerAscii(p[0]);
    assert HasLower(p) && !HasUpper(p) && !HasDigit(p) && !HasSymbol(p);
    assert Keyspace(p) == 26;
    ProductBound(223.0, 4.7, |p| as real, log2(26));
    assert RawEntropy(p, log2) >= 223.0 * 4.7;
  }

  // ---------------------------------------------------------------------------
  // Worked examples

  /** "password" in a dictionary that holds it: only lower-case letters, so N = 26; the
      penalty brings 8 * log2(26) (about 37.6 bits) down to about 17.6, which is weak. */
  lemma CommonPasswordExample(commonPasswords: set<string>, log2: int -> real)
    requires "password" in commonPasswords
    requires 4.7 <= log2(26) <= 4.71
    ensures Evaluate(Some("password"), commonPasswords, log2)
            == Evaluated(Evaluation(8, 26, 8.0 * log2(26) - DICTIONARY_PENALTY, Weak, true,
                                    [UPPERCASE_ADVICE, SYMBOL_ADVICE]))
  {
    var p := "password";
    assert IsLowerAscii(p[0]);
    assert forall i :: 0 <= i < |p| ==> IsLowerAscii(p[i]);
    assert HasLower(p) && !HasUpper(p) && !HasDigit(p) && !HasSymbol(p);
    assert Keyspace(p) == 26;
    assert Lower(p) == p;
    StripOfTrimmed(p);
    assert InDictionary(p, commonPasswords);
  }

  /** "Tr0ub4dor&3" outside the dictionary: all four classes, so N = 94 and
      11 * log2(94) (about 72.1 bits) is strong; no advice applies. */
  lemma UnlistedPassphraseExample(commonPasswords: set<string>, log2: int -> real)
    requires "tr0ub4dor&3" !in commonPasswords
    requires 6.5 <= log2(94) <= 6.6
    ensures Evaluate(Some("Tr0ub4dor&3"), commonPasswords, log2)
            == Evaluated(Evaluation(11, 94, 11.0 * log2(94), Strong, false, []))
  {
    var p := "Tr0ub4dor&3";
    assert IsUpperAscii(p[0]) && IsLowerAscii(p[1]) && IsDigitAscii(p[2]) && IsSymbol(p[9]);
    assert Keyspace(p) == 94;
    assert Lower(p) == "tr0ub4dor&3";
    StripOfTrimmed("tr0ub4dor&3");
    assert !InDictionary(p, commonPasswords);
  }
}

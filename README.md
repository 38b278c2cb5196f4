# Password entropy scoring: a Dafny model

This project models the scoring core of a small password-strength web service. The
service has two parts.

- **Loading the dictionary** (`load_dictionary`). It reads the `password` column of a
  CSV file of common passwords. Each non-blank value goes into a set after `strip()`
  and `lower()`. A missing file gives an empty set.
- **Evaluating a password.** It computes:
  - the length L;
  - the keyspace size N, which adds 26, 26, 10 and 32 for each of the classes
    `[a-z]`, `[A-Z]`, `[0-9]` and `[^a-zA-Z0-9]` that occurs, and is at least 1;
  - the entropy `L * log2(N)`, less 20 bits when `password.lower().strip()` is in the
    dictionary, and never below 0;
  - a strength tier with fixed thresholds at 80, 60 and 40, where exactly 40 is weak;
  - the `in_dictionary` flag;
  - up to three advice messages in a fixed order.

  An empty or missing password is rejected with "Password requerida". The crack-time
  estimate `2 ** entropy` is a double, so for an entropy of 1024 bits or more it raises
  `OverflowError` and the request returns no result; the model has an `Overflow`
  response for this case.

The files:

- `wrappers.dfy` holds the `Option` datatype.
- `ascii_text.dfy` (module `AsciiText`) holds the parts of Python's `str` the service
  uses, restricted to ASCII: the four regex character classes, `lower()` and `strip()`.
  It proves that `strip().lower()` (used by the loader) and `lower().strip()` (used by
  the lookup) agree.
- `passwords_set.dfy` (module `PasswordsSet`) models `load_dictionary`. `LoadDictionary`
  is a loop over the rows. It is proved equal to the reference fold `Collected`, and
  lemmas prove soundness, completeness and normalisation of the result.
- `app.dfy` (module `App`) holds the evaluation. The functions `Keyspace`, `Entropy`,
  `Tier`, `Recommendations` and `Evaluate` are the specification. The methods
  `CalculateN`, `CalculateEntropy`, `CheckPasswordStrength` and `EvaluatePassword`
  follow the source's step-by-step local-variable updates and are proved equal to them.

Modelling choices:

- **The dictionary.** The process-wide `COMMON_PASSWORDS` is an explicit
  `commonPasswords: set<string>` parameter.
- **The logarithm.** `math.log2` is a parameter `log2: int -> real`. The general lemmas
  assume only `App.Log2Law` of it: `log2(1) == 0` and `log2` is non-decreasing on
  positive integers. Non-negativity is derived from these. The two worked examples do
  not assume `Log2Law`; instead each assumes numeric bounds at one argument:
  `4.7 <= log2(26) <= 4.71` for `App.CommonPasswordExample` and
  `6.5 <= log2(94) <= 6.6` for `App.UnlistedPassphraseExample`. The two overflow
  lemmas also use a bound: `App.ModerateLengthEvaluated` assumes `Log2Law` and
  `log2(94) <= 6.56`, and `App.LongLowercaseOverflows` assumes only `4.7 <= log2(26)` of the logarithm.
  All these bounds hold for the real base-2 logarithm. Entropy and the tier
  thresholds are `real`.
- **The CSV input.** Rows are `map<string, string>`. The file is `Some(rows)` when it
  can be opened and `None` when it is missing.
- **The request.** The transport's `data.get('password', '') if data else ''` becomes an
  `Option<string>`. `None` stands for a missing body or a missing field.
- **`calculate_L`** is `|password|` wherever it is used.
- **Determinism.** Evaluation is a function, so evaluating the same password twice
  gives the same result by construction.

For plain `"password"` only the `[a-z]` weight applies, so N = 26, the raw entropy is
8·log2(26) ≈ 37.6 bits and the penalised entropy about 17.6 bits, which is weak;
`App.CommonPasswordExample` states this.

## Model

| member | source | states |
|---|---|---|
| `App.Keyspace` | password_entropy_api/app.py:19-30 | N lies between 1 and 94. N is 1 exactly for the empty password. Any non-empty password has N ≥ 10, because every character is in one of the four classes. |
| `App.CalculateN` | password_entropy_api/app.py:19-30 | The four `if` updates followed by `max(n, 1)` give exactly the keyspace size: the sum of the weights 26, 26, 10 and 32 of the classes present, at least 1. |
| `App.KeyspaceDependsOnCompositionOnly` | password_entropy_api/app.py:19-30 | Any two passwords that use the same character classes have the same N. |
| `AsciiText.ClassesPartition` | password_entropy_api/app.py:22-29 | Every character is in at least one of `[a-z]`, `[A-Z]`, `[0-9]`, `[^a-zA-Z0-9]`, and the classes are pairwise disjoint. |
| `App.NonAsciiLetterIsSymbol` | password_entropy_api/app.py:28-29 | Every character with a code point of 128 or more, letters such as 'ñ' and 'É' included, falls in the symbol class, so `"ñ"` has N = 32. |
| `App.Log2NonNegative` | password_entropy_api/app.py:36 | Under the logarithm law, log2(n) ≥ 0 for every n ≥ 1. |
| `App.Entropy` | password_entropy_api/app.py:32-40 | Entropy is never negative, whatever `log2` is: the floor at 0 comes after the 20-bit penalty for a `lower().strip()` hit. |
| `App.CalculateEntropy` | password_entropy_api/app.py:32-40 | The product, the conditional subtraction of 20 and the final `max(E, 0)` compute exactly `Entropy`. |
| `App.EntropyCases` | password_entropy_api/app.py:34-40 | With a lawful log2, raw entropy is ≥ 0. A password outside the dictionary keeps its raw entropy. One inside it gets `max(raw - 20, 0)`. Entropy never exceeds the raw value. |
| `App.RawEntropyMonotone` | password_entropy_api/app.py:34-36 | With N fixed, `L*log2(N)` does not decrease as L grows. |
| `App.EntropyMonotoneInLength` | password_entropy_api/app.py:34-40 | Take two passwords with the same character-class composition and the same dictionary outcome. The longer one has entropy at least as high. |
| `App.Tier` | password_entropy_api/app.py:44-50 | ≥ 80 is "Muy Fuerte". 60 ≤ E < 80 is "Fuerte". 40 < E < 60 is "Aceptable". E ≤ 40, including exactly 40, is "Débil". Each tier holds exactly on its interval. |
| `App.TierMonotone` | password_entropy_api/app.py:44-50 | Higher entropy never gives a lower tier. |
| `App.LabelsDistinct` | password_entropy_api/app.py:44-50 | The four reported labels are pairwise different, so the label identifies the tier. |
| `App.Recommendations` | password_entropy_api/app.py:59-65 | The length advice appears iff L < 8. The uppercase advice appears iff there is no A–Z. The symbol advice appears iff there is no character outside `[a-zA-Z0-9]`. Messages come in that fixed order, only these three, at most 3. |
| `App.InAdviceOrderDistinct` | password_entropy_api/app.py:59-65 | A list in the fixed advice order has no duplicates. |
| `App.UppercaseAdviceDisappears` | password_entropy_api/app.py:62-63 | Inserting a letter A–Z anywhere in a password removes the uppercase advice. A non-ASCII capital such as 'É' is not in `[A-Z]` and is not covered. |
| `App.CheckPasswordStrength` | password_entropy_api/app.py:42-72 | There is no result exactly when entropy ≥ 1024, where `2 ** entropy` overflows and raises. Otherwise the if/elif chain gives `Tier(entropy)`, the flag is the same `lower().strip()` membership test as the penalty, and the appended list is `Recommendations(password)`. |
| `App.Evaluate` | password_entropy_api/app.py:75-95 | An empty or missing password is rejected with "Password requerida", and nothing is computed. A non-empty password whose entropy reaches 1024 bits gets `Overflow`, the uncaught `OverflowError` of the crack-time step. Otherwise: length is L; keyspace size is N, between 10 and 94; entropy is `Entropy`, ≥ 0 and below 1024; strength is its tier; the flag is the dictionary test; recommendations are the advice list. |
| `App.EvaluatePassword` | password_entropy_api/app.py:75-95 | The guard followed by the calls to `calculate_L`, `calculate_N`, `calculate_entropy` and `check_password_strength` gives exactly `Evaluate`, including the overflow. |
| `App.FlagMatchesPenalty` | password_entropy_api/app.py:37-58 | A non-empty password is never rejected. It overflows exactly when its penalised (if listed) or raw (if not) entropy reaches 1024. When evaluated, the reported entropy is the penalised one when `in_dictionary` is set and the raw one when it is not. |
| `App.ModerateLengthEvaluated` | password_entropy_api/app.py:53 | Given `Log2Law` and log2(94) ≤ 6.56, every password of 1 to 156 characters is evaluated without overflow. |
| `App.LongLowercaseOverflows` | password_entropy_api/app.py:53 | Given log2(26) ≥ 4.7, every password of at least 223 letters a–z overflows, whatever the dictionary holds. |
| `App.LookupAgreesWithLoader` | password_entropy_api/app.py:37-38 | A password is found in a loaded dictionary iff some accepted row's entry equals its `strip().lower()` form. |
| `App.LookupIgnoresCaseAndPadding` | password_entropy_api/app.py:37-38 | Passwords that differ only in ASCII letter case and in surrounding ASCII whitespace are both found or both missed. |
| `App.CommonPasswordExample` | password_entropy_api/app.py:32-65 | `"password"` in a dictionary that holds it: length 8, N = 26, entropy `8*log2(26) - 20`, weak, flagged, advice for uppercase and symbols. |
| `App.UnlistedPassphraseExample` | password_entropy_api/app.py:32-65 | `"Tr0ub4dor&3"` not in the dictionary: length 11, N = 94, entropy `11*log2(94)`, strong, not flagged, no advice. |
| `PasswordsSet.LoadDictionary` | password_entropy_api/passwords_set.py:3-15 | A missing file gives the empty set. Otherwise the loop's set is `Collected(rows)`. Every element is non-empty and unchanged by `lower()` and `strip()`. |
| `PasswordsSet.CollectedSound` | password_entropy_api/passwords_set.py:9-11 | Every element is `strip().lower()` of the `password` field of some accepted input row. |
| `PasswordsSet.CollectedComplete` | password_entropy_api/passwords_set.py:9-11 | Every row with a non-blank `password` field has its normalised form in the set. |
| `PasswordsSet.CollectedMembership` | password_entropy_api/passwords_set.py:9-11 | Membership holds iff some accepted row has that entry, in both directions. |
| `PasswordsSet.CollectedWellFormed` | password_entropy_api/passwords_set.py:10-11 | No element is empty, and every element equals its own `lower()` and its own `strip()`. |
| `PasswordsSet.RejectedRowIgnored` | password_entropy_api/passwords_set.py:10 | A row without a `password` key, or with a blank one, changes nothing wherever it stands. |
| `PasswordsSet.VariantCollapses` | password_entropy_api/passwords_set.py:5-11 | A row with the same normalised entry as an earlier accepted row adds no entry (set semantics). |
| `PasswordsSet.VariantSameEntry` | password_entropy_api/passwords_set.py:10-11 | A row whose password differs from another's only in ASCII letter case and surrounding ASCII whitespace is accepted iff the other is, and has the same entry. |
| `PasswordsSet.EmptyWithoutAcceptedRows` | password_entropy_api/passwords_set.py:9-11 | A file with no accepted row gives the empty dictionary. |
| `AsciiText.StripFacts` | password_entropy_api/passwords_set.py:10 | `strip()` keeps a contiguous slice. Everything removed before and after it is whitespace, and the slice neither starts nor ends with whitespace. |
| `AsciiText.StripEmpty` | password_entropy_api/passwords_set.py:10 | A stripped value is empty iff every character is whitespace. This is exactly what the blank-row filter rejects. |
| `AsciiText.StripPadded` | password_entropy_api/passwords_set.py:10 | Whitespace added before and after a string does not change its `strip()`. |
| `AsciiText.StripIdempotent` | password_entropy_api/passwords_set.py:11 | Stripping twice is stripping once. |
| `AsciiText.LowerIdempotent` | password_entropy_api/passwords_set.py:11 | `lower()` keeps the length, and lowering twice is lowering once. |
| `AsciiText.LowerStripCommute` | password_entropy_api/passwords_set.py:11 | `strip().lower()` (the loader) equals `lower().strip()` (the lookup at app.py line 37). |
| `AsciiText.NormalisedForm` | password_entropy_api/passwords_set.py:11 | Both normalisation orders give a string unchanged by `lower()` and by `strip()`. |

## Left out

- Flask transport: app creation, the route, `request.get_json`, `jsonify`, HTTP status codes, CORS, the Swagger blueprint and `app.run`. These are network and UI plumbing. The model starts from the extracted `password` field.
- Non-string `password` values in the request body (a number, a list). The model's field is a string or absent.
- CSV parsing, opening the file and the `print` diagnostics. These are foreign library calls and I/O, replaced by a row sequence and a missing-file `None`. Errors other than a missing file are not modelled. Neither is a reader row whose `password` value is absent (a short row), which would make the source raise.
- The value of the crack-time estimate (the rates and the `%.2e` formatting). This is floating-point numerics and string formatting. Only the overflow of `2 ** entropy` at 1024 bits is modelled.
- App.Evaluate: the overflow test is on the exact real entropy, so a value that floating point rounds across 1024 bits is not captured.
- The concrete `math.log2` and `round(entropy, 2)`. `log2` is an abstract parameter (constrained by `Log2Law` in the general lemmas and by numeric bounds in the worked examples and the overflow lemmas), and the reported entropy is the unrounded real value.
- Unicode behaviour of `str.lower()` and `str.strip()`. Only ASCII case mapping and the ASCII characters that `str.isspace()` accepts are modelled. Non-ASCII whitespace is not stripped, and non-ASCII letters are not case-mapped.
- Fuzzy or similarity matching against the dictionary, splitting the password into segments on delimiters, and case-position reporting. None of these is in the code modelled here.

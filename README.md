# Thompson-sampling bandit and item extraction, modelled in Dafny

This project models the decision core of a small A/B recommendation service:

- **the Thompson-sampling allocator** (`app/bandit.py`). It keeps Beta
  parameters `a` (successes) and `b` (failures) and exposure counts `n` per
  arm, all in default-dictionaries. `choose` draws one sample per
  configured arm, returns the arm with the largest sample and counts an
  exposure for it. `update` optionally decays every configured arm, then
  folds a reward into one arm. `ctr` is `a / (a + b)`.
- **the item extraction loop** `generate_sample_items_csv`
  (`data/preprocess.py`). It turns `|`-separated MovieLens `u.item` lines
  into distinct `(item_id, title)` rows, with an optional row cap.
- **variant A's `serve`** (`variants/variant_a.py`), which returns the
  first three catalogue titles.

Files and modules:

| file | module | what it holds |
|---|---|---|
| `seqs.dfy` | `Seqs` | first/last index, first-occurrence deduplication (`Dedup`, the key order of a dictionary filled in order and the output of a "seen"-set filter), occurrence counts |
| `bandit.dfy` | `Bandit` | the allocator: dictionary reads with defaults, `Updated` and `Decay` for `update`, `Rate` for `ctr`, `Select` for `choose`, the class `ThompsonBandit` and its methods |
| `text.dfy` | `Text` | Python's `str.strip()`, `str.split(sep)` and `sep.join` |
| `rows.dfy` | `ItemRows` | the rows of parsed lines, the loop's running output `Kept`, the row cap |
| `preprocess.dfy` | `Preprocess` | the line parser and the expected output `Expected`, with its properties |
| `extraction.dfy` | `Extraction` | the loop `GenerateSampleItems` itself |
| `variant_a.dfy` | `VariantA` | `Serve` |

Modelling choices, following the code:

- Numbers are `real`. A dictionary read of a missing key gives the
  default: 1.0 for `a` and `b`, 0 for `n`. Writes (`*=`, `+=`) store the
  computed value.
- The Beta draws are an input, `draws`, with one value per element of the
  arm list, in list order. numpy raises `ValueError` for a non-positive
  parameter; that is the `Rejected(arm)` outcome at the first such arm.
  `max` over an empty dictionary raises `ValueError`, which is the
  `NoArms` outcome.
- The samples dictionary has one key per distinct arm, in order of first
  listing. An arm listed twice keeps its later draw. `max` keeps the first
  maximal key. `SelectWinner` proves that this is the first maximal arm of
  the list itself.
- The decay loop runs over the arm list as given, so an arm listed `c`
  times is multiplied by the discount `c` times.
- The code validates nothing. Arm lists may be empty or hold duplicates.
  The discount may be any number. Rewards are not range-checked, and
  an unknown arm passed to `update` or `ctr` silently starts from the
  (1, 1) prior. Positivity of `a` and `b` is therefore a lemma under
  hypotheses, not an invariant of the class.
- `ctr` returns 0.0 when `a + b <= 0`. It also returns 0.0 when `a == 0`
  and `b > 0`; `Rate` states the exact condition.
- The extraction loop reads the already decoded lines, `lines`, and
  produces the sequence of data rows written, `written`, together with the
  counter `rows`. The ghost result `consumed` is the number of lines
  read. `max_rows` is checked only after a write, so a cap below 1 acts
  as 1 (`Cap`).
- `split("|")` always returns at least one piece, so the `not parts` test
  never fires. A line is skipped exactly when its stripped text contains
  no `|`.

## Model

| member | source | states |
|---|---|---|
| Bandit.Get | app/bandit.py:8-9 | defines a read of `a` or `b`: the stored value, or the default 1.0 for a key never written |
| Bandit.Exposure | app/bandit.py:10 | defines a read of `n`, a `defaultdict(int)`: the stored count, or 0 for an arm never chosen |
| Bandit.MulAssign | app/bandit.py:23-24 | defines `m[k] *= d`: the key's current read times `d` is stored at `k`, every other key unchanged |
| Bandit.AddAssign | app/bandit.py:25-26 | defines `m[k] += x`: the key's current read plus `x` is stored at `k`, every other key unchanged |
| Bandit.Decay | app/bandit.py:22-24 | defines the decay loop: `*= discount` on `a` (or `b`) for every element of the arm list in order, duplicates included |
| Bandit.Updated | app/bandit.py:19-26 | defines `update`: decay every listed arm when `discount < 1`, then `a[arm] += reward` and `b[arm] += 1 - reward` on the target |
| Bandit.Best | app/bandit.py:15 | defines `max(samples, key=samples.get)` over keys in iteration order, replacing the current best only on a strictly greater sample; its result is one of the keys and has a sample |
| Bandit.ThompsonBandit.Ctr | app/bandit.py:29-31 | defines `ctr(arm)` as `Rate` of the arm's two reads, so a never-written arm reads as the (1, 1) prior; `Rate` states its properties |
| Bandit.ThompsonBandit.constructor | app/bandit.py:6-11 | the arm list and discount are stored as given and all three dictionaries start empty, so every key reads alpha = beta = 1.0 and exposure 0, and `Ctr` is 0.5 for every arm |
| Bandit.ThompsonBandit.Choose | app/bandit.py:13-17 | the result is `Select` on the current beliefs; when an arm is chosen its exposure rises by exactly 1 and every other exposure is unchanged; on either error no exposure changes; `a` and `b` never change |
| Bandit.ThompsonBandit.Update | app/bandit.py:19-26 | the new beliefs are `Updated` of the old ones; the decay loop is proved against `Decay` by its invariant; `n` is outside the method's frame |
| Bandit.Select | app/bandit.py:14-15 | `NoArms` exactly when the arm list is empty; `Rejected` exactly when some configured arm has a non-positive parameter, and then it names the first such arm in list order; a chosen result carries the comprehension's samples and a configured arm |
| Bandit.Accepts | app/bandit.py:14 | defines when `np.random.beta(a[arm], b[arm])` returns a draw rather than raising `ValueError`: both parameters positive |
| Bandit.FirstRejected | app/bandit.py:14 | the comprehension's sampler accepts every arm before the returned index and refuses the arm at it |
| Bandit.Samples | app/bandit.py:14 | the samples dictionary has exactly the configured arms as keys, and each arm's value is the draw made at the arm's last listing |
| Bandit.SelectWinner | app/bandit.py:14-15 | when an arm is chosen, the samples have one key per configured arm; the winner's sample is at least every configured arm's; every arm listed before the winner's first occurrence has a strictly smaller sample (ties go to the first maximal arm in list order) |
| Bandit.BestDedup | app/bandit.py:14-15 | `max` over the dictionary's keys, which are the arms once each in order of first listing, picks the same arm as the first-maximum over the arm list |
| Bandit.BestMax | app/bandit.py:15 | the key `max` returns has a sample at least that of every key |
| Bandit.BestFirst | app/bandit.py:15 | every key before the first position of `max`'s result has a strictly smaller sample |
| Bandit.SelectPositive | app/bandit.py:14-15 | with positive beliefs and a non-empty arm list, `choose` always returns an arm |
| Bandit.SelectSingle | app/bandit.py:14-15 | with a single configured arm, a successful `choose` returns that arm, and the samples dictionary maps it to its draw |
| Bandit.DecayGet | app/bandit.py:22-24 | after the decay loop, a key listed `c` times in the arm list has been multiplied by the discount exactly `c` times, so unlisted keys are untouched |
| Bandit.UpdatedRead | app/bandit.py:21-26 | for every key, after `update`: below discount 1 the key is decayed once per listing, at discount 1 or more it is not; then the target alone gains `reward` in alpha and `1 - reward` in beta |
| Bandit.UpdatedEvidence | app/bandit.py:21-26 | with discount >= 1, `update` raises `a[arm] + b[arm]` by exactly 1 |
| Bandit.UpdatedOutsideArms | app/bandit.py:22-26 | a key outside the configured list is never decayed: it keeps what it read as (the (1, 1) prior if never written), and gains `reward` in alpha and `1 - reward` in beta only when it is the target |
| Bandit.UpdatedDistinctArms | app/bandit.py:21-26 | with distinct configured arms and discount below 1, each configured arm's alpha and beta are multiplied by the discount exactly once and unlisted keys not at all; only the target then gains the reward and its complement; with discount >= 1 only the target changes |
| Bandit.UpdatedKeepsPositive | app/bandit.py:21-26 | with a reward in [0, 1] and a discount in (0, 1], positive parameters stay positive |
| Bandit.ReplayKeepsPositive | app/bandit.py:21-26 | the same along any sequence of updates |
| Bandit.ReplayNoDecay | app/bandit.py:25-26 | without decay, after any sequence of updates, an arm's alpha has gained the sum of its rewards and its beta the number of its updates minus that sum |
| Bandit.FreshClicks | app/bandit.py:8-31 | from a fresh bandit with discount 1, k updates of an arm with reward 1.0 and m with reward 0.0 leave it at (1 + k, 1 + m) with ctr (1 + k) / (2 + k + m) |
| Bandit.Rate | app/bandit.py:29-31 | with a positive denominator the result times `a + b` is `a`; otherwise it is 0.0; the result is 0.0 exactly when `a + b <= 0` or `a == 0`; it lies strictly between 0 and 1 for positive parameters and within [0, 1] for non-negative ones |
| Bandit.TwoArmRun | app/bandit.py:19-31 | with arms A and B and discount 1, `update(A, 1.0)` then `update(B, 0.0)` leaves A at (2, 1) and B at (1, 2), so ctr is 2/3 for A and 1/3 for B |
| Text.IsSpace | data/preprocess.py:98 | defines the characters `str.strip()` removes: CPython's `str.isspace` set, including U+001C-U+001F, U+0085 and U+00A0, which Latin-1 text can carry |
| Text.StripLeft | data/preprocess.py:98 | defines the leading half of `strip()`: whitespace characters dropped from the front until a non-space; `StripLeftSpec` states its properties |
| Text.StripRight | data/preprocess.py:98 | defines the trailing half of `strip()`: whitespace characters dropped from the back until a non-space; `StripRightSpec` states its properties |
| Text.Strip | data/preprocess.py:98 | defines `line.strip()`: leading then trailing whitespace removed; `StripLeftSpec`, `StripRightSpec` and `StripIdempotent` state its properties |
| Text.Split | data/preprocess.py:98 | defines `split("\|")`: the pieces between separators, left to right, always at least one |
| Text.StripLeftSpec | data/preprocess.py:98 | `strip` removes a run of leading whitespace, all of it, and what is left is a suffix of the input |
| Text.StripRightSpec | data/preprocess.py:98 | the same for trailing whitespace, leaving a prefix |
| Text.StripIdempotent | data/preprocess.py:98 | stripping a stripped line changes nothing |
| Text.SplitPieces | data/preprocess.py:98 | `split("\|")` yields more than one piece exactly when the text contains `\|`, and no piece contains it |
| Text.SplitCount | data/preprocess.py:98 | `split` yields one piece more than there are separators |
| Text.JoinSplit | data/preprocess.py:98 | joining the pieces back with the separator gives the text |
| Text.SplitJoin | data/preprocess.py:98 | splitting a join of separator-free pieces gives the pieces back |
| Preprocess.ParseLine | data/preprocess.py:98-101 | defines one line's outcome: no row when the stripped line splits into fewer than two fields, else the first two fields as id and title |
| Preprocess.ParseLineSkips | data/preprocess.py:98-100 | a line is skipped exactly when its stripped text has no `\|`, so fewer than two fields |
| Preprocess.ParseLineShape | data/preprocess.py:98-101 | a kept line's stripped text is `id\|title`, or `id\|title\|` followed by further fields that are ignored; neither field contains `\|` |
| Preprocess.ParseAll | data/preprocess.py:97-101 | defines the per-line parse outcomes of `for line in fin`, one per line, in order; never a different length from the input |
| Preprocess.ParseAllAt | data/preprocess.py:97-101 | position `i` of the per-line parse results is the parse of line `i` |
| Preprocess.ParsedFromLines | data/preprocess.py:97-101 | every row comes from some input line, and every well-formed line contributes its row |
| Seqs.Dedup | data/preprocess.py:90-106 | defines the rows a `seen`-set filter lets through (also the key order of a dictionary filled in order): each element the first time it occurs; never longer than its input |
| Preprocess.Expected | data/preprocess.py:97-110 | defines the output: the distinct well-formed rows in first-occurrence order, cut at the cap |
| Preprocess.ExpectedDistinct | data/preprocess.py:103-106 | no row is written twice, and the output is a prefix of the distinct rows in order of first occurrence |
| Preprocess.ExpectedFromLines | data/preprocess.py:97-107 | every written row is the first two fields of some input line |
| Preprocess.ExpectedOrder | data/preprocess.py:97-107 | written rows appear in the order in which they first occur in the input |
| Preprocess.UncappedComplete | data/preprocess.py:97-110 | with `max_rows = None`, every well-formed line's row is written |
| Preprocess.CappedCount | data/preprocess.py:107-110 | with `max_rows = m`, at most `max(m, 1)` rows are written (at most `m` when `m >= 1`), exactly that many when there are enough distinct rows, and all of them otherwise |
| Preprocess.NonPositiveCap | data/preprocess.py:107-110 | with `max_rows <= 0`, exactly one row is written once any line is well formed |
| ItemRows.Capped | data/preprocess.py:108-110 | defines the cut at the cap: the whole list without `max_rows`, else its first `Cap(max_rows)` rows |
| ItemRows.Kept | data/preprocess.py:97-107 | defines what the loop has written after `i` lines when no cap fires: a line's row is appended when the line is well formed and the row is new |
| ItemRows.Cap | data/preprocess.py:108-110 | the cap in force is at least 1 and at least `m`, and is `m` itself when `m >= 1` |
| ItemRows.KeptDedup | data/preprocess.py:103-107 | what the `seen`-set filter has written after `i` lines is the distinct rows of those lines in order of first occurrence |
| ItemRows.Finish | data/preprocess.py:97-110 | the loop's output at either exit, end of input or the cap's `break`, is the capped list of distinct rows |
| Extraction.ReadLine | data/preprocess.py:98-101 | reading line `i` yields the `i`-th per-line parse result |
| Extraction.GenerateSampleItems | data/preprocess.py:90-110 | the rows written are `Expected`: distinct well-formed rows in first-occurrence order, cut at `max(max_rows, 1)`; `rows` counts them; `consumed` is the number of lines read, pinned down at both exits: with a cap, the row count one line before the stop was below the cap; when the loop stops before the end of input the cap has just been reached; what was written is exactly the distinct rows of the lines read |
| VariantA.Serve | variants/variant_a.py:13-15 | the result has length `min(3, \|items\|)`, is a prefix of the item list, and is the whole list when it has at most three items |
| VariantA.ServeIgnoresCaller | variants/variant_a.py:13-15 | the result does not depend on the user id or the context |
| VariantA.ServeIdempotent | variants/variant_a.py:15 | serving from a served list returns it unchanged |

## Left out

- Beta sampling (`np.random.beta`): the random generator is replaced by the `draws` input. Only its refusal of non-positive parameters is modelled.
- Floating point: all arithmetic is over exact reals, with no rounding, NaN or infinities.
- Bandit.ThompsonBandit.Choose: a read of a missing key inserts the key into a `defaultdict`; the model's reads do not insert. No later read differs, since the key gets its default either way; only the key sets of `a` and `b` differ.
- Bandit.ThompsonBandit.Ctr: same key insertion on read as above; the function reads through `Rate`.
- Concurrency: the service shares one bandit between request handlers and takes no lock. Interleavings are not modelled.
- `app/main.py`, `app/schemas.py`, `app/config.py`, `app/mlflow_utils.py`, the analysis scripts and the Streamlit client: HTTP wiring, request shapes, environment parsing, logging and UI. Only the arm list `["A", "B"]` and the default discount 1.0 appear, in `TwoArmRun`.
- `variants/variant_b.py`: its output depends on Python's per-process salted string hash and on library randomness.
- `_load_items` in the variant files: CSV reading. The item list is a parameter of `Serve`.
- `find_u_item_path`, `extract_zip_if_needed` and `main` in `data/preprocess.py`: file search, zip extraction, printing and exit codes.
- Extraction.GenerateSampleItems: opening and creating files, Latin-1 decoding and splitting the file into lines are outside the model; the loop receives the decoded lines. The CSV header row, CSV quoting and the final message are also not modelled; the output is the sequence of data rows.

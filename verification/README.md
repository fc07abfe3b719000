# kfans3 input validation and wallet top-up, in Dafny

This project models two self-contained parts of a social-network application
that has paid creator subscriptions:

- **The input schemas** (`src/lib/validation.ts`). These zod schemas decide
  which sign-up, login, post, comment, subscription-tier and profile-update
  inputs are accepted. Each schema is a parse function here. It returns
  `Valid(v)` with the normalised value zod hands back, or `Invalid`.
  The shared `requiredString` trims first and then demands one character,
  so every such field comes back trimmed. JavaScript's `trim` is modelled
  exactly (module `Text`), using the ECMAScript white-space and
  line-terminator characters. Its meaning is pinned down independently of
  its code: a string is leading white space, then its trimmed form, then
  trailing white space (`TrimDecomposes`), and that split is unique
  (`TrimUnique`).
- **The wallet top-up endpoint** (`src/app/api/balance/add/route.ts`). This
  is a transition over a map from user id to balance. The handler checks
  identity first, then the amount. It increments exactly one row and
  answers with that row's new balance.

Files:

- `wrappers.dfy`: the `Option` type.
- `text.dfy`: white space, `Trim` and its laws.
- `validation.dfy`: the schemas.
- `balance.dfy`: the top-up handler, plus serial replay of many requests.

Two details of the code shape the model:

- Tier `id`: the `UpdateUserProfileValues` type
  (`src/lib/validation.ts:43-54`) declares an optional `id`. The tier
  schema does not, and zod drops undeclared keys, so the parsed tier has
  none.
- Top-up outcomes: besides 401 and 400, the handler answers 500 when the
  signed-in caller has no wallet row, because the update throws and is
  caught. The model keeps this as `ServerError`, leaves the wallets
  unchanged, and does not make it a precondition.

## Model

| member | source | states |
|---|---|---|
| Text.Trim | src/lib/validation.ts:3 | The trimmed string is no longer than the input and neither starts nor ends with white space |
| Text.TrimDecomposes | src/lib/validation.ts:3 | Every string is white space, then its trimmed form, then white space: trimming removes only surrounding white space |
| Text.TrimUnique | src/lib/validation.ts:3 | White space around an already-trimmed middle is exactly what trimming removes, so trimming is fully determined by that split |
| Text.TrimIdempotent | src/lib/validation.ts:3 | Trimming an already-trimmed string changes nothing |
| Text.TrimEmptyIff | src/lib/validation.ts:3 | The trimmed form is empty exactly when every character is white space |
| Text.TrimStartSpec | src/lib/validation.ts:3 | Dropping leading white space yields a suffix that does not start with white space, and everything dropped was white space |
| Text.TrimEndSpec | src/lib/validation.ts:3 | Dropping trailing white space yields a prefix that does not end with white space, and everything dropped was white space |
| Validation.RequiredString | src/lib/validation.ts:3 | A required string is accepted exactly when it contains a non-white-space character, and the accepted value is its trimmed form |
| Validation.MaxLength | src/lib/validation.ts:38 | A `max(n)` string is accepted exactly when its untrimmed length is at most n, and is returned unchanged |
| Validation.ParseEmail | src/lib/validation.ts:6 | An e-mail is accepted exactly when it is non-blank and its trimmed form passes the e-mail rule; the value is the trimmed form |
| Validation.ParseUsername | src/lib/validation.ts:7-10 | A username is accepted exactly when its trimmed form is non-empty and every character is a letter, digit, `_` or `-`; the value is the trimmed form |
| Validation.UsernameStripsSurroundingWhitespace | src/lib/validation.ts:7-10 | White space around a valid username is stripped rather than rejected |
| Validation.ParsePassword | src/lib/validation.ts:11 | A password is accepted exactly when its trimmed length is at least 8; the value is the trimmed form |
| Validation.PasswordPaddingDoesNotCount | src/lib/validation.ts:11 | Leading and trailing white space does not count toward the password minimum |
| Validation.ParseSignUp | src/lib/validation.ts:5-12 | Sign-up is accepted exactly when e-mail, username and password each pass their rule; all three come back trimmed |
| Validation.ParseLogin | src/lib/validation.ts:16-19 | Login is accepted exactly when username and password are both non-blank, with no further rule; both come back trimmed |
| Validation.ParsePost | src/lib/validation.ts:23-26 | A post is accepted exactly when its content is non-blank and it has at most 5 media ids; content is trimmed and the ids are kept as given |
| Validation.ParseComment | src/lib/validation.ts:56-58 | A comment is accepted exactly when its content is non-blank; the content comes back trimmed |
| Validation.ParseSignUpIdempotent | src/lib/validation.ts:5-12 | Feeding accepted sign-up values back through the schema yields the same values |
| Validation.ParseLoginIdempotent | src/lib/validation.ts:16-19 | Feeding accepted login values back through the schema yields the same values |
| Validation.ParsePostIdempotent | src/lib/validation.ts:23-26 | Feeding an accepted post back through the schema yields the same post |
| Validation.ParseCommentIdempotent | src/lib/validation.ts:56-58 | Feeding an accepted comment back through the schema yields the same comment |
| Validation.ParseOptionalText | src/lib/validation.ts:30 | An optional description is accepted when absent or at most 500 characters, and is returned untrimmed |
| Validation.ParsePrice | src/lib/validation.ts:31 | A price is accepted exactly when 0.01 <= price <= 999.99, both bounds inclusive, and is returned unchanged |
| Validation.ParseDuration | src/lib/validation.ts:33 | An absent duration becomes 1; a present one is accepted exactly when it is a whole number from 1 to 12 and is kept |
| Validation.ParseTier | src/lib/validation.ts:28-34 | A tier is accepted exactly when its trimmed name has 1..50 characters, its description (if any) at most 500, its price is in [0.01, 999.99] and its duration (if any) is a whole number in 1..12; the result has the trimmed name, untrimmed description, same price and color, and duration defaulted to 1 |
| Validation.ParseTiers | src/lib/validation.ts:39 | A tier list is accepted exactly when every tier is; the parsed list has the same length and each entry is its input's normalised form |
| Validation.ParseProfile | src/lib/validation.ts:36-40 | A profile is accepted exactly when the display name is non-blank, the bio has at most 1000 characters, there are at most 10 tiers and every tier is acceptable, so one bad tier rejects the whole profile |
| Validation.NormalisedTierIsFixed | src/lib/validation.ts:28-34 | A normalised tier, submitted again, is acceptable and normalises to itself |
| Validation.ParseTierIdempotent | src/lib/validation.ts:28-34 | Feeding a parsed tier back through the tier schema yields the same tier |
| Validation.ParseProfileIdempotent | src/lib/validation.ts:36-40 | Feeding a parsed profile back through the profile schema yields the same profile |
| Balance.AddBalance | src/app/api/balance/add/route.ts:7-27 | No caller gives Unauthorized whatever the amount; a non-number or non-positive amount gives InvalidAmount; a signed-in caller with a positive amount but no wallet row gives ServerError; success happens exactly for a signed-in caller with a positive amount and a wallet row, with no upper bound; every refusal leaves all wallets unchanged; success adds exactly the amount to the caller's row only and returns that row's new balance |
| Balance.AddBalancePreservesNonNegative | src/app/api/balance/add/route.ts:14-25 | A top-up never makes any balance negative |
| Balance.AddBalanceCommutes | src/app/api/balance/add/route.ts:18-25 | Two top-ups leave the same wallets in either order, because each is one atomic increment of one row |
| Balance.ReplayCredits | src/app/api/balance/add/route.ts:18-25 | Serving requests one after another keeps the set of rows and credits each row with exactly the sum of its owner's acceptable amounts |
| Balance.ReplayPreservesNonNegative | src/app/api/balance/add/route.ts:14-25 | Serving any sequence of requests keeps every balance non-negative |

## Left out

- Subscription engine: tier purchase, the tier-set replacement in `updateUserProfile` and the expiry sweep in `src/app/(main)/users/[username]/actions.ts` are not part of this model. This model covers only the schemas that guard that engine's inputs.
- Cron endpoint: the handler in `src/pages/api/cron/handle-expired-subscriptions.ts` only checks the HTTP method and calls into that engine, so it is not modelled.
- UI: the balance menu component is rendering, `fetch` and React state.
- Validation.ParseEmail: zod's `.email()` rule is not modelled. It is a function parameter `isEmail`, applied to the trimmed text.
- Error messages: zod's error messages and issue lists are not modelled. A rejection is just `Invalid`.
- Wrong types and missing fields: the schema models take well-typed records. So a field of the wrong JavaScript type is outside their input types, and so is a missing required field. Examples: `price: "5"`, `description: null` (`.optional()` accepts only `undefined`), a non-string media id, or a missing `bio`, `mediaIds`, `name` or `price`. zod rejects all of these. "Accepted exactly when" in the table is meant over well-typed inputs. The top-up model differs because the handler itself tests `typeof amount`, so `Amount` has a `NotANumber` case.
- TypeScript types: the exported types are not modelled.
- Database: Prisma mechanics, transactions, concurrency and row locking are left out. The wallet map changes in one step.
- Request body: a body that is not valid JSON, and other unexpected exceptions, lead to the 500 path. They are not modelled. The one 500 case that is modelled is the caller with no wallet row.
- Numbers: JavaScript numbers are exact reals. `NaN`, `Infinity` (for example `1e999` passing `amount <= 0`) and binary rounding near 0.01 and 999.99 are not modelled.
- String length: `|s|` counts Unicode scalar values, not UTF-16 code units. So a character outside the Basic Multilingual Plane counts once here and twice in JavaScript for the 50/500/1000/8 limits.
- Balance.ReplayCredits: serving requests one after another stands in for the database's serialised atomic increments. Actual interleaving is not modelled.

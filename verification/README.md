# Payment relay: promo codes, payment-intent gate, startup key check

This project models the decision logic of a small Express server that sits
between a mobile shop and the Stripe payment processor (`server.js`). The
server mostly forwards requests. Three parts of it make decisions on their own,
and those three are modelled as pure Dafny functions with proved properties:

- **Promo-code validator** (`POST /verify-promo`). A fixed table maps four
  codes to discount percentages. The submitted code is upper-cased and
  trimmed. Then one of three things happens: the code is missing (400), it is
  known (200, `valid: true`, the percentage) or it is unknown (200,
  `valid: false`, reduction 0). The table is a JavaScript object, so indexing
  it also reaches the members inherited from `Object.prototype`. The model
  includes that lookup and proves that a normalised code can never name an
  inherited member.
- **Payment-intent gate** (`POST /create-payment-intent`). An absent, zero or
  negative amount is rejected with 400, and nothing is sent to the processor.
  Otherwise a processor request is built. It carries the amount unscaled, the
  currency (`"eur"` when absent) and the fixed options and metadata. The
  processor's outcome then becomes a 200 response with the client secret and
  the intent id, or a 500 response with the error message. The processor is a
  function parameter, and each handled request records what was sent to it.
- **Startup key check**. The server starts only when the secret key is set and
  begins with `sk_`. Otherwise it exits with status 1.

Modules: `Wrappers` (the optional value), `JsString` (ASCII `toUpperCase`,
`trim` over ECMAScript's whitespace set, `startsWith`), `Decimal` (the
`${n}` rendering of a percentage and its parser), `Promo`, `PaymentIntent`
and `Startup`.

Notes on the behaviour as written:

- Among strings, `!code` is true only for the empty string. It is also true
  for an absent code and for the falsy non-strings `null`, `0` and `false`.
  All of these get the 400 "Code promo manquant" answer without reaching
  `toUpperCase`, and `None` stands for every one of them. A code
  made only of whitespace is therefore not "missing". It normalises to the
  empty string and gets the 200 "invalid" answer (`Promo.WhitespaceOnlyCode`).
  This is why "the response depends only on the normal form" holds for
  non-empty codes, and that is how `Promo.SameNormalFormSameResponse` states
  it.
- The `currency = 'eur'` default applies only when the field is absent. An
  explicitly empty currency is forwarded as the empty string.
- `err.message || '...'` also replaces an empty error message with the
  fallback text.

## Model

| member | source | states |
|---|---|---|
| Promo.Normalize | server.js:56 | `code.toUpperCase().trim()`: the key is trimmed and no longer than the code. Its full characterisation is in NormalFormIsSpelling and NormalFormShape. |
| Promo.PropertyLookup | server.js:57 | `promoCodes[key]`: an own key yields its percentage, and an own key shadows the prototype. The result is `undefined` exactly when the key is neither an own key nor an `Object.prototype` member. A name inherited from `Object.prototype` that is not an own key yields that inherited member, and an inherited hit only happens for a key containing a lower-case letter. |
| Promo.ValidMessage | server.js:65 | The accepted message is the fixed prefix, then digits with no leading zero, then the fixed suffix, and the digits read back as the percentage, so the message is exactly the `${reduction}` rendering. |
| Promo.VerifyPromo | server.js:44-74 | 400 exactly for an absent or empty code, with no reduction field. Otherwise `valid` holds exactly when the normal form is a table key, and the reduction is then that key's percentage. Any reduction is one of 0, 10, 20, 50, 70 (so within 0..100). Each kind of answer has its fixed message. |
| Promo.MissingCode | server.js:49-54 | An absent or empty code gives 400, `valid: false`, "Code promo manquant". |
| Promo.KnownCodeAnySpelling | server.js:56-66 | Any table key, with any ASCII case changes and any whitespace padding, is accepted with exactly its configured percentage and the message embedding it. |
| Promo.AcceptedIsSpelling | server.js:56-66 | Conversely, an accepted code is always such a spelling of a table key, and the reduction is that key's percentage. |
| Promo.NormalFormIsSpelling | server.js:56 | Every code is its normal form with ASCII case changes and whitespace padding. |
| Promo.PaddedSpellingNormalizes | server.js:56 | Padding an upper-case trimmed string with whitespace and changing its ASCII case does not change its normal form. |
| Promo.UnknownCode | server.js:56-73 | A non-empty code whose normal form is not a key gives 200, `valid: false`, reduction 0, "Code promo invalide". |
| Promo.WhitespaceOnlyCode | server.js:49-73 | A whitespace-only code normalises to the empty string and gets the 200 invalid answer, not the 400 one. |
| Promo.NormalizeIdempotent | server.js:56 | Normalising twice equals normalising once. |
| Promo.NormalFormShape | server.js:56 | A normal form contains no lower-case ASCII letter and no leading or trailing whitespace. |
| Promo.SameNormalFormSameResponse | server.js:56-57 | Two non-empty codes with the same normal form get identical responses. |
| Promo.NormalFormAnswersAlike | server.js:56-57 | Submitting a non-empty normal form instead of the raw code gives the same response. |
| Promo.TableEntries | server.js:36-41 | The table holds exactly PROMO10 with 10, PROMO20 with 20, BLACKFRIDAY with 50 and SOSO70 with 70. |
| Promo.TableContents | server.js:36-41 | Every key of the table is one of PROMO10, PROMO20, BLACKFRIDAY and SOSO70, and its percentage is 10, 20, 50 or 70. |
| Promo.TableKeyShape | server.js:36-41 | Every table key is upper case and trimmed, so it is reachable through normalisation. |
| Promo.PrototypeMembersHaveLower | server.js:57 | Every name inherited from `Object.prototype` contains a lower-case ASCII letter. |
| Promo.NormalFormLookupIsOwn | server.js:57-61 | Indexing the table object with a normal form yields a value exactly when the key is in the table, and then the table's own percentage. |
| Promo.ValidMessageInjective | server.js:65 | The accepted-code message determines the percentage it embeds. |
| Promo.MessagesDistinct | server.js:52-71 | The missing, invalid and accepted messages are pairwise different. |
| Promo.MessageDeterminesResponse | server.js:49-73 | Two requests with the same response message get the same whole response. |
| Promo.Message10 | server.js:65 | The message for 10 is "Code promo valide : 10% de réduction !". |
| Promo.LowerCasePromo10 | server.js:36-66 | `"promo10"` gives 200, `valid: true`, 10, "Code promo valide : 10% de réduction !". |
| JsString.Upper | server.js:56 | `toUpperCase` on ASCII: same length, and each character is mapped on its own. No lower-case ASCII letter remains, and every other character is unchanged. |
| JsString.UpperCharIsCapital | server.js:56 | Each lower-case ASCII letter becomes the capital at the same place in the alphabet (`a` to `A` through `z` to `Z`). |
| JsString.UpperConcat | server.js:56 | Upper-casing distributes over concatenation. |
| JsString.TrimPadded | server.js:56 | `trim` of a trimmed string with whitespace on both sides gives that string back. |
| JsString.Trim | server.js:56 | `trim`: the result has no leading or trailing whitespace and is no longer than the input. |
| JsString.StartsWith | server.js:15 | `s.startsWith(p)` holds exactly when `s` is `p` followed by the rest of `s`. |
| JsString.StartsWithConcat | server.js:15 | Every `p + rest` starts with `p`. |
| JsString.TrimEndOfSuffixSlice | server.js:56 | Trimming the end of a suffix keeps a slice of it and drops only whitespace. |
| JsString.TrimSlice | server.js:56 | `trim` returns exactly the slice between leading and trailing whitespace. |
| JsString.TrimIsSlice | server.js:56 | The result of `trim` is a slice of its input, and only whitespace lies outside it. |
| JsString.TrimIdempotent | server.js:56 | Trimming twice equals trimming once. |
| JsString.UpperTrimCommute | server.js:56 | Upper-casing then trimming equals trimming then upper-casing. |
| Decimal.FromNat | server.js:65 | `${n}`: at least one digit, digits only, and no leading zero. |
| Decimal.ToNatFromNat | server.js:65 | Parsing the decimal rendering of a percentage gives the percentage back. |
| Decimal.FromNatInjective | server.js:65 | Distinct percentages render differently. |
| Wrappers.Option.GetOr | server.js:79 | The destructuring default `currency = 'eur'`: a present value is kept, and the default is used only when the field is absent. |
| PaymentIntent.Gate | server.js:79-99 | Rejects with 400 "Montant invalide" exactly when the amount is absent or not positive. Otherwise it forwards a request with exactly that positive amount and the given currency, or "eur" when none is given. |
| PaymentIntent.Relay | server.js:101-107 | 200 exactly for a created intent, with its client secret and id. 500 for a failure, with a non-empty error: the processor's message when it has one, the fallback text otherwise. |
| PaymentIntent.CreatePaymentIntent | server.js:77-109 | Nothing is sent to the processor exactly when the amount is absent or not positive, and the response is then the 400 error. Otherwise the request sent is exactly the one the gate builds: the amount, the currency or "eur", automatic payment methods and the fixed metadata. The response is the relay of the processor's answer to that request. |
| PaymentIntent.StatusClassifies | server.js:77-108 | 400 exactly when nothing was sent. 200 exactly when the processor created an intent. 500 exactly when it failed. |
| PaymentIntent.RejectionIgnoresProcessor | server.js:81-83 | For an absent or non-positive amount, the response is the same whatever the processor would do, and nothing is sent. |
| PaymentIntent.ForwardsAmountUnscaled | server.js:79-96 | For a positive amount the processor receives that amount unscaled, and the supplied currency or "eur". |
| PaymentIntent.OutcomeRelayed | server.js:101-107 | A success is answered 200 with secret and id. A failure is answered 500 with its message, or with the fallback text when the message is absent or empty. |
| PaymentIntent.Example1999Euros | server.js:79-104 | 1999 in "eur" with a succeeding processor sends exactly 1999 "eur" with the fixed options and returns 200 with the secret and id. |
| Startup.CheckSecretKey | server.js:15-19 | Starts exactly when the key is present and its first three characters are `sk_`. Otherwise it exits with status 1. |
| Startup.AcceptsEveryPrefixedKey | server.js:15-19 | Every key `sk_` followed by anything is accepted. |
| Startup.AcceptedKeyHasPrefix | server.js:15-19 | Every accepted key is `sk_` followed by the rest of the key. |

## Left out

- Stripe SDK calls (`paymentIntents.create`, `balance.retrieve`) are network calls into code outside this model. The processor is a function parameter that returns an abstract outcome.
- Express routing, CORS configuration, JSON body parsing, dotenv loading, `app.listen` and `process.exit` are framework and environment plumbing. Startup is modelled only as the decision to start or to exit with status 1.
- Console logging in every handler is output only.
- The `/test-stripe`, `/health` and `/` endpoints are left out. The first is a single processor call, the second reports a clock timestamp, and the route lists are static data.
- Non-integer and string amounts are left out. `parseFloat` and `Math.round` are floating-point operations, and JavaScript truthiness and comparisons on strings, fractions and `NaN` are not modelled. Amounts are integers, on which `Math.round(parseFloat(amount))` is the identity. Integers above 2^53, which a JavaScript number cannot hold exactly, are not modelled.
- JsString.Upper: upper-cases ASCII letters only, and leaves every non-ASCII character unchanged. JavaScript's `toUpperCase` also maps non-ASCII letters, for example `ß` to `SS`, `ſ` (U+017F) to `S` and `ı` (U+0131) to `I`. So the server accepts codes such as `ſoſo70` (70) and `blackfrıday` (50), while the model rejects them as unknown.
- Promo.VerifyPromo: the normal form, and so the valid/invalid classification, is computed with the ASCII-only mapping above. For codes with non-ASCII letters that JavaScript upper-cases, the server can answer valid where the model answers invalid.
- Promo.AcceptedIsSpelling: "every accepted code is a spelling of a table key" holds only under the ASCII case mapping. Under full Unicode mapping, codes spelled with `ſ` or `ı` are also accepted.
- Promo.UnknownCode: holds only under the ASCII case mapping. A code whose ASCII normal form is not a key may still be a key under full Unicode mapping, for example `blackfrıday`.
- Truthy non-string `code` values (non-zero numbers, objects, `true`) are left out. They make `toUpperCase` throw inside the framework. Falsy non-strings are covered by `None` (see above).
- A `currency` sent as `null` is not modelled. The destructuring default only fires on `undefined`, so the server forwards `null` to the processor, and `Option<string>` has no value for it.
- An exception raised before the processor call inside the payment handler's `try` block is left out. This would happen, for example, with a missing request body.
- The request's creation of a real payment intent, and the fact that repeated calls create distinct intents, are properties of the processor, not of this code.

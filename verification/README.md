# stripe-to-erc20: the orchestration core in Dafny

The application sells ERC20 tokens for card payments. It wires three services
together over an event bus:

1. A webhook delivers a purchase **request**: an Ethereum address, an email,
   a token quantity and a payment token. The intake handler remembers the
   email under the upper-cased address. It then asks the payment gateway to
   charge 40 cents per token.
2. The gateway confirms the charge with a **charged** event. This event
   echoes the charge metadata (address and token count). The settlement
   handler asks the token ledger to transfer `tokens * 10^18` base units to
   that address.
3. The ledger reports a **transfer**. The notification handler emails a
   receipt only when all three of these hold:
   - the transfer is on the workflow's contract, compared case-insensitively;
   - its recipient is present;
   - the recipient's upper-cased address has a stored email.

The only state is the correlation map `emails`, from an upper-cased address
to an email. JavaScript callbacks never interleave, so a run of the process
is a sequence of events. The model has these parts:

- `Orchestrator.Step`: a pure step from (map, event) to (map, optional task).
- `Workflow.Run`: the fold of `Step` over an event sequence.
- `Workflow.Process`: the same fold as an event loop.

The project is organised as follows:

- `Wrappers.dfy`: `Option`. It models missing values and map misses.
- `Ascii.dfy`: `toUpperCase` on ASCII and the case-insensitive equality built
  from it.
- `Decimal.dfy`: exact decimal strings.
  - `toString()` of the base-unit value.
  - `BigNumber(value)` parsing.
  - The rendering of `value / 10^18` in the receipt.
- `Amount.dfy`: an independent reader of decimal token amounts, positional
  or exponential. Reading the receipt's amount back gives the transferred
  value in base units.
- `Orchestrator.dfy`: the constants, events, tasks, the store's put/get, the
  three handlers, `Step`, and lemmas about single steps.
- `Workflow.dfy`: runs over event sequences, the event loop, last-writer-wins,
  key growth, replay, and the end-to-end purchase.

The notification guard at `application/application.js:69` tests the stored
entry `emails[to.toUpperCase()]` for truthiness. An entry whose email is the
empty string therefore sends nothing, just like a missing entry
(`Orchestrator.Recipient`). `Orchestrator.NotificationIff` states the guard
with this condition.

The receipt shows `BigNumber(value).dividedBy(10^18).toString()`. That
function prints positionally only while the leading digit's exponent lies
between -6 and 20. Outside that range it prints exponential notation, so one
base unit reads "1e-18" and 10^21 tokens read "1e+21". `Decimal.FormatUnits`
models both notations.

## Model

| member | source | states |
|---|---|---|
| Ascii.Upper | application/application.js:25 | The upper-cased address has the same length, no lower-case letter, and spells the same letters as the input up to case. |
| Ascii.ToUpperCase | application/application.js:25 | The loop returns a string that equals the address up to case and has no lower-case letter. By `Ascii.UpperUnique` this is the address's one normal form. |
| Ascii.UpperUnique | application/application.js:69 | A string with no lower-case letter that equals `s` up to case is exactly `s.toUpperCase()`, so every address has a single store key. |
| Ascii.UpperEqIff | application/application.js:67-69 | Two strings have equal upper-cased forms exactly when they are equal up to letter case, in both directions. |
| Ascii.UpperIdempotent | application/application.js:69 | Upper-casing a key that is already upper-cased leaves it unchanged. |
| Decimal.IntToString | application/application.js:56 | The printed integer is non-empty, has no decimal point, and starts with "-" exactly when the integer is negative. |
| Decimal.NatRoundTrip | application/application.js:56 | Parsing the printed decimal of a natural number gives the number back. |
| Decimal.CanonicalRoundTrip | application/application.js:80 | Printing the value of a canonical digit string (no leading zero) gives the string back. |
| Decimal.IntRoundTrip | application/application.js:56 | Parsing the printed decimal of any integer, sign included, gives the integer back. |
| Decimal.ParseInt | application/application.js:80 | A value is accepted exactly when it matches `-?[0-9]+`. Every other value becomes NaN. |
| Decimal.FormatUnits | application/application.js:80 | The shown amount is never empty. It starts with "-" exactly when the value is negative, and otherwise with a digit, so it is never "NaN". |
| Amount.FormatUnitsRoundTrip | application/application.js:80 | For every integer `v`, the shown amount read as a decimal number of tokens is exactly `v` base units, whether it is printed positionally or exponentially. |
| Amount.PositionalRead | application/application.js:80 | The positional form "w" or "w.f" reads back as the amount it was printed from. It starts with a digit. |
| Amount.FractionRead | application/application.js:80 | A fraction printed with 18 places and no trailing zeros reads back as the remainder it came from. |
| Amount.ScientificRead | application/application.js:80 | The exponential form "d.ddde±x" reads back as the amount it was printed from. It starts with a digit. |
| Amount.OneAndAHalf | application/application.js:80 | "1.5" reads as 1.5 * 10^18 base units. |
| Decimal.UsesExponentRange | application/application.js:80 | Exponential notation is used exactly for magnitudes from 1 to 10^12 - 1 base units (exponent -7 or less) and from 10^39 base units on (exponent 21 or more). |
| Decimal.OneBaseUnit | application/application.js:80 | One base unit is shown as "1e-18". |
| Decimal.FormatWholeTokens | application/application.js:80 | `t * 10^18` base units divided by `10^18` are shown as the decimal of `t` when `t` has magnitude below 10^21. Otherwise the amount is shown with an exponent. |
| Decimal.FormatUnitsWholeIff | application/application.js:80 | In positional notation the amount has a decimal point exactly when the value is not a whole number of tokens. In the exponential range it shows an exponent. |
| Decimal.ShiftDigits | application/application.js:56 | The digits of `a * 10^k` are the digits of `a` followed by `k` zeros. |
| Decimal.TenTokens | application/application.js:56 | Ten tokens are written into the transfer as "10000000000000000000". |
| Decimal.UnitIsPow10 | application/application.js:8 | The base-unit factor is 10 raised to the token's 18 decimals. |
| Orchestrator.Put | application/application.js:25 | A store write adds exactly the upper-cased address as a key. It keeps every key upper-cased. |
| Orchestrator.Get | application/application.js:69 | A lookup finds an entry exactly when the store holds an upper-case key equal to the address up to case. What it finds is the email stored under that key. |
| Orchestrator.PutGet | application/application.js:25 | After a write, a lookup under any case variant of the address finds the written email. A lookup under any other address finds what it found before. |
| Orchestrator.ChargeAmount | application/application.js:30 | The charge in cents equals `number * TOKEN_PRICE * 100` computed exactly, with TOKEN_PRICE 0.4. |
| Orchestrator.ReceiptText | application/application.js:80 | The receipt body contains the amount after its fixed opening and ends with the transaction hash. |
| Orchestrator.ReceiptAmount | application/application.js:80 | The receipt shows "NaN" exactly when the transfer value is not a decimal integer. |
| Orchestrator.ReceiptAmountReads | application/application.js:80 | When the transfer value is a decimal integer, the amount in the receipt reads back as exactly that value in base units. |
| Orchestrator.ReceiptAmountWhole | application/application.js:80 | A value of `t * 10^18` base units is shown as `t` tokens when `t` has magnitude below 10^21, and with an exponent otherwise. |
| Orchestrator.Intake | application/application.js:21-42 | The store gains exactly the upper-cased address as a key, and a lookup of the address finds the request's email. One charge is dispatched, and its metadata echoes the address and token count. |
| Orchestrator.Settlement | application/application.js:44-60 | The transfer value parses back to exactly `tokens * 10^18`. Below 10^21 tokens, that value shown in tokens reads as the echoed token count. |
| Orchestrator.Recipient | application/application.js:68-69 | There is a recipient exactly when `to` is present and non-empty and an upper-case stored key equal to `to` up to case holds a non-empty email. The recipient is the email stored under that key. |
| Orchestrator.Notification | application/application.js:63-85 | An email is dispatched only for a transfer on the configured contract up to case. It goes from the fixed sender with the fixed subject to a non-empty stored email. |
| Orchestrator.Step | application/application.js:21-85 | No step removes a key, only a request changes the store, and upper-cased keys stay upper-cased. A request yields a charge, a charge confirmation yields a transfer, and a transfer yields at most an email. |
| Orchestrator.IntakeRecords | application/application.js:25 | After an intake, every case variant of its address looks up that intake's email. |
| Orchestrator.IntakeLastWriterWins | application/application.js:25 | Two intakes for the same address in any spelling leave the later email. |
| Orchestrator.IntakeCharge | application/application.js:26-40 | The charge has amount `number * 0.4 * 100`, currency "usd", the request's email and payment token as source, and metadata `{address, tokens}` echoing the request. |
| Orchestrator.SettlementIgnoresStore | application/application.js:48-58 | The transfer depends only on the metadata. It goes to the metadata's address on the fixed contract with gas limit 100000, for `tokens * 10^18` base units. |
| Orchestrator.NotificationIff | application/application.js:66-70 | An email is sent if and only if three things hold: the contract equals the configured one up to case; `to` is present and non-empty; and a stored address equal to `to` up to case holds a non-empty email. |
| Orchestrator.NotificationSends | application/application.js:72-81 | When the guard holds, for any transfer value, the email goes from contact@mesg.com with the fixed subject to the email stored under `to`. Its body shows the value divided by 10^18 (or "NaN") and the transaction hash. |
| Orchestrator.NotificationContent | application/application.js:72-81 | For a value of `t * 10^18` with `t` below 10^21 in magnitude, the receipt body names the token count `t`. |
| Orchestrator.ForeignContractIgnored | application/application.js:67 | A transfer on any other contract sends nothing and leaves the store unchanged, whatever its recipient. |
| Orchestrator.NotificationReplays | application/application.js:63-85 | Handling the same transfer event again from the resulting store gives the identical outcome: there is no deduplication. |
| Workflow.Run | application/application.js:21-85 | Over any event sequence, the key set only grows, and a run without requests leaves the store unchanged. Upper-cased keys stay upper-cased, and there is at most one task per event. |
| Workflow.Process | application/application.js:21-85 | The event loop handles events one at a time and ends with the store and the tasks of the fold. |
| Workflow.RunLookup | application/application.js:25 | After a run, looking up an address in any spelling gives the email of the latest request for it. If there was no such request, it gives the starting store's answer. |
| Workflow.RunKeys | application/application.js:25 | The keys after a run are exactly the starting keys plus the upper-cased addresses of the run's requests. |
| Workflow.RunMonotone | application/application.js:9 | The store after any prefix of a run is contained, key-wise, in the store after the whole run. |
| Workflow.ReplayDuplicates | application/application.js:63-85 | Delivering a transfer event twice dispatches the same task twice and leaves the store unchanged. |
| Workflow.ReceiptAfterIntake | application/application.js:63-85 | Take a transfer of `t * 10^18` (`t` below 10^21) on the configured contract to a just-recorded address, in any spelling. It emails that request's buyer a receipt naming `t`. |
| Workflow.PaymentThenTransfer | application/application.js:21-60 | A request followed by its charge confirmation stores the email. It dispatches the charge and then a transfer of `number * 10^18` to the requested address. |
| Workflow.EndToEnd | application/application.js:21-85 | For fewer than 10^21 tokens, a request, its charge confirmation and the matching ledger transfer dispatch, in order, three tasks: the charge, the transfer, and a receipt to the buyer naming the token count. |
| Workflow.Scenario | application/application.js:21-85 | Buying 10 tokens for "0xABC" costs 400 cents and transfers "10000000000000000000" base units. The transfer reported to "0xabc" emails "a@b.com" a receipt for "10" tokens. A transfer on another contract sends nothing. |

## Left out

- The event bus (`application`, `resolve`, `listenEvent`, `listenResult`, `executeTask`, `encodeData`, `decodeData`, promise `.catch`). It is foreign I/O. Events are modelled as already-decoded records and tasks as output records.
- Dispatch failures are not modelled. A failed dispatch is only logged and changes no state.
- Decode failures are not modelled either. They would throw out of the listener; what happens next depends on the bus library and the runtime, and is outside the model.
- Logging (`console.log`, `console.error`) and the secrets from the environment (`STRIPE_SECRET`, `PRIVATE_KEY`, `SENDGRID_API_KEY`): these are I/O and configuration, and task records omit them.
- The source uses the task key `inputs` on one task and `input` on the others. It also encodes the email task with `decodeData`. Both are bus-encoding details, not logic.
- IEEE-754 arithmetic: `data.number * 0.4 * 100` is computed as a JavaScript float. The model uses the exact value the code intends and does not model rounding.
- Orchestrator.Settlement: `metadata.tokens * ERC20_DECIMALS` turns the BigNumber into a JavaScript number, and `Number.prototype.toString` prints 1000 tokens or more in exponential notation ("1e+21"). That form is exact decimal only for 0 to 999 tokens. The model writes the exact decimal string of `tokens * 10^18` for every token count.
- Orchestrator.ChargeAmount: covers whole-number token quantities only. The request's `number` may be a decimal, and fractional quantities are not modelled.
- Decimal.ParseInt: accepts `-?[0-9]+` only. `BigNumber` also trims surrounding whitespace and accepts `+`, decimal points, exponents, hexadecimal, "Infinity" and "-Infinity". All of these are read as NaN here.
- Orchestrator.ReceiptAmount: inherits the narrower parse. A value that `BigNumber` reads through one of the forms above is shown as "NaN" here, not as its amount.
- Decimal.FormatWholeTokens: the whole-token round trip is promised only below 10^21 tokens. From there on it promises only the exponent; `Amount.FormatUnitsRoundTrip` still fixes the value shown.
- Decimal.FormatUnitsWholeIff: the decimal-point equivalence is promised only in positional notation. In the exponential range only the exponent is promised.
- Decimal.FormatUnits: the exact exponential string (trailing zeros, exponent sign) is fixed by the definition only. The contracts promise its value, through `Amount.FormatUnitsRoundTrip`, and "1e-18" for one base unit.
- Orchestrator.ReceiptAmountWhole: the token count is promised only below 10^21 tokens, where the amount is shown positionally.
- Orchestrator.NotificationContent: the receipt names the token count only below 10^21 tokens, for the same reason.
- Workflow.ReceiptAfterIntake: the receipt names the token count only below 10^21 tokens, for the same reason.
- Workflow.EndToEnd: the three tasks are promised only below 10^21 tokens, for the same reason.
- Unicode `toUpperCase`: only ASCII letters are case-mapped. Addresses are hexadecimal.
- The exact receipt wording is modelled, but the properties only state that the body contains the amount and the hash. The Etherscan link is not analysed.
- Concurrency: handlers run one at a time, so interleaving is not modelled.
- Missing fields: application.js would throw a `TypeError` on a missing `ethAddress`, `contractAddress` or `metadata`. The model treats these fields as always present. Only `to` is optional, because application.js tests it.

# BloodBank chaincode, modelled in Dafny

This project models `BloodBank`, a Hyperledger Fabric smart contract for an
online blood bank. The contract keeps three kinds of record in the
channel's key-value world state:

- the stock of each blood type, under `inventory_<type>`;
- donors, under their donor id;
- blood requests, under their request id.

Its transactions do these things:

- initialise the stock of the four blood types A, B, O and AB to 100 units;
- register a donor;
- record a donation, which credits the stock and stamps the donor's last
  donation date;
- adjust a stock by a signed amount, refusing to go below zero;
- serve a blood request, which debits the stock and logs the request;
- append an entry to a donor's donation history;
- read a donor, a stock or a donation history.

The model is built in layers:

- `Basics` and `Records` hold the data model. `Records.Value` has one
  constructor per stored record kind. `Records.Ledger` is the world state
  as a `map`.
- `JsNumber` is JavaScript's `parseInt`.
  - `ParseInt` is `parseInt(s, 10)`. It skips leading white space, takes an
    optional sign and reads the longest run of decimal digits. Text with no
    digits gives `NaN`, modelled as `None`.
  - `ParseIntAutoRadix` is `parseInt(s)` with no radix, as the contract
    calls it for the age, for the `NaN` check of `donate` and for the
    amount of `updateBloodInventory`. After the sign, a `0x` or `0X` prefix
    switches to hexadecimal digits: `"0x1E"` is 30, `"0x"` is `NaN`.
  - `DecimalString` is the inverse direction, used to state what both
    parsers read back.
- `Transactions` holds one function per transaction. Each maps the
  committed ledger and the arguments to the reply and the ledger after the
  transaction. A transaction that throws leaves the ledger unchanged,
  because Fabric discards the writes of a failed invocation. The three
  getters are functions over the ledger.
- `Properties` proves what each transaction does, the exact conditions
  under which it fails, and that no sequence of transactions ever makes a
  stock negative.
- `Chaincode.BloodBank` is the contract as the peer runs it. The class
  has a `ledger` field.
  - One body method per transaction follows the source step by step. It
    reads the committed state, because `getState` does not see the
    transaction's own `putState` calls, and it collects a write set.
  - `Commit` applies the write set when the body returned and discards it
    when the body threw.
  - Each public method runs a body and then commits. It is proved to leave
    exactly the ledger that the matching `Transactions` function computes,
    and to preserve `Valid`, which says no stock is negative.

## Model

| member | source | states |
|---|---|---|
| JsNumber.TrimStart | Chaincode/assetTransfer.js:112 | `parseInt` starts reading after the leading white space: the result is a suffix of the input that does not start with white space |
| JsNumber.TrimStartDropsWhiteSpace | Chaincode/assetTransfer.js:112 | every character that `parseInt` skips is white space |
| JsNumber.ParseInt | Chaincode/assetTransfer.js:112 | `parseInt(quantity, 10)` is a number exactly when a decimal digit follows the white space and the optional sign |
| JsNumber.ParseIntAutoRadix | Chaincode/assetTransfer.js:85 | `parseInt(quantity)` with no radix agrees with radix 10 unless the digits start with `0x`/`0X`, and is a number only where radix 10 is |
| JsNumber.ParseIntReadsDecimal | Chaincode/assetTransfer.js:39 | `parseInt(s, 10)` reads back the decimal text of any integer, with its sign, and ignores whatever follows a non-digit |
| JsNumber.ParseIntAutoRadixReadsDecimal | Chaincode/assetTransfer.js:22 | `parseInt(s)` with no radix reads back the decimal text of any integer when no digit follows it, and no `x` follows a lone `0` ("12x" reads as 12) |
| JsNumber.ParseIntAutoRadixReadsHex | Chaincode/assetTransfer.js:99 | `parseInt(s)` with no radix reads a signed `0x`/`0X` number as its hexadecimal value and ignores whatever follows the hexadecimal digits |
| JsNumber.HexPrefixWithoutDigits | Chaincode/assetTransfer.js:85 | a `0x` prefix with no hexadecimal digit after it is `NaN` with no radix |
| JsNumber.ParseIntOfHexPrefix | Chaincode/assetTransfer.js:39 | radix 10 reads any text whose digits start with `0x`/`0X` as 0 |
| JsNumber.ParseIntAutoRadixAgreesOnNonZero | Chaincode/assetTransfer.js:35-39 | wherever radix 10 reads a number other than 0, `parseInt` with no radix reads the same number, so the two parses in `donate` disagree only on text that radix 10 reads as 0 |
| JsNumber.DecimalReadsHexPrefixAsZero | Chaincode/assetTransfer.js:39 | radix 10 reads any `0x`-prefixed text as 0 |
| JsNumber.ReadDigitsStopsAtNonDigit | Chaincode/assetTransfer.js:99 | decimal digit reading stops at the first non-digit ("12abc" reads as 12) |
| JsNumber.ReadHexDigitsStopsAtNonDigit | Chaincode/assetTransfer.js:99 | hexadecimal digit reading stops at the first non-hexadecimal character |
| JsNumber.ReadHexDigitsSnoc | Chaincode/assetTransfer.js:22 | each further hexadecimal digit multiplies the value read so far by 16 and adds its own value |
| JsNumber.ParseIntSkipsWhiteSpace | Chaincode/assetTransfer.js:112 | leading white space does not change the number read |
| JsNumber.ParseIntWithoutDigits | Chaincode/assetTransfer.js:35 | text without any digit parses to `NaN`, which the validation rejects |
| JsNumber.NatStringValue | Chaincode/assetTransfer.js:39 | reading the digits of a natural number's decimal text gives the number back |
| Records.InventoryKey | Chaincode/assetTransfer.js:180 | a stock's key is `inventory_` followed by the blood type, which can be read back from the key |
| Transactions.InitBloodInventory | Chaincode/assetTransfer.js:175-189 | initialisation always succeeds and removes no key |
| Transactions.RegisterDonor | Chaincode/assetTransfer.js:12-29 | a failed registration changes nothing; a successful one adds exactly the donor id to the keys |
| Transactions.Donate | Chaincode/assetTransfer.js:33-75 | a failed donation changes nothing; a successful one adds no key and replies with a stock record |
| Transactions.UpdateBloodInventory | Chaincode/assetTransfer.js:81-107 | a failed adjustment changes nothing; a successful one adds no key and replies with a stock that is not negative |
| Transactions.RequestBlood | Chaincode/assetTransfer.js:110-173 | a failed request changes nothing; a successful one adds exactly the request id to the keys and replies with a stock that is not negative |
| Transactions.AddDonationToHistory | Chaincode/assetTransfer.js:217-233 | a failed append changes nothing; a successful one adds no key and happens only for details passed as an object |
| Transactions.GetDonor | Chaincode/assetTransfer.js:191-197 | succeeds exactly when the id is stored, and then returns that record; otherwise not found |
| Transactions.GetBloodInventory | Chaincode/assetTransfer.js:199-206 | succeeds exactly when the blood type's key is stored, and then returns that record; otherwise not found |
| Transactions.GetDonationHistory | Chaincode/assetTransfer.js:208-215 | succeeds exactly when the id is stored; for a donor it returns that donor's history; for another record kind there is no history (`undefined`) |
| Properties.StockForContents | Chaincode/assetTransfer.js:176-186 | the inventory writes cover exactly the listed blood types, each with a stock of 100 |
| Properties.InitBloodInventoryResetsStock | Chaincode/assetTransfer.js:175-189 | initialisation succeeds and adds the four inventory keys; each holds its blood type with 100 units; every other key is unchanged |
| Properties.InitBloodInventoryReadBack | Chaincode/assetTransfer.js:199-206 | after initialisation, `getBloodInventory` reads 100 units for each of the four blood types |
| Properties.RegisterDonorValidates | Chaincode/assetTransfer.js:12-16 | registration fails, with a validation error and no change, exactly when one of the five arguments is empty |
| Properties.RegisterDonorStoresFreshDonor | Chaincode/assetTransfer.js:18-29 | with all arguments present, the donor is stored under its id, with the age as `parseInt` reads it with no radix, no last donation and an empty history; other keys keep their records; `getDonor` and `getDonationHistory` read it back |
| Properties.DonateRejectsInvalidArguments | Chaincode/assetTransfer.js:35-44 | a missing argument, a quantity that is `NaN` with no radix, or one that is at most 0 in radix 10 is a validation error and changes nothing |
| Properties.DonateRefusesHexQuantity | Chaincode/assetTransfer.js:35-44 | a `0x` quantity passes the radix-less `NaN` check, but radix 10 reads it as 0, so the donation is refused and nothing changes |
| Properties.DonateRequiresBothRecords | Chaincode/assetTransfer.js:48-63 | with valid arguments, a missing stock, or a present stock with a missing donor, is not-found and leaves the ledger as it was |
| Properties.DonateCreditsStock | Chaincode/assetTransfer.js:33-75 | donation succeeds exactly when the arguments are valid and both records exist; the stock then grows by the radix-10 quantity and the donor's last donation date is set; history and other fields stay; the reply is the new stock, which `getBloodInventory` reads back; no other key changes |
| Properties.UpdateBloodInventoryAppliesDelta | Chaincode/assetTransfer.js:81-107 | validation error exactly for an empty type or an amount that is `NaN` with no radix; not-found when there is no stock; otherwise success exactly when the new stock is not negative; on success only the stock changes, to the old stock plus the radix-less amount, and `getBloodInventory` reads it back |
| Properties.RequestBloodDebitsStock | Chaincode/assetTransfer.js:110-173 | validation error exactly for a `NaN` or non-positive quantity; not-found when there is no stock; otherwise success exactly when the quantity is within the stock; on success the stock drops by the quantity, `getBloodInventory` reads it back, and the request is stored, with the clock reading when no timestamp is given |
| Properties.AddDonationToHistoryAppends | Chaincode/assetTransfer.js:217-233 | not-found for an unknown donor; a validation error unless the details are truthy with a truthy date and quantity; success exactly for an object with a non-empty date and a non-zero quantity on a donor record; the entry is then appended and `getDonationHistory` returns the longer history |
| Properties.AddDonationToHistoryRefusesText | Chaincode/assetTransfer.js:218-226 | details passed as a string, which has no `date` property, are never appended: not-found for an unknown donor, otherwise the validation error, and the ledger is unchanged |
| Properties.DonateAndRequestScenario | Chaincode/assetTransfer.js:12-173 | after initialisation, donor D1 with blood type A is stored with no donation; donating 50 units gives a stock of 150 and stamps the date; requesting 40 leaves 110 and stores request R1 with 40 units; requesting 9999 is refused as insufficient and leaves the ledger unchanged |
| Properties.AddDonationToHistoryTextCounterexample | Chaincode/assetTransfer.js:224-229 | the JSON text of a complete entry is refused, while the same entry as an object is appended |
| Properties.InitKeepsStockNonNegative | Chaincode/assetTransfer.js:175-189 | initialisation keeps every stock non-negative |
| Properties.RegisterDonorKeepsStockNonNegative | Chaincode/assetTransfer.js:12-29 | registration keeps every stock non-negative |
| Properties.DonateKeepsStockNonNegative | Chaincode/assetTransfer.js:42-54 | a donation keeps every stock non-negative |
| Properties.UpdateKeepsStockNonNegative | Chaincode/assetTransfer.js:99-102 | an adjustment keeps every stock non-negative |
| Properties.RequestBloodKeepsStockNonNegative | Chaincode/assetTransfer.js:136-141 | a request keeps every stock non-negative |
| Properties.AddDonationKeepsStockNonNegative | Chaincode/assetTransfer.js:217-233 | a history append keeps every stock non-negative |
| Properties.StepKeepsStockNonNegative | Chaincode/assetTransfer.js:100-102 | every transaction, committed or aborted, keeps every stock non-negative |
| Properties.RunKeepsStockNonNegative | Chaincode/assetTransfer.js:136-138 | every sequence of transactions keeps every stock non-negative |
| Chaincode.BloodBank.constructor | Chaincode/assetTransfer.js:5 | the contract starts on the given world state, and is valid exactly when no stock in it is negative |
| Chaincode.BloodBank.Commit | Chaincode/assetTransfer.js:185 | the writes of an invocation are applied when it returns and discarded when it throws |
| Chaincode.BloodBank.InitBloodInventoryBody | Chaincode/assetTransfer.js:176-188 | the loop writes exactly the four inventory keys, each with its blood type and 100 units |
| Chaincode.BloodBank.RegisterDonorBody | Chaincode/assetTransfer.js:12-29 | gives the reply of `registerDonor`; writes nothing on a validation error; otherwise writes exactly the registered ledger |
| Chaincode.BloodBank.DonateBody | Chaincode/assetTransfer.js:33-75 | gives the reply of `donate`; writes only the stock key and the donor id; a missing donor is found only after the stock, credited with the radix-10 quantity, is already in the write set |
| Chaincode.BloodBank.UpdateBloodInventoryBody | Chaincode/assetTransfer.js:81-107 | gives the reply of `updateBloodInventory`; writes nothing on an error |
| Chaincode.BloodBank.RequestBloodBody | Chaincode/assetTransfer.js:110-173 | gives the reply of `requestBlood`; writes nothing on an error, and the debited stock and the request on success |
| Chaincode.BloodBank.AddDonationToHistoryBody | Chaincode/assetTransfer.js:217-233 | gives the reply of `addDonationToHistory`; writes nothing on an error |
| Chaincode.BloodBank.InitBloodInventory | Chaincode/assetTransfer.js:175-189 | the ledger becomes the initialised one and no stock turns negative |
| Chaincode.BloodBank.InitLedger | Chaincode/assetTransfer.js:6-9 | `InitLedger` has exactly the effect of `initBloodInventory` |
| Chaincode.BloodBank.RegisterDonor | Chaincode/assetTransfer.js:12-29 | the committed ledger and reply are those of `registerDonor`; no stock turns negative |
| Chaincode.BloodBank.Donate | Chaincode/assetTransfer.js:33-75 | the committed ledger and reply are those of `donate`; a failed donation, including one whose stock write was pending, leaves the ledger unchanged; no stock turns negative |
| Chaincode.BloodBank.UpdateBloodInventory | Chaincode/assetTransfer.js:81-107 | the committed ledger and reply are those of `updateBloodInventory`; no stock turns negative |
| Chaincode.BloodBank.RequestBlood | Chaincode/assetTransfer.js:110-173 | the committed ledger and reply are those of `requestBlood`; no stock turns negative |
| Chaincode.BloodBank.AddDonationToHistory | Chaincode/assetTransfer.js:217-233 | the committed ledger and reply are those of `addDonationToHistory` on the argument as given; no stock turns negative |

## Left out

- The transaction context, `ctx.stub`, `Buffer` and JSON encoding are not
  modelled. Records are stored as Dafny values, and replies are those
  values rather than their JSON text.
- The reply's message text is not modelled. `initBloodInventory` replies
  with unit, where the source returns a fixed string.
- Error messages are not modelled: an error is only its kind.
- `console.log` is left out.
- `new Date().toISOString()` is the `now` parameter of `requestBlood`.
- Concurrency, endorsement, MVCC conflicts between transactions and
  failures of `putState` are left out. A failed `putState` would be
  rethrown with a new message by the `try`/`catch` in `requestBlood`.
- A record that fails `JSON.parse` is left out: every stored value is a
  well-formed record.
- A key that holds a record of another kind than the transaction expects
  gives `Malformed`, with the ledger unchanged. Case by case:
  - `addDonationToHistory` on a donor id that holds a stock or a request
    matches the source: `donationHistory` is `undefined` there, so the
    `.push` at `Chaincode/assetTransfer.js:229` throws a TypeError and
    nothing is stored.
  - `donate`, `updateBloodInventory` and `requestBlood` on a stock key
    that holds a donor differ from the source. The donor has no
    `quantity`, so the source computes `NaN`, passes the checks at :100
    and :136 because a comparison with `NaN` is false, and stores the
    donor with a `quantity` of `NaN`, which `JSON.stringify` writes as
    `null`.
  - The same three transactions on a stock key that holds a request
    differ too. A request has a numeric `quantity`, which
    `requestBlood("inventory_A", "A", …)` can put there. The source
    credits or debits that record like a stock at :54, :99 and :141, and
    stores it with its request fields kept.
  - `donate` on a donor id that holds a stock or a request differs from
    the source. The source sets `lastDonationDate` on that record at :66
    and stores it, after the credited stock; when the donor id is the
    stock key itself, this second write replaces the credited stock.
- Keys are not validated against Fabric's own rules: an empty or
  composite-key request id is accepted.
- JsNumber.ParseInt: JavaScript numbers are not modelled as IEEE doubles.
  The parsed value is an unbounded integer, so digit runs beyond 2^53 do
  not lose precision, and `-0` is 0. JsNumber.ParseIntAutoRadix has the
  same limits.
- Records.Detail: a history entry is an object whose `date` is a string
  and whose `quantity` is a number; an absent date is "" and an absent or
  `NaN` quantity is 0, which are falsy just like the missing property.
  Entries whose date or quantity has another JSON type are not modelled.
  This includes a string quantity, which the check at
  `Chaincode/assetTransfer.js:224` accepts whenever it is non-empty, even
  `"0"` or `"five"`. Other properties of the object are not kept.
- Transactions.GetDonor, Transactions.GetBloodInventory and
  Transactions.GetDonationHistory are functions over the ledger rather
  than class methods, because they change nothing.

## Findings

| source | as written | input that shows it | evidently intended | confidence | as-written member | corrected member |
|---|---|---|---|---|---|---|
| Chaincode/assetTransfer.js:217-229 | `addDonationToHistory` tests `donationDetails.date` and `donationDetails.quantity`, but the contract API passes every transaction argument as a string, and a string has neither property | donor `D1` registered, `donationDetails` = `{"date":"2024-01-01","quantity":5}` as JSON text: the call throws "Donation details must include date and quantity." | parse the argument into an object with a date and a quantity, then append it to the donor's history | medium (not executed) | Properties.AddDonationToHistoryRefusesText | Properties.AddDonationToHistoryAppends |

/** Each BloodBank transaction as one step from the committed ledger to the
    reply and the ledger after commit. A transaction that throws leaves the
    ledger as it was: Fabric discards the writes of a failed invocation. */
module Transactions {
  import opened Basics
  import opened Records
  import JsNumber

  function Reject<T>(L: Ledger, error: Error): Outcome<T>
  {
    Outcome(Err(error), L)
  }

  /** The inventory records that initialisation writes for `bloodTypes`. */
  function StockFor(bloodTypes: seq<string>): Ledger
  {
    if bloodTypes == [] then map[]
    else
      var bloodType := bloodTypes[|bloodTypes| - 1];
      StockFor(bloodTypes[..|bloodTypes| - 1])[InventoryKey(bloodType) := Inventory(bloodType, InitialQuantity)]
  }

  /** `initBloodInventory`: reset the stock of every blood type. */
  function InitBloodInventory(L: Ledger): (o: Outcome<()>)
    ensures o.reply == Ok(()) && L.Keys <= o.ledger.Keys
  {
    Outcome(Ok(()), L + StockFor(BloodTypes))
  }

  /** `registerDonor`: store a fresh donor under its id, replacing whatever
      the key held. The age is stored as `parseInt` without a radix reads
      it, `NaN` (`None`) included. */
  function RegisterDonor(L: Ledger, donorID: string, donorName: string, bloodType: string,
                         age: string, phoneNumber: string): (o: Outcome<string>)
    ensures o.reply.Err? ==> o.ledger == L
    ensures o.reply.Ok? ==> o.ledger.Keys == L.Keys + {donorID}
  {
    if Missing(donorID) || Missing(donorName) || Missing(bloodType) || Missing(age) || Missing(phoneNumber) then
      Reject(L, Validation)
    else
      var donor := Donor(donorID, donorName, bloodType, JsNumber.ParseIntAutoRadix(age), phoneNumber, None, []);
      Outcome(Ok(donorID), L[donorID := donor])
  }

  /** `donate`: credit the blood type's stock and stamp the donor's last
      donation date. The donation history is not touched. The `NaN` check
      parses without a radix, the amount credited with radix 10. */
  function Donate(L: Ledger, donorID: string, bloodType: string, quantity: string,
                  donationDate: string): (o: Outcome<Value>)
    ensures o.reply.Err? ==> o.ledger == L
    ensures o.reply.Ok? ==> o.ledger.Keys == L.Keys && o.reply.value.Inventory?
  {
    var parsed := JsNumber.ParseInt(quantity);
    var key := InventoryKey(bloodType);
    if Missing(donorID) || Missing(bloodType) || JsNumber.ParseIntAutoRadix(quantity).None? || Missing(donationDate) then
      Reject(L, Validation)
    else if parsed.value <= 0 then Reject(L, Validation)
    else if key !in L then Reject(L, NotFound)
    else if !L[key].Inventory? then Reject(L, Malformed)
    else if donorID !in L then Reject(L, NotFound)
    else if !L[donorID].Donor? then Reject(L, Malformed)
    else
      var inventory := Inventory(L[key].bloodType, L[key].quantity + parsed.value);
      var donor := L[donorID].(lastDonationDate := Some(donationDate));
      Outcome(Ok(inventory), L[key := inventory][donorID := donor])
  }

  /** `updateBloodInventory`: apply a signed delta to a blood type's stock,
      refusing one that would leave it negative. The delta is parsed
      without a radix. */
  function UpdateBloodInventory(L: Ledger, bloodType: string, quantity: string): (o: Outcome<Value>)
    ensures o.reply.Err? ==> o.ledger == L
    ensures o.reply.Ok? ==> o.ledger.Keys == L.Keys && o.reply.value.Inventory? && o.reply.value.quantity >= 0
  {
    var delta := JsNumber.ParseIntAutoRadix(quantity);
    var key := InventoryKey(bloodType);
    if Missing(bloodType) || delta.None? then Reject(L, Validation)
    else if key !in L then Reject(L, NotFound)
    else if !L[key].Inventory? then Reject(L, Malformed)
    else if L[key].quantity + delta.value < 0 then Reject(L, Negative)
    else
      var inventory := Inventory(L[key].bloodType, L[key].quantity + delta.value);
      Outcome(Ok(inventory), L[key := inventory])
  }

  /** `requestBlood`: debit a blood type's stock and log the request under
      its id. `now` is the clock reading used when no timestamp is given. */
  function RequestBlood(L: Ledger, requestID: string, bloodType: string, quantity: string,
                        timestamp: string, now: string): (o: Outcome<(Value, Value)>)
    ensures o.reply.Err? ==> o.ledger == L
    ensures o.reply.Ok? ==> o.ledger.Keys == L.Keys + {requestID} && o.reply.value.1.Inventory?
                            && o.reply.value.1.quantity >= 0
  {
    var parsed := JsNumber.ParseInt(quantity);
    var key := InventoryKey(bloodType);
    if parsed.None? || parsed.value <= 0 then Reject(L, Validation)
    else if key !in L then Reject(L, NotFound)
    else if !L[key].Inventory? then Reject(L, Malformed)
    else if L[key].quantity < parsed.value then Reject(L, Insufficient)
    else
      var inventory := Inventory(L[key].bloodType, L[key].quantity - parsed.value);
      var request := Request(requestID, bloodType, parsed.value, if Missing(timestamp) then now else timestamp);
      Outcome(Ok((request, inventory)), L[key := inventory][requestID := request])
  }

  /** `addDonationToHistory`: append the details to the donor's history.
      They must be an object with a truthy `date` and `quantity`; a string,
      which is how the contract API passes every argument, has neither
      property. */
  function AddDonationToHistory(L: Ledger, donorID: string, details: Argument): (o: Outcome<Value>)
    ensures o.reply.Err? ==> o.ledger == L
    ensures o.reply.Ok? ==> o.ledger.Keys == L.Keys && details.Object?
  {
    if donorID !in L then Reject(L, NotFound)
    else if !HasDateAndQuantity(details) then Reject(L, Validation)
    else if !L[donorID].Donor? then Reject(L, Malformed)
    else
      var donor := L[donorID].(donationHistory := L[donorID].donationHistory + [details.details]);
      Outcome(Ok(donor), L[donorID := donor])
  }

  /** `getDonor`: the record stored under the id, whatever its kind. */
  function GetDonor(L: Ledger, donorID: string): (r: Result<Value>)
    ensures r.Ok? <==> donorID in L
    ensures r.Ok? ==> r.value == L[donorID]
    ensures r.Err? ==> r.error == NotFound
  {
    if donorID in L then Ok(L[donorID]) else Err(NotFound)
  }

  /** `getBloodInventory`: the record stored under the blood type's key. */
  function GetBloodInventory(L: Ledger, bloodType: string): (r: Result<Value>)
    ensures r.Ok? <==> InventoryKey(bloodType) in L
    ensures r.Ok? ==> r.value == L[InventoryKey(bloodType)]
    ensures r.Err? ==> r.error == NotFound
  {
    var key := InventoryKey(bloodType);
    if key in L then Ok(L[key]) else Err(NotFound)
  }

  /** `getDonationHistory`: the donor's history; a record of another kind
      has no history field, and the reply is then `undefined` (`None`). */
  function GetDonationHistory(L: Ledger, donorID: string): (r: Result<Option<seq<Detail>>>)
    ensures r.Ok? <==> donorID in L
    ensures r.Ok? ==> (r.value.Some? <==> L[donorID].Donor?)
    ensures r.Ok? && L[donorID].Donor? ==> r.value.value == L[donorID].donationHistory
    ensures r.Err? ==> r.error == NotFound
  {
    if donorID !in L then Err(NotFound)
    else if L[donorID].Donor? then Ok(Some(L[donorID].donationHistory))
    else Ok(None)
  }

  /** No inventory record holds a negative quantity. */
  ghost predicate StockNonNegative(L: Ledger)
  {
    forall key :: key in L && L[key].Inventory? ==> L[key].quantity >= 0
  }
}

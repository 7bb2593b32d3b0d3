/** The BloodBank contract as the peer runs it. `ledger` is the committed
    world state. A transaction body reads the committed state (`getState`
    does not see the transaction's own `putState` calls) and collects its
    writes. When the body returns, `Commit` applies the writes; when it
    throws, they are discarded. */
module Chaincode {
  import opened Basics
  import opened Records
  import JsNumber
  import T = Transactions
  import P = Properties

  /** Committing two writes is updating the ledger twice, in order. */
  lemma CommitTwoWrites(L: Ledger, k1: string, v1: Value, k2: string, v2: Value)
    ensures L + map[k1 := v1][k2 := v2] == L[k1 := v1][k2 := v2]
  {
    var merged, updated := L + map[k1 := v1][k2 := v2], L[k1 := v1][k2 := v2];
    assert merged.Keys == updated.Keys;
    forall key | key in merged
      ensures merged[key] == updated[key]
    {
    }
  }

  class BloodBank {
    /** The committed world state: key to record. */
    var ledger: Ledger

    /** No blood type is out of stock below zero. */
    ghost predicate Valid()
      reads this
    {
      T.StockNonNegative(ledger)
    }

    constructor (initial: Ledger)
      ensures ledger == initial
      ensures Valid() <==> T.StockNonNegative(initial)
    {
      ledger := initial;
    }

    /** The end of an invocation: the write set is applied if the body
        returned, and discarded if it threw. */
    method Commit(ok: bool, writes: Ledger)
      modifies this
      ensures ledger == if ok then old(ledger) + writes else old(ledger)
    {
      if ok {
        ledger := ledger + writes;
      }
    }

    /** The body of `initBloodInventory`: one `putState` per blood type, in
        order, each writing a stock of 100. */
    method InitBloodInventoryBody() returns (r: Result<()>, writes: Ledger)
      ensures r == Ok(())
      ensures writes.Keys == P.InventoryKeys
      ensures forall bloodType :: bloodType in BloodTypes ==>
                InventoryKey(bloodType) in writes && writes[InventoryKey(bloodType)] == Inventory(bloodType, InitialQuantity)
      ensures ledger + writes == T.InitBloodInventory(ledger).ledger
    {
      writes := map[];
      for i := 0 to |BloodTypes|
        invariant writes == T.StockFor(BloodTypes[..i])
      {
        var bloodType := BloodTypes[i];
        writes := writes[InventoryKey(bloodType) := Inventory(bloodType, InitialQuantity)];
        assert BloodTypes[..i + 1][..i] == BloodTypes[..i];
      }
      assert BloodTypes[..|BloodTypes|] == BloodTypes;
      P.InitBloodInventoryResetsStock(map[]);
      P.StockForContents(BloodTypes);
      r := Ok(());
    }

    /** The body of `registerDonor`: validate, then one `putState` of the
        fresh donor record. */
    method RegisterDonorBody(donorID: string, donorName: string, bloodType: string, age: string,
                             phoneNumber: string)
      returns (r: Result<string>, writes: Ledger)
      ensures var o := T.RegisterDonor(ledger, donorID, donorName, bloodType, age, phoneNumber);
        r == o.reply && (r.Ok? ==> ledger + writes == o.ledger)
      ensures r.Err? ==> writes == map[]
    {
      if Missing(donorID) || Missing(donorName) || Missing(bloodType) || Missing(age) || Missing(phoneNumber) {
        return Err(Validation), map[];
      }
      var donor := Donor(donorID, donorName, bloodType, JsNumber.ParseIntAutoRadix(age), phoneNumber, None, []);
      writes := map[donorID := donor];
      r := Ok(donorID);
    }

    /** The body of `donate`: the credited stock is written before the donor
        is looked up, so a missing donor throws with that write pending. */
    method DonateBody(donorID: string, bloodType: string, quantity: string, donationDate: string)
      returns (r: Result<Value>, writes: Ledger)
      ensures var o := T.Donate(ledger, donorID, bloodType, quantity, donationDate);
        r == o.reply && (r.Ok? ==> ledger + writes == o.ledger)
      ensures writes.Keys <= {InventoryKey(bloodType), donorID}
      ensures r == Err(NotFound) && InventoryKey(bloodType) in ledger ==> InventoryKey(bloodType) in writes
      ensures var key := InventoryKey(bloodType);
        r.Err? && key in writes ==>
          && key in ledger && ledger[key].Inventory? && JsNumber.ParseInt(quantity).Some?
          && writes[key] == Inventory(ledger[key].bloodType, ledger[key].quantity + JsNumber.ParseInt(quantity).value)
    {
      var parsed := JsNumber.ParseInt(quantity);
      if Missing(donorID) || Missing(bloodType) || JsNumber.ParseIntAutoRadix(quantity).None? || Missing(donationDate) {
        return Err(Validation), map[];
      }
      if parsed.value <= 0 {
        return Err(Validation), map[];
      }
      var key := InventoryKey(bloodType);
      if key !in ledger {
        return Err(NotFound), map[];
      }
      if !ledger[key].Inventory? {
        return Err(Malformed), map[];
      }
      var inventory := Inventory(ledger[key].bloodType, ledger[key].quantity + parsed.value);
      writes := map[key := inventory];
      if donorID !in ledger {
        return Err(NotFound), writes;
      }
      if !ledger[donorID].Donor? {
        return Err(Malformed), writes;
      }
      var donor := ledger[donorID].(lastDonationDate := Some(donationDate));
      writes := writes[donorID := donor];
      CommitTwoWrites(ledger, key, inventory, donorID, donor);
      r := Ok(inventory);
    }

    /** The body of `updateBloodInventory`: one `putState` of the adjusted
        stock, or none. */
    method UpdateBloodInventoryBody(bloodType: string, quantity: string) returns (r: Result<Value>, writes: Ledger)
      ensures var o := T.UpdateBloodInventory(ledger, bloodType, quantity);
        r == o.reply && (r.Ok? ==> ledger + writes == o.ledger)
      ensures r.Err? ==> writes == map[]
    {
      var key := InventoryKey(bloodType);
      var delta := JsNumber.ParseIntAutoRadix(quantity);
      if Missing(bloodType) || delta.None? {
        return Err(Validation), map[];
      }
      if key !in ledger {
        return Err(NotFound), map[];
      }
      if !ledger[key].Inventory? {
        return Err(Malformed), map[];
      }
      var stock := ledger[key].quantity + delta.value;
      if stock < 0 {
        return Err(Negative), map[];
      }
      var inventory := Inventory(ledger[key].bloodType, stock);
      writes := map[key := inventory];
      r := Ok(inventory);
    }

    /** The body of `requestBlood`: the debited stock is written, then the
        request record. */
    method RequestBloodBody(requestID: string, bloodType: string, quantity: string, timestamp: string,
                            now: string)
      returns (r: Result<(Value, Value)>, writes: Ledger)
      ensures var o := T.RequestBlood(ledger, requestID, bloodType, quantity, timestamp, now);
        r == o.reply && (r.Ok? ==> ledger + writes == o.ledger)
      ensures r.Err? ==> writes == map[]
    {
      ghost var o := T.RequestBlood(ledger, requestID, bloodType, quantity, timestamp, now);
      var parsed := JsNumber.ParseInt(quantity);
      if parsed.None? || parsed.value <= 0 {
        assert o == T.Reject(ledger, Validation);
        return Err(Validation), map[];
      }
      var key := InventoryKey(bloodType);
      if key !in ledger {
        assert o == T.Reject(ledger, NotFound);
        return Err(NotFound), map[];
      }
      if !ledger[key].Inventory? {
        assert o == T.Reject(ledger, Malformed);
        return Err(Malformed), map[];
      }
      if ledger[key].quantity < parsed.value {
        assert o == T.Reject(ledger, Insufficient);
        return Err(Insufficient), map[];
      }
      var inventory := Inventory(ledger[key].bloodType, ledger[key].quantity - parsed.value);
      writes := map[key := inventory];
      var request := Request(requestID, bloodType, parsed.value, if Missing(timestamp) then now else timestamp);
      writes := writes[requestID := request];
      assert o == Outcome(Ok((request, inventory)), ledger[key := inventory][requestID := request]);
      CommitTwoWrites(ledger, key, inventory, requestID, request);
      r := Ok((request, inventory));
    }

    /** The body of `addDonationToHistory`: one `putState` of the donor
        with the details appended. */
    method AddDonationToHistoryBody(donorID: string, details: Argument)
      returns (r: Result<Value>, writes: Ledger)
      ensures var o := T.AddDonationToHistory(ledger, donorID, details);
        r == o.reply && (r.Ok? ==> ledger + writes == o.ledger)
      ensures r.Err? ==> writes == map[]
    {
      if donorID !in ledger {
        return Err(NotFound), map[];
      }
      if !Truthy(details) || !TruthyString(DateOf(details)) || !TruthyNumber(QuantityOf(details)) {
        return Err(Validation), map[];
      }
      if !ledger[donorID].Donor? {
        return Err(Malformed), map[];
      }
      var donor := ledger[donorID].(donationHistory := ledger[donorID].donationHistory + [details.details]);
      writes := map[donorID := donor];
      r := Ok(donor);
    }

    /** `initBloodInventory` as one invocation. */
    method InitBloodInventory() returns (r: Result<()>)
      modifies this
      ensures var o := T.InitBloodInventory(old(ledger));
        r == o.reply && ledger == o.ledger
      ensures old(Valid()) ==> Valid()
    {
      var writes;
      r, writes := InitBloodInventoryBody();
      Commit(r.Ok?, writes);
      if T.StockNonNegative(old(ledger)) {
        P.InitKeepsStockNonNegative(old(ledger));
      }
    }

    /** `InitLedger`: initialise the inventory. */
    method InitLedger()
      modifies this
      ensures ledger == T.InitBloodInventory(old(ledger)).ledger
      ensures old(Valid()) ==> Valid()
    {
      var _ := InitBloodInventory();
    }

    /** `registerDonor` as one invocation. */
    method RegisterDonor(donorID: string, donorName: string, bloodType: string, age: string, phoneNumber: string)
      returns (r: Result<string>)
      modifies this
      ensures var o := T.RegisterDonor(old(ledger), donorID, donorName, bloodType, age, phoneNumber);
        r == o.reply && ledger == o.ledger
      ensures old(Valid()) ==> Valid()
    {
      var writes;
      r, writes := RegisterDonorBody(donorID, donorName, bloodType, age, phoneNumber);
      Commit(r.Ok?, writes);
      if T.StockNonNegative(old(ledger)) {
        P.RegisterDonorKeepsStockNonNegative(old(ledger), donorID, donorName, bloodType, age, phoneNumber);
      }
    }

    /** `donate` as one invocation: a failure after the stock was written
        still leaves the ledger as it was. */
    method Donate(donorID: string, bloodType: string, quantity: string, donationDate: string)
      returns (r: Result<Value>)
      modifies this
      ensures var o := T.Donate(old(ledger), donorID, bloodType, quantity, donationDate);
        r == o.reply && ledger == o.ledger
      ensures r.Err? ==> ledger == old(ledger)
      ensures old(Valid()) ==> Valid()
    {
      var writes;
      r, writes := DonateBody(donorID, bloodType, quantity, donationDate);
      Commit(r.Ok?, writes);
      if T.StockNonNegative(old(ledger)) {
        P.DonateKeepsStockNonNegative(old(ledger), donorID, bloodType, quantity, donationDate);
      }
    }

    /** `updateBloodInventory` as one invocation. */
    method UpdateBloodInventory(bloodType: string, quantity: string) returns (r: Result<Value>)
      modifies this
      ensures var o := T.UpdateBloodInventory(old(ledger), bloodType, quantity);
        r == o.reply && ledger == o.ledger
      ensures old(Valid()) ==> Valid()
    {
      var writes;
      r, writes := UpdateBloodInventoryBody(bloodType, quantity);
      Commit(r.Ok?, writes);
      if T.StockNonNegative(old(ledger)) {
        P.UpdateKeepsStockNonNegative(old(ledger), bloodType, quantity);
      }
    }

    /** `requestBlood` as one invocation; `now` is the clock reading. */
    method RequestBlood(requestID: string, bloodType: string, quantity: string, timestamp: string, now: string)
      returns (r: Result<(Value, Value)>)
      modifies this
      ensures var o := T.RequestBlood(old(ledger), requestID, bloodType, quantity, timestamp, now);
        r == o.reply && ledger == o.ledger
      ensures old(Valid()) ==> Valid()
    {
      var writes;
      r, writes := RequestBloodBody(requestID, bloodType, quantity, timestamp, now);
      Commit(r.Ok?, writes);
      if T.StockNonNegative(old(ledger)) {
        P.RequestBloodKeepsStockNonNegative(old(ledger), requestID, bloodType, quantity, timestamp, now);
      }
    }

    /** `addDonationToHistory` as one invocation. */
    method AddDonationToHistory(donorID: string, details: Argument) returns (r: Result<Value>)
      modifies this
      ensures var o := T.AddDonationToHistory(old(ledger), donorID, details);
        r == o.reply && ledger == o.ledger
      ensures old(Valid()) ==> Valid()
    {
      var writes;
      r, writes := AddDonationToHistoryBody(donorID, details);
      Commit(r.Ok?, writes);
      if T.StockNonNegative(old(ledger)) {
        P.AddDonationKeepsStockNonNegative(old(ledger), donorID, details);
      }
    }
  }
}

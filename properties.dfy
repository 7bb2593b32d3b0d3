/** What the BloodBank transactions guarantee, stated over the step
    functions of `Transactions`: which keys each one writes, what it writes
    there, when it throws, and that no sequence of them drives a stock below
    zero. */
module Properties {
  import opened Basics
  import opened Records
  import JsNumber
  import T = Transactions

  /** The four inventory keys initialisation writes. */
  const InventoryKeys: set<string> := {"inventory_A", "inventory_B", "inventory_O", "inventory_AB"}

  lemma InventoryKeyInjective(a: string, b: string)
    requires a != b
    ensures InventoryKey(a) != InventoryKey(b)
  {
    assert InventoryKey(a)[10..] == a;
  }

  lemma {:induction false} StockForContents(bloodTypes: seq<string>)
    ensures T.StockFor(bloodTypes).Keys == set bloodType | bloodType in bloodTypes :: InventoryKey(bloodType)
    ensures forall bloodType :: bloodType in bloodTypes ==>
              T.StockFor(bloodTypes)[InventoryKey(bloodType)] == Inventory(bloodType, InitialQuantity)
  {
    if bloodTypes != [] {
      var front, last := bloodTypes[..|bloodTypes| - 1], bloodTypes[|bloodTypes| - 1];
      StockForContents(front);
      assert bloodTypes == front + [last];
      forall bloodType | bloodType in bloodTypes
        ensures T.StockFor(bloodTypes)[InventoryKey(bloodType)] == Inventory(bloodType, InitialQuantity)
      {
        if bloodType != last {
          InventoryKeyInjective(bloodType, last);
        }
      }
    }
  }

  /** `initBloodInventory` writes exactly the four inventory keys, each with
      its own blood type and 100 units, and leaves every other key alone. */
  lemma InitBloodInventoryResetsStock(L: Ledger)
    ensures T.InitBloodInventory(L).reply == Ok(())
    ensures T.InitBloodInventory(L).ledger.Keys == L.Keys + InventoryKeys
    ensures T.InitBloodInventory(L).ledger["inventory_A"] == Inventory("A", 100)
    ensures T.InitBloodInventory(L).ledger["inventory_B"] == Inventory("B", 100)
    ensures T.InitBloodInventory(L).ledger["inventory_O"] == Inventory("O", 100)
    ensures T.InitBloodInventory(L).ledger["inventory_AB"] == Inventory("AB", 100)
    ensures forall key :: key in L && key !in InventoryKeys ==> T.InitBloodInventory(L).ledger[key] == L[key]
  {
    StockForContents(BloodTypes);
    assert InventoryKey("A") == "inventory_A" && InventoryKey("B") == "inventory_B";
    assert InventoryKey("O") == "inventory_O" && InventoryKey("AB") == "inventory_AB";
    assert (set bloodType | bloodType in BloodTypes :: InventoryKey(bloodType)) == InventoryKeys;
  }

  /** After initialisation, `getBloodInventory` reads 100 units of every
      blood type. */
  lemma InitBloodInventoryReadBack(L: Ledger)
    ensures forall bloodType :: bloodType in BloodTypes ==>
              T.GetBloodInventory(T.InitBloodInventory(L).ledger, bloodType) == Ok(Inventory(bloodType, InitialQuantity))
  {
    StockForContents(BloodTypes);
  }

  /** `registerDonor` throws, changing nothing, exactly when one of its five
      arguments is missing; a numeric age is not required. */
  lemma RegisterDonorValidates(L: Ledger, donorID: string, donorName: string, bloodType: string,
                               age: string, phoneNumber: string)
    ensures var o := T.RegisterDonor(L, donorID, donorName, bloodType, age, phoneNumber);
      && (o.reply.Err? <==> Missing(donorID) || Missing(donorName) || Missing(bloodType)
                            || Missing(age) || Missing(phoneNumber))
      && (o.reply.Err? ==> o.reply.error == Validation && o.ledger == L)
  {
  }

  /** A registration stores a donor with no donation yet under its id,
      overwriting any record there, and `getDonor` and `getDonationHistory`
      read it back. */
  lemma RegisterDonorStoresFreshDonor(L: Ledger, donorID: string, donorName: string, bloodType: string,
                                      age: string, phoneNumber: string)
    requires !Missing(donorID) && !Missing(donorName) && !Missing(bloodType)
    requires !Missing(age) && !Missing(phoneNumber)
    ensures var o := T.RegisterDonor(L, donorID, donorName, bloodType, age, phoneNumber);
      && o.reply == Ok(donorID)
      && o.ledger.Keys == L.Keys + {donorID}
      && (forall key :: key in L && key != donorID ==> o.ledger[key] == L[key])
      && T.GetDonor(o.ledger, donorID)
         == Ok(Donor(donorID, donorName, bloodType, JsNumber.ParseIntAutoRadix(age), phoneNumber, None, []))
      && T.GetDonationHistory(o.ledger, donorID) == Ok(Some([]))
  {
  }

  /** `donate` throws a validation error, changing nothing, on a missing
      argument, a quantity that is `NaN` without a radix, or one that is not
      positive in radix 10. */
  lemma DonateRejectsInvalidArguments(L: Ledger, donorID: string, bloodType: string, quantity: string,
                                      donationDate: string)
    requires Missing(donorID) || Missing(bloodType) || Missing(donationDate)
             || JsNumber.ParseIntAutoRadix(quantity).None?
             || (JsNumber.ParseInt(quantity).Some? && JsNumber.ParseInt(quantity).value <= 0)
    ensures T.Donate(L, donorID, bloodType, quantity, donationDate) == Outcome(Err(Validation), L)
  {
  }

  /** A hexadecimal quantity passes the `NaN` check, which parses without a
      radix, but radix 10 reads it as 0, so `donate` refuses it. */
  lemma DonateRefusesHexQuantity(L: Ledger, donorID: string, bloodType: string, donationDate: string,
                                 sign: string, prefix: string, digits: string)
    requires sign == "-" || sign == ""
    requires prefix == "0x" || prefix == "0X"
    ensures T.Donate(L, donorID, bloodType, sign + (prefix + digits), donationDate) == Outcome(Err(Validation), L)
  {
    JsNumber.DecimalReadsHexPrefixAsZero(sign, prefix, digits);
  }

  /** With valid arguments, `donate` throws not-found, changing nothing, when
      the blood type has no inventory, or has one but the donor does not
      exist; in that second case the transaction body has already written
      the credited stock (see `BloodBank.DonateBody`), and only the abort of
      the whole invocation undoes it. */
  lemma DonateRequiresBothRecords(L: Ledger, donorID: string, bloodType: string, quantity: string,
                                  donationDate: string)
    requires !Missing(donorID) && !Missing(bloodType) && !Missing(donationDate)
    requires JsNumber.ParseIntAutoRadix(quantity).Some? && JsNumber.ParseInt(quantity).value > 0
    requires InventoryKey(bloodType) !in L || (L[InventoryKey(bloodType)].Inventory? && donorID !in L)
    ensures T.Donate(L, donorID, bloodType, quantity, donationDate) == Outcome(Err(NotFound), L)
  {
  }

  /** A donation succeeds exactly when the arguments are valid and both
      records exist with their kinds; then the stock grows by the quantity,
      the donor's last donation date is set, its history and every other
      field stay, and no other key changes. */
  lemma DonateCreditsStock(L: Ledger, donorID: string, bloodType: string, quantity: string,
                           donationDate: string)
    ensures var o := T.Donate(L, donorID, bloodType, quantity, donationDate);
      var key := InventoryKey(bloodType);
      var parsed := JsNumber.ParseInt(quantity);
      && (o.reply.Ok? <==>
            && !Missing(donorID) && !Missing(bloodType) && !Missing(donationDate)
            && JsNumber.ParseIntAutoRadix(quantity).Some? && parsed.Some? && parsed.value > 0
            && key in L && L[key].Inventory? && donorID in L && L[donorID].Donor?)
      && (o.reply.Err? ==> o.ledger == L)
      && (o.reply.Ok? ==>
            && o.ledger.Keys == L.Keys
            && o.reply.value == o.ledger[key]
            && T.GetBloodInventory(o.ledger, bloodType) == Ok(o.reply.value)
            && o.ledger[key] == Inventory(L[key].bloodType, L[key].quantity + parsed.value)
            && o.ledger[donorID].Donor?
            && o.ledger[donorID].lastDonationDate == Some(donationDate)
            && o.ledger[donorID].donationHistory == L[donorID].donationHistory
            && o.ledger[donorID] == L[donorID].(lastDonationDate := Some(donationDate))
            && (forall k :: k in L && k != key && k != donorID ==> o.ledger[k] == L[k]))
  {
  }

  /** `updateBloodInventory` validates the blood type and the delta, needs an
      inventory record, refuses a result below zero, and otherwise stores
      the old quantity plus the delta, which is then at least zero. */
  lemma UpdateBloodInventoryAppliesDelta(L: Ledger, bloodType: string, quantity: string)
    ensures var o := T.UpdateBloodInventory(L, bloodType, quantity);
      var key := InventoryKey(bloodType);
      var delta := JsNumber.ParseIntAutoRadix(quantity);
      && (o.reply.Err? ==> o.ledger == L)
      && (o.reply == Err(Validation) <==> Missing(bloodType) || delta.None?)
      && (!Missing(bloodType) && delta.Some? && key !in L ==> o.reply == Err(NotFound))
      && (!Missing(bloodType) && delta.Some? && key in L && L[key].Inventory? ==>
            (o.reply.Ok? <==> L[key].quantity + delta.value >= 0)
            && (o.reply.Err? ==> o.reply.error == Negative))
      && (o.reply.Ok? ==>
            && o.ledger == L[key := o.reply.value]
            && o.reply.value == Inventory(L[key].bloodType, L[key].quantity + delta.value)
            && o.reply.value.quantity >= 0
            && T.GetBloodInventory(o.ledger, bloodType) == Ok(o.reply.value))
  {
  }

  /** `requestBlood` validates the quantity, needs an inventory record and
      enough stock; on success it debits the stock, which stays at least
      zero, and logs the request under its id. */
  lemma RequestBloodDebitsStock(L: Ledger, requestID: string, bloodType: string, quantity: string,
                                timestamp: string, now: string)
    ensures var o := T.RequestBlood(L, requestID, bloodType, quantity, timestamp, now);
      var key := InventoryKey(bloodType);
      var parsed := JsNumber.ParseInt(quantity);
      && (o.reply.Err? ==> o.ledger == L)
      && (o.reply == Err(Validation) <==> parsed.None? || parsed.value <= 0)
      && (parsed.Some? && parsed.value > 0 && key !in L ==> o.reply == Err(NotFound))
      && (parsed.Some? && parsed.value > 0 && key in L && L[key].Inventory? ==>
            (o.reply.Ok? <==> parsed.value <= L[key].quantity)
            && (o.reply.Err? ==> o.reply.error == Insufficient))
      && (o.reply.Ok? ==>
            var (request, inventory) := o.reply.value;
            && inventory == Inventory(L[key].bloodType, L[key].quantity - parsed.value)
            && inventory.quantity >= 0
            && request == Request(requestID, bloodType, parsed.value, if Missing(timestamp) then now else timestamp)
            && o.ledger == L[key := inventory][requestID := request]
            && o.ledger[requestID] == request
            && (requestID != key ==> T.GetBloodInventory(o.ledger, bloodType) == Ok(inventory)))
  {
  }

  /** `addDonationToHistory` first needs the donor, then details with a
      truthy `date` and `quantity`; on success it appends exactly those
      details to the end of the history, keeps every other field, and
      `getDonationHistory` returns the longer history. */
  lemma AddDonationToHistoryAppends(L: Ledger, donorID: string, details: Argument)
    ensures var o := T.AddDonationToHistory(L, donorID, details);
      && (o.reply.Err? ==> o.ledger == L)
      && (donorID !in L ==> o.reply == Err(NotFound))
      && (donorID in L && !HasDateAndQuantity(details) ==> o.reply == Err(Validation))
      && (o.reply.Ok? <==>
            && donorID in L && details.Object? && details.details.date != [] && details.details.quantity != 0
            && L[donorID].Donor?)
      && (o.reply.Ok? ==>
            && o.ledger == L[donorID := o.reply.value]
            && o.reply.value == L[donorID].(donationHistory := L[donorID].donationHistory + [details.details])
            && T.GetDonationHistory(o.ledger, donorID) == Ok(Some(L[donorID].donationHistory + [details.details])))
  {
  }

  /** Called with its details as a string, which is how the contract API
      passes every argument, `addDonationToHistory` never appends: a string
      has no `date` property, so an existing donor always gets the
      validation error. */
  lemma AddDonationToHistoryRefusesText(L: Ledger, donorID: string, text: string)
    ensures var o := T.AddDonationToHistory(L, donorID, Text(text));
      && o.ledger == L
      && o.reply == if donorID in L then Err(Validation) else Err(NotFound)
  {
  }

  /** The JSON text of a complete entry is refused, while the same entry as
      an object is appended. */
  lemma AddDonationToHistoryTextCounterexample()
    ensures var L := map["D1" := Donor("D1", "Ann", "A", Some(30), "555", None, [])];
      && T.AddDonationToHistory(L, "D1", Text("{\"date\":\"2024-01-01\",\"quantity\":5}")).reply
         == Err(Validation)
      && T.AddDonationToHistory(L, "D1", Object(Detail("2024-01-01", 5))).reply.Ok?
  {
  }

  /** The life of one stock: initialise, register donor D1 with blood type
      A, donate 50 units (150), request 40 (110), then request 9999, which
      is refused for insufficient stock and leaves 110. The quantities are
      any texts that `parseInt` reads as those numbers. */
  lemma DonateAndRequestScenario(L: Ledger, donorName: string, age: string, phoneNumber: string,
                                 q50: string, q40: string, q9999: string, now: string)
    requires !Missing(donorName) && !Missing(age) && !Missing(phoneNumber)
    requires JsNumber.ParseInt(q50) == Some(50) && JsNumber.ParseInt(q40) == Some(40)
    requires JsNumber.ParseInt(q9999) == Some(9999)
    ensures var L1 := T.InitBloodInventory(L).ledger;
      var L2 := T.RegisterDonor(L1, "D1", donorName, "A", age, phoneNumber).ledger;
      var o3 := T.Donate(L2, "D1", "A", q50, "2024-01-01");
      var o4 := T.RequestBlood(o3.ledger, "R1", "A", q40, "2024-01-02", now);
      var o5 := T.RequestBlood(o4.ledger, "R2", "A", q9999, "2024-01-03", now);
      && T.GetBloodInventory(L1, "A") == Ok(Inventory("A", 100))
      && T.GetDonor(L2, "D1").Ok? && T.GetDonor(L2, "D1").value.lastDonationDate == None
      && T.GetDonationHistory(L2, "D1") == Ok(Some([]))
      && o3.reply == Ok(Inventory("A", 150))
      && T.GetDonor(o3.ledger, "D1").Ok? && T.GetDonor(o3.ledger, "D1").value.lastDonationDate == Some("2024-01-01")
      && T.GetBloodInventory(o4.ledger, "A") == Ok(Inventory("A", 110))
      && "R1" in o4.ledger && o4.ledger["R1"] == Request("R1", "A", 40, "2024-01-02")
      && o5 == Outcome(Err(Insufficient), o4.ledger)
  {
    var key := InventoryKey("A");
    assert key == "inventory_A";
    InitBloodInventoryResetsStock(L);
    var L1 := T.InitBloodInventory(L).ledger;
    RegisterDonorStoresFreshDonor(L1, "D1", donorName, "A", age, phoneNumber);
    var L2 := T.RegisterDonor(L1, "D1", donorName, "A", age, phoneNumber).ledger;
    assert L2[key] == Inventory("A", 100);
    JsNumber.ParseIntAutoRadixAgreesOnNonZero(q50);
    DonateCreditsStock(L2, "D1", "A", q50, "2024-01-01");
    var L3 := T.Donate(L2, "D1", "A", q50, "2024-01-01").ledger;
    assert L3[key] == Inventory("A", 150);
    RequestBloodDebitsStock(L3, "R1", "A", q40, "2024-01-02", now);
    var L4 := T.RequestBlood(L3, "R1", "A", q40, "2024-01-02", now).ledger;
    assert L4[key] == Inventory("A", 110);
    RequestBloodDebitsStock(L4, "R2", "A", q9999, "2024-01-03", now);
  }

  /** One committed transaction of the chaincode, with its arguments. */
  datatype Op =
    | InitLedgerOp
    | RegisterDonorOp(donorID: string, donorName: string, bloodType: string, age: string, phoneNumber: string)
    | DonateOp(donorID: string, bloodType: string, quantity: string, donationDate: string)
    | UpdateBloodInventoryOp(bloodType: string, quantity: string)
    | RequestBloodOp(requestID: string, bloodType: string, quantity: string, timestamp: string, now: string)
    | AddDonationToHistoryOp(donorID: string, details: Argument)

  /** The ledger after `op` has run, committed or aborted. */
  function Apply(L: Ledger, op: Op): Ledger
  {
    match op
    case InitLedgerOp => T.InitBloodInventory(L).ledger
    case RegisterDonorOp(donorID, donorName, bloodType, age, phoneNumber) =>
      T.RegisterDonor(L, donorID, donorName, bloodType, age, phoneNumber).ledger
    case DonateOp(donorID, bloodType, quantity, donationDate) =>
      T.Donate(L, donorID, bloodType, quantity, donationDate).ledger
    case UpdateBloodInventoryOp(bloodType, quantity) => T.UpdateBloodInventory(L, bloodType, quantity).ledger
    case RequestBloodOp(requestID, bloodType, quantity, timestamp, now) =>
      T.RequestBlood(L, requestID, bloodType, quantity, timestamp, now).ledger
    case AddDonationToHistoryOp(donorID, details) => T.AddDonationToHistory(L, donorID, details).ledger
  }

  /** The ledger after a sequence of transactions, in order. */
  function Run(L: Ledger, ops: seq<Op>): Ledger
    decreases ops
  {
    if ops == [] then L else Run(Apply(L, ops[0]), ops[1..])
  }

  /** Initialisation writes stocks of 100 and leaves the other records. */
  lemma InitKeepsStockNonNegative(L: Ledger)
    requires T.StockNonNegative(L)
    ensures T.StockNonNegative(T.InitBloodInventory(L).ledger)
  {
    StockForContents(BloodTypes);
  }

  /** A registration writes a donor record, which holds no stock. */
  lemma RegisterDonorKeepsStockNonNegative(L: Ledger, donorID: string, donorName: string,
                                           bloodType: string, age: string, phoneNumber: string)
    requires T.StockNonNegative(L)
    ensures T.StockNonNegative(T.RegisterDonor(L, donorID, donorName, bloodType, age, phoneNumber).ledger)
  {
  }

  /** A donation adds a positive amount to a stock. */
  lemma DonateKeepsStockNonNegative(L: Ledger, donorID: string, bloodType: string, quantity: string,
                                    donationDate: string)
    requires T.StockNonNegative(L)
    ensures T.StockNonNegative(T.Donate(L, donorID, bloodType, quantity, donationDate).ledger)
  {
    DonateCreditsStock(L, donorID, bloodType, quantity, donationDate);
  }

  /** An adjustment is refused when it would take the stock below zero. */
  lemma UpdateKeepsStockNonNegative(L: Ledger, bloodType: string, quantity: string)
    requires T.StockNonNegative(L)
    ensures T.StockNonNegative(T.UpdateBloodInventory(L, bloodType, quantity).ledger)
  {
    UpdateBloodInventoryAppliesDelta(L, bloodType, quantity);
  }

  /** A request is refused when it asks for more than the stock. */
  lemma RequestBloodKeepsStockNonNegative(L: Ledger, requestID: string, bloodType: string,
                                          quantity: string, timestamp: string, now: string)
    requires T.StockNonNegative(L)
    ensures T.StockNonNegative(T.RequestBlood(L, requestID, bloodType, quantity, timestamp, now).ledger)
  {
    RequestBloodDebitsStock(L, requestID, bloodType, quantity, timestamp, now);
  }

  /** Appending to a donor's history touches only that donor record. */
  lemma AddDonationKeepsStockNonNegative(L: Ledger, donorID: string, details: Argument)
    requires T.StockNonNegative(L)
    ensures T.StockNonNegative(T.AddDonationToHistory(L, donorID, details).ledger)
  {
    AddDonationToHistoryAppends(L, donorID, details);
  }

  /** No transaction makes a stock negative. */
  lemma StepKeepsStockNonNegative(L: Ledger, op: Op)
    requires T.StockNonNegative(L)
    ensures T.StockNonNegative(Apply(L, op))
  {
    match op
    case InitLedgerOp => InitKeepsStockNonNegative(L);
    case RegisterDonorOp(donorID, donorName, bloodType, age, phoneNumber) =>
      RegisterDonorKeepsStockNonNegative(L, donorID, donorName, bloodType, age, phoneNumber);
    case DonateOp(donorID, bloodType, quantity, donationDate) =>
      DonateKeepsStockNonNegative(L, donorID, bloodType, quantity, donationDate);
    case UpdateBloodInventoryOp(bloodType, quantity) => UpdateKeepsStockNonNegative(L, bloodType, quantity);
    case RequestBloodOp(requestID, bloodType, quantity, timestamp, now) =>
      RequestBloodKeepsStockNonNegative(L, requestID, bloodType, quantity, timestamp, now);
    case AddDonationToHistoryOp(donorID, details) => AddDonationKeepsStockNonNegative(L, donorID, details);
  }

  lemma {:induction false} RunKeepsStockNonNegative(L: Ledger, ops: seq<Op>)
    requires T.StockNonNegative(L)
    ensures T.StockNonNegative(Run(L, ops))
    decreases ops
  {
    if ops != [] {
      StepKeepsStockNonNegative(L, ops[0]);
      RunKeepsStockNonNegative(Apply(L, ops[0]), ops[1..]);
    }
  }
}

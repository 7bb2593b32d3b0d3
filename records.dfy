/** The records the BloodBank chaincode keeps in its flat key-value ledger,
    and the shapes of its transaction replies. */
module Records {
  import opened Basics

  /** An entry of a donor's donation history: an object with a string
      `date` and a numeric `quantity`. An absent date is the empty string and
      an absent or `NaN` quantity is 0, the falsy values of those types. */
  datatype Detail = Detail(date: string, quantity: int)

  /** A transaction argument as the contract code sees it: absent, a
      string, or an object holding a donation entry. */
  datatype Argument = Undefined | Text(text: string) | Object(details: Detail)

  /** A stored record: the JSON object written under one key. */
  datatype Value =
    | Inventory(bloodType: string, quantity: int)
    | Donor(donorID: string, donorName: string, bloodType: string, age: Option<int>,
            phoneNumber: string, lastDonationDate: Option<string>, donationHistory: seq<Detail>)
    | Request(requestID: string, bloodType: string, quantity: int, timestamp: string)

  /** The world state as the chaincode sees it: key to record. */
  type Ledger = map<string, Value>

  /** Why a transaction throws. `Malformed` is a key that holds a record of
      another kind than the operation expects. */
  datatype Error = Validation | NotFound | Malformed | Negative | Insufficient

  datatype Result<T> = Ok(value: T) | Err(error: Error)

  /** What a transaction returns to its caller and the ledger it leaves. */
  datatype Outcome<T> = Outcome(reply: Result<T>, ledger: Ledger)

  /** The four blood types the ledger is initialised with, in order. */
  const BloodTypes: seq<string> := ["A", "B", "O", "AB"]

  /** The stock every blood type starts with. */
  const InitialQuantity: int := 100

  /** The key of a blood type's inventory record. */
  function InventoryKey(bloodType: string): (key: string)
    ensures |key| == 10 + |bloodType| && key[..10] == "inventory_" && key[10..] == bloodType
  {
    "inventory_" + bloodType
  }

  /** `!arg` for a transaction argument, which always arrives as a string. */
  predicate Missing(arg: string)
  {
    arg == []
  }

  /** JavaScript truthiness of an argument: `undefined` and "" are falsy. */
  predicate Truthy(a: Argument)
  {
    match a
    case Undefined => false
    case Text(text) => text != []
    case Object(_) => true
  }

  /** `a.date`: only an object has that property; on a string it reads
      `undefined` (`None`). */
  function DateOf(a: Argument): Option<string>
  {
    if a.Object? then Some(a.details.date) else None
  }

  /** `a.quantity`: only an object has that property; on a string it reads
      `undefined` (`None`). */
  function QuantityOf(a: Argument): Option<int>
  {
    if a.Object? then Some(a.details.quantity) else None
  }

  /** The details check of `addDonationToHistory`: the argument, its `date`
      and its `quantity` are all truthy. The property reads are evaluated
      only once the argument is known to be truthy, as `||` short-circuits. */
  predicate HasDateAndQuantity(a: Argument)
  {
    Truthy(a) && TruthyString(DateOf(a)) && TruthyNumber(QuantityOf(a))
  }

  /** Truthiness of a string property: `undefined` and "" are falsy. */
  predicate TruthyString(v: Option<string>)
  {
    v.Some? && v.value != []
  }

  /** Truthiness of a numeric property: `undefined`, `NaN` and 0 are falsy. */
  predicate TruthyNumber(v: Option<int>)
  {
    v.Some? && v.value != 0
  }
}

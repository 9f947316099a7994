/** The outcome record an inventory hands back from an add request
    (FItemAddResult) and its three factories. */
module ItemAddResults {

  /** EItemAddResult. */
  datatype AddResultKind = NoItemsAdded | SomeItemsAdded | AllItemsAdded

  /** The localized error texts the inventory can attach, one constructor per
      distinct message. */
  datatype AddError =
    | NoError           // default (empty) text
    | InventoryFull     // no free entry for one more stack
    | TooMuchWeight     // one more unit would exceed the weight capacity
    | CouldNotAddItem   // the computed merge amount was not positive
    | CouldNotAddAll    // initial text of a merge, replaced before any partial result
    | StackTooHeavy     // partial merge of a weighted item
    | StackNoRoom       // partial merge of a weightless item
    | AlreadyFullStack  // the existing stack is at its maximum size

  datatype ItemAddResult = ItemAddResult(
    amountToGive: int,
    actualAmountGiven: int,
    result: AddResultKind,
    errorText: AddError)

  /** Nothing was given: the whole request is reported back with an error. */
  function AddedNone(quantity: int, error: AddError): (r: ItemAddResult)
    ensures r.amountToGive == quantity && r.actualAmountGiven == 0
    ensures r.result == NoItemsAdded && r.errorText == error
  {
    ItemAddResult(quantity, 0, NoItemsAdded, error)
  }

  /** Part of the request was given. As written the factory tags the record
      with NoItemsAdded, not SomeItemsAdded. */
  function AddedSome(quantity: int, given: int, error: AddError): (r: ItemAddResult)
    ensures r.amountToGive == quantity && r.actualAmountGiven == given
    ensures r.result == NoItemsAdded && r.errorText == error
  {
    ItemAddResult(quantity, given, NoItemsAdded, error)
  }

  /** Everything asked for was given; the error text keeps its empty default. */
  function AddedAll(quantity: int): (r: ItemAddResult)
    ensures r.amountToGive == quantity && r.actualAmountGiven == quantity
    ensures r.result == AllItemsAdded && r.errorText == NoError
  {
    ItemAddResult(quantity, quantity, AllItemsAdded, NoError)
  }
}

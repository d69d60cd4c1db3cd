/**
 * The stock rules of the storage service: taking items out of one stored batch
 * (a read-modify-write of that batch) and storing a new batch (one new record in
 * the article's collection). The remote resources are modelled as an in-memory
 * store of records; a record's resource is its position in the store.
 */
module StorageItemService {
  import opened Wrappers
  import opened Model

  /** Why an operation was rejected. */
  datatype StorageError =
    | TooFewItems  // "Must take at least 1 item!"
    | NotFound     // the batch resource could not be read

  /**
   * The batch after taking `itemCount` items out of it. Counts below one are
   * rejected; nothing bounds the count by the amount in stock.
   */
  function Withdrawal(item: StorageItem, itemCount: real): (r: Result<StorageItem, StorageError>)
    ensures r.Err? <==> itemCount < 1.0
    ensures r.Err? ==> r.error == TooFewItems
    ensures r.Ok? ==> r.value.amount == item.amount - itemCount
    ensures r.Ok? ==> r.value.bestBefore == item.bestBefore && r.value.storageDate == item.storageDate
                      && r.value.article == item.article
  {
    if itemCount < 1.0 then Err(TooFewItems)
    else Ok(item.(amount := item.amount - itemCount))
  }

  /** The record a new batch is stored as. Neither the count nor the dates are checked. */
  function NewBatch(itemCount: real, bestBefore: JsString, now: JsString, articleUri: JsString): (item: StorageItem)
    ensures item.amount == itemCount && item.bestBefore == bestBefore
    ensures item.storageDate == now && item.article == articleUri
  {
    StorageItem(itemCount, bestBefore, now, articleUri)
  }

  /** The sum of the amounts of the given batches, as the article page totals them. */
  function TotalAmount(items: seq<StorageItem>): real
  {
    if items == [] then 0.0 else items[0].amount + TotalAmount(items[1..])
  }

  /** The storage items of the back end, as far as these operations see them. */
  class Store {
    var items: seq<StorageItem>

    constructor (initial: seq<StorageItem>)
      ensures items == initial
    {
      items := initial;
    }

    /**
     * Takes `itemCount` items out of the batch at `id`: the count is checked
     * before anything is read, the batch is read, and it is written back with
     * only its amount changed. No other batch is touched.
     */
    method RemoveItemFromStorage(id: nat, itemCount: real) returns (outcome: Outcome<StorageError>)
      modifies this
      ensures itemCount < 1.0 ==> outcome == Fail(TooFewItems) && items == old(items)
      ensures itemCount >= 1.0 && id >= |old(items)| ==> outcome == Fail(NotFound) && items == old(items)
      ensures itemCount >= 1.0 && id < |old(items)| ==>
                outcome == Pass && Withdrawal(old(items)[id], itemCount).Ok?
                && items == old(items)[id := Withdrawal(old(items)[id], itemCount).value]
    {
      if itemCount < 1.0 {
        return Fail(TooFewItems);
      }
      if id >= |items| {
        return Fail(NotFound);
      }
      var state := items[id];
      var updated := Withdrawal(state, itemCount);
      items := items[id := updated.value];
      outcome := Pass;
    }

    /** Stores a new batch of `itemCount` items; `now` is the local time of the call. */
    method StoreItem(itemCount: real, bestBefore: JsString, now: JsString, articleUri: JsString) returns (id: nat)
      modifies this
      ensures id == |old(items)|
      ensures items == old(items) + [NewBatch(itemCount, bestBefore, now, articleUri)]
    {
      id := |items|;
      items := items + [NewBatch(itemCount, bestBefore, now, articleUri)];
    }
  }

  /** Replacing one batch changes the total by the difference of the two amounts. */
  lemma {:induction false} TotalAfterUpdate(items: seq<StorageItem>, id: nat, item: StorageItem)
    requires id < |items|
    ensures TotalAmount(items[id := item]) == TotalAmount(items) - items[id].amount + item.amount
  {
    if id > 0 {
      assert items[id := item][1..] == items[1..][id - 1 := item];
      TotalAfterUpdate(items[1..], id - 1, item);
    }
  }

  /** A successful withdrawal lowers the total stock by exactly the count taken. */
  lemma TotalAfterWithdrawal(items: seq<StorageItem>, id: nat, itemCount: real)
    requires id < |items| && itemCount >= 1.0
    ensures TotalAmount(items[id := Withdrawal(items[id], itemCount).value]) == TotalAmount(items) - itemCount
  {
    TotalAfterUpdate(items, id, Withdrawal(items[id], itemCount).value);
  }

  /** Storing a batch raises the total stock by its count. */
  lemma {:induction false} TotalAfterStore(items: seq<StorageItem>, item: StorageItem)
    ensures TotalAmount(items + [item]) == TotalAmount(items) + item.amount
  {
    if items == [] {
      assert items + [item] == [item];
    } else {
      assert (items + [item])[1..] == items[1..] + [item];
      TotalAfterStore(items[1..], item);
    }
  }

  /** Two successive withdrawals from one batch leave it as one withdrawal of both counts. */
  lemma WithdrawalsCompose(item: StorageItem, first: real, second: real)
    requires first >= 1.0 && second >= 1.0
    ensures Withdrawal(Withdrawal(item, first).value, second) == Withdrawal(item, first + second)
  {
  }

  /** Taking more than is in stock is accepted and leaves a negative amount. */
  lemma OverdrawAccepted(item: StorageItem)
    requires item.amount == 1.0
    ensures Withdrawal(item, 3.0).Ok? && Withdrawal(item, 3.0).value.amount == -2.0
  {
  }
}

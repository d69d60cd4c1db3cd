/**
 * The records the front end exchanges with its back end. Their shapes follow
 * how the components use them: an article is identified by its GTIN, and a
 * storage item is one batch of an article on the shelf.
 */
module Model {

  /** JavaScript strings, as sequences of Unicode characters; UTF-16 code units and surrogate pairs are not modelled. */
  type JsString = seq<char>

  /** An article of the catalogue. `targetAmount` is the minimum stock wanted. */
  datatype Article = Article(
    gtin: JsString,
    name: JsString,
    keywords: seq<JsString>,
    targetAmount: real)

  /**
   * One stored batch. Dates are ISO-8601 strings produced outside the model;
   * `article` is the URI of the article resource the batch belongs to.
   */
  datatype StorageItem = StorageItem(
    amount: real,
    bestBefore: JsString,
    storageDate: JsString,
    article: JsString)
}

/**
 * The data the translator reads and writes: the raw item data of a domain
 * card, whose actions are objects updated in place, and the translation
 * table of domain cards loaded from the module's JSON file.
 */
module Model {
  import opened Wrappers

  /** One value of the card's `system.actions` object. The translator may
      overwrite `name` and `description` and touches nothing else. */
  class Action {
    var name: Option<string>
    var description: Option<string>
  }

  /** `data.system?.actions`: falsy (absent, `null`, ...), a truthy non-object,
      or an object whose values, in `Object.values` order, are the slots
      (`null` for a `null` or `undefined` value). */
  datatype ActionsField = Absent | NotAnObject | Object(values: seq<Action?>)

  /** The raw item data handed to document creation. */
  datatype CardData = CardData(
    itemType: Option<string>,
    originalName: Option<string>,
    slug: Option<string>,
    name: Option<string>,
    actions: ActionsField)

  /** One element of a translation entry's `actions` array. */
  datatype TrAction = TrAction(key: Option<string>, name: Option<string>, description: Option<string>)

  /** A translation entry; `actions` is `None` when it is not an array. */
  datatype Entry = Entry(name: Option<string>, actions: Option<seq<TrAction>>)

  predicate DistinctKeys(d: seq<(string, Option<Entry>)>) {
    forall i, j :: 0 <= i < j < |d| ==> d[i].0 != d[j].0
  }

  /** The table of domain-card entries as a JavaScript object: its own keys in
      iteration order, each with its value (`None` for `null`). */
  type Domains = d: seq<(string, Option<Entry>)> | DistinctKeys(d)
}

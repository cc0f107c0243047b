/**
 * The immutable records decoded from the restaurant feed
 * (`data/model/Deal.kt`, `data/model/Restaurant.kt`).
 * Every field is kept; only `discount`, `name`, `cuisines` and `deals`
 * take part in the logic of the list state manager.
 */
module DataModel {
  import opened Wrappers

  /** A time- or quantity-bound discount offer. `discount` is a Kotlin `Int`; it is only compared, never computed with. */
  datatype Deal = Deal(
    objectId: string,
    discount: int,
    qtyLeft: int,
    dineIn: bool,
    lightning: Option<bool>,
    open: Option<string>,
    close: Option<string>,
    start: Option<string>,
    end: Option<string>
  )

  /** A venue, with its cuisine tags and deals in the order the feed gives them. */
  datatype Restaurant = Restaurant(
    objectId: string,
    name: string,
    address1: string,
    suburb: string,
    cuisines: seq<string>,
    imageLink: string,
    open: string,
    close: string,
    deals: seq<Deal>
  )
}

/** Records shared by the services and the store: the cafe, its coffee
    prices, and the cafe-with-prices view the map and the sidebar display.
    Optional TypeScript properties become `Option`s, numbers become `real`s,
    and timestamps stay opaque ISO strings. */
module Types {

  /** An optional value, the model of a TypeScript `?` property or of `null`. */
  datatype Option<+T> = None | Some(value: T)

  /** The outcome of a call to an outside service (a database query, an HTTP
      request): either it produced a value or it failed (an error, a non-ok
      status, or a thrown exception; the code treats them alike). */
  datatype Fetch<+T> = Ok(value: T) | Failed

  /** A venue as stored in the `cafes` table. */
  datatype Cafe = Cafe(
    id: string,
    name: string,
    latitude: real,
    longitude: real,
    address: Option<string>,
    description: Option<string>,
    website: Option<string>,
    menuUrl: Option<string>,
    createdAt: string)

  /** One reported price of one item at one cafe. */
  datatype CoffeePrice = CoffeePrice(
    id: string,
    cafeId: string,
    itemName: string,
    price: real,
    currency: string,
    updatedAt: string)

  /** A cafe together with its prices and, when known, its average rating. */
  datatype CafeWithPrices = CafeWithPrices(
    cafe: Cafe,
    prices: seq<CoffeePrice>,
    avgRating: Option<real>)
  {
    /** The display name, the only field the merge compares. */
    function Name(): string { cafe.name }
  }

  /** Every price listed under a cafe names that cafe as its owner. */
  ghost predicate PricesOwned(cafes: seq<CafeWithPrices>)
  {
    forall i, j :: 0 <= i < |cafes| && 0 <= j < |cafes[i].prices| ==>
      cafes[i].prices[j].cafeId == cafes[i].cafe.id
  }

  /** Two lists hold the same cafes, by id and name, in the same order; other
      fields (such as creation stamps) may differ. */
  ghost predicate SameKeys(a: seq<CafeWithPrices>, b: seq<CafeWithPrices>)
  {
    |a| == |b| &&
    forall i :: 0 <= i < |a| ==> a[i].cafe.id == b[i].cafe.id && a[i].Name() == b[i].Name()
  }
}

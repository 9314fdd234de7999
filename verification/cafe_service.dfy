/** The cafe service's read path: rows of the `cafes` table, each joined with
    its prices and its review ratings, become cafes with an average rating;
    a failed query falls back to the built-in mock list. The database query
    itself is outside the model; its answer arrives as a `Fetch` of rows. */
module CafeRows {
  import opened Types

  /** One row of `cafes` with the joined `prices(*)` and `reviews(rating)`.
      `reviews` is absent when the join did not produce the property. */
  datatype CafeRow = CafeRow(
    cafe: Cafe,
    prices: seq<CoffeePrice>,
    reviews: Option<seq<real>>)

  /** Left-to-right sum of the ratings, the `reduce` starting from 0. */
  function Sum(ratings: seq<real>): real
  {
    if |ratings| == 0 then 0.0
    else Sum(ratings[..|ratings| - 1]) + ratings[|ratings| - 1]
  }

  /** `avg_rating`: the mean rating when there is at least one review, else 0. */
  function AverageRating(reviews: Option<seq<real>>): (avg: real)
    ensures reviews.None? || |reviews.value| == 0 ==> avg == 0.0
    ensures reviews.Some? && |reviews.value| > 0 ==>
      avg * (|reviews.value| as real) == Sum(reviews.value)
  {
    if reviews.Some? && |reviews.value| > 0 then
      Sum(reviews.value) / (|reviews.value| as real)
    else 0.0
  }

  /** A lower bound on every rating bounds the sum by count times that bound. */
  lemma {:induction false} SumAtLeast(ratings: seq<real>, lo: real)
    requires forall i :: 0 <= i < |ratings| ==> lo <= ratings[i]
    ensures Sum(ratings) >= (|ratings| as real) * lo
    decreases |ratings|
  {
    if |ratings| > 0 {
      SumAtLeast(ratings[..|ratings| - 1], lo);
    }
  }

  /** An upper bound on every rating bounds the sum by count times that bound. */
  lemma {:induction false} SumAtMost(ratings: seq<real>, hi: real)
    requires forall i :: 0 <= i < |ratings| ==> ratings[i] <= hi
    ensures Sum(ratings) <= (|ratings| as real) * hi
    decreases |ratings|
  {
    if |ratings| > 0 {
      SumAtMost(ratings[..|ratings| - 1], hi);
    }
  }

  /** The average of a non-empty list lies within any bounds all ratings
      share, in particular between the smallest and the largest rating. */
  lemma AverageWithinBounds(ratings: seq<real>, lo: real, hi: real)
    requires |ratings| > 0
    requires forall i :: 0 <= i < |ratings| ==> lo <= ratings[i] <= hi
    ensures lo <= AverageRating(Some(ratings)) <= hi
  {
    SumAtLeast(ratings, lo);
    SumAtMost(ratings, hi);
    var n := |ratings| as real;
    var avg := AverageRating(Some(ratings));
    assert avg * n == Sum(ratings);
    assert avg * n >= n * lo;
    assert avg * n <= n * hi;
  }

  /** The average is attained between two actual ratings: some rating is at
      most the average and some rating is at least it. */
  lemma AverageBetweenMinAndMax(ratings: seq<real>)
    requires |ratings| > 0
    ensures exists i :: 0 <= i < |ratings| && ratings[i] <= AverageRating(Some(ratings))
    ensures exists j :: 0 <= j < |ratings| && AverageRating(Some(ratings)) <= ratings[j]
  {
    var lo, hi := MinRating(ratings), MaxRating(ratings);
    AverageWithinBounds(ratings, lo, hi);
    var i :| 0 <= i < |ratings| && lo == ratings[i];
    var j :| 0 <= j < |ratings| && hi == ratings[j];
    assert ratings[i] <= AverageRating(Some(ratings)) <= ratings[j];
  }

  /** The smallest rating of a non-empty list. */
  function MinRating(ratings: seq<real>): (m: real)
    requires |ratings| > 0
    ensures exists i :: 0 <= i < |ratings| && m == ratings[i]
    ensures forall i :: 0 <= i < |ratings| ==> m <= ratings[i]
  {
    if |ratings| == 1 then ratings[0]
    else
      var rest := MinRating(ratings[1..]);
      assert forall i :: 1 <= i < |ratings| ==> ratings[i] == ratings[1..][i - 1];
      if ratings[0] <= rest then ratings[0] else rest
  }

  /** The largest rating of a non-empty list. */
  function MaxRating(ratings: seq<real>): (m: real)
    requires |ratings| > 0
    ensures exists i :: 0 <= i < |ratings| && m == ratings[i]
    ensures forall i :: 0 <= i < |ratings| ==> ratings[i] <= m
  {
    if |ratings| == 1 then ratings[0]
    else
      var rest := MaxRating(ratings[1..]);
      assert forall i :: 1 <= i < |ratings| ==> ratings[i] == ratings[1..][i - 1];
      if ratings[0] >= rest then ratings[0] else rest
  }

  /** With at least one review, the average lies between the smallest and
      the largest rating. */
  lemma AverageBetweenExtremes(reviews: Option<seq<real>>)
    ensures reviews.Some? && |reviews.value| > 0 ==>
      MinRating(reviews.value) <= AverageRating(reviews) <= MaxRating(reviews.value)
  {
    if reviews.Some? && |reviews.value| > 0 {
      var ratings := reviews.value;
      AverageWithinBounds(ratings, MinRating(ratings), MaxRating(ratings));
    }
  }

  /** One row as the service returns it: all cafe fields and prices carried
      over, the average rating added. */
  function NormalizeRow(row: CafeRow): (c: CafeWithPrices)
    ensures c.cafe == row.cafe && c.prices == row.prices
    ensures c.avgRating == Some(AverageRating(row.reviews))
    ensures row.reviews.None? || |row.reviews.value| == 0 ==> c.avgRating.value == 0.0
    ensures row.reviews.Some? && |row.reviews.value| > 0 ==>
      MinRating(row.reviews.value) <= c.avgRating.value <= MaxRating(row.reviews.value)
  {
    AverageBetweenExtremes(row.reviews);
    CafeWithPrices(row.cafe, row.prices, Some(AverageRating(row.reviews)))
  }

  /** The list served when the database cannot be reached. It is a module
      constant built when the service module loads, so its timestamps come
      from that load, whichever fetch serves it; `loadedAt` stands for the
      clock readings taken then. */
  function MockCafes(loadedAt: string): (cafes: seq<CafeWithPrices>)
    ensures |cafes| == 1 && cafes[0].cafe.id == "mock-1"
    ensures PricesOwned(cafes)
  {
    var id := "mock-1";
    [CafeWithPrices(
      Cafe(
        id := id,
        name := "Boron-X Lab Coffee",
        latitude := 41.0122,
        longitude := 28.9760,
        address := Some("Sultanahmet, \U{130}stanbul"),
        description := None,
        website := None,
        menuUrl := None,
        createdAt := loadedAt),
      [CoffeePrice("p1", id, "Latte", 85.0, "TRY", loadedAt),
       CoffeePrice("p2", id, "Americano", 70.0, "TRY", loadedAt)],
      Some(4.9))]
  }

  /** `getAllCafes`: the normalised rows, one per row and in row order, when
      the query answers; the mock list when it fails. */
  function GetAllCafes(query: Fetch<seq<CafeRow>>, mockLoadedAt: string): (cafes: seq<CafeWithPrices>)
    ensures query.Failed? ==> cafes == MockCafes(mockLoadedAt)
    ensures query.Ok? ==> |cafes| == |query.value|
    ensures query.Ok? ==>
      forall i :: 0 <= i < |cafes| ==>
        cafes[i].cafe == query.value[i].cafe &&
        cafes[i].prices == query.value[i].prices &&
        cafes[i].avgRating == Some(AverageRating(query.value[i].reviews))
  {
    match query
    case Failed => MockCafes(mockLoadedAt)
    case Ok(rows) => seq(|rows|, i requires 0 <= i < |rows| => NormalizeRow(rows[i]))
  }

  /** Normalisation keeps each price with the cafe it was listed under, so a
      row set whose prices are owned by their rows gives owned cafes, and the
      fallback list is owned as well. */
  lemma GetAllCafesKeepsOwnership(query: Fetch<seq<CafeRow>>, mockLoadedAt: string)
    requires query.Ok? ==>
      forall i, j :: 0 <= i < |query.value| && 0 <= j < |query.value[i].prices| ==>
        query.value[i].prices[j].cafeId == query.value[i].cafe.id
    ensures PricesOwned(GetAllCafes(query, mockLoadedAt))
  {
  }
}

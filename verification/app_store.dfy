/** The application store: one record of UI and data state, its initial
    value, and one pure transition per store action. `fetchCafes` awaits
    between raising the loading flag and storing the merged list, so it is
    split into its two synchronous halves, and anything (another setter,
    another fetch) may run in between. */
module AppStore {
  import opened Types
  import Currency
  import OverpassMapping
  import CafeRows
  import CafeMerge

  datatype Theme = Light | Dark | System
  datatype Language = Tr | En
  datatype FontSize = Compact | Comfortable
  datatype SidebarType = Settings | Details | Report

  datatype AppState = AppState(
    theme: Theme,
    language: Language,
    currency: string,
    rates: Option<Currency.Rates>,
    fontSize: FontSize,
    cafes: seq<CafeWithPrices>,
    selectedCafe: Option<CafeWithPrices>,
    isSidebarOpen: bool,
    sidebarType: SidebarType,
    isLoading: bool)

  /** The names of the state's fields, for stating what a transition leaves alone. */
  datatype Field =
    | ThemeField | LanguageField | CurrencyField | RatesField | FontSizeField
    | CafesField | SelectedCafeField | SidebarOpenField | SidebarTypeField | LoadingField

  /** `s` and `t` hold the same value in field `f`. */
  predicate Agrees(s: AppState, t: AppState, f: Field)
  {
    match f
    case ThemeField => s.theme == t.theme
    case LanguageField => s.language == t.language
    case CurrencyField => s.currency == t.currency
    case RatesField => s.rates == t.rates
    case FontSizeField => s.fontSize == t.fontSize
    case CafesField => s.cafes == t.cafes
    case SelectedCafeField => s.selectedCafe == t.selectedCafe
    case SidebarOpenField => s.isSidebarOpen == t.isSidebarOpen
    case SidebarTypeField => s.sidebarType == t.sidebarType
    case LoadingField => s.isLoading == t.isLoading
  }

  /** `s` and `t` differ at most in the fields of `changed`. */
  ghost predicate AgreeOutside(s: AppState, t: AppState, changed: set<Field>)
  {
    forall f :: f !in changed ==> Agrees(s, t, f)
  }

  /** The store before any action. */
  function Initial(): (s: AppState)
    ensures s.theme == System && s.language == Tr && s.currency == "TRY"
    ensures s.rates.None? && s.fontSize == Comfortable
    ensures s.cafes == [] && s.selectedCafe.None?
    ensures !s.isSidebarOpen && s.sidebarType == Details && !s.isLoading
  {
    AppState(System, Tr, "TRY", None, Comfortable, [], None, false, Details, false)
  }

  function SetTheme(s: AppState, theme: Theme): (t: AppState)
    ensures t.theme == theme
    ensures AgreeOutside(s, t, {ThemeField})
  {
    s.(theme := theme)
  }

  function SetLanguage(s: AppState, language: Language): (t: AppState)
    ensures t.language == language
    ensures AgreeOutside(s, t, {LanguageField})
  {
    s.(language := language)
  }

  function SetCurrency(s: AppState, currency: string): (t: AppState)
    ensures t.currency == currency
    ensures AgreeOutside(s, t, {CurrencyField})
  {
    s.(currency := currency)
  }

  function SetFontSize(s: AppState, size: FontSize): (t: AppState)
    ensures t.fontSize == size
    ensures AgreeOutside(s, t, {FontSizeField})
  {
    s.(fontSize := size)
  }

  /** Selecting a cafe opens the details sidebar; clearing the selection
      closes the sidebar but still sets its kind to details. */
  function SetSelectedCafe(s: AppState, cafe: Option<CafeWithPrices>): (t: AppState)
    ensures t.selectedCafe == cafe
    ensures t.isSidebarOpen <==> cafe.Some?
    ensures t.sidebarType == Details
    ensures AgreeOutside(s, t, {SelectedCafeField, SidebarOpenField, SidebarTypeField})
  {
    s.(selectedCafe := cafe, isSidebarOpen := cafe.Some?, sidebarType := Details)
  }

  /** Opening or closing the sidebar; an omitted kind means details. The
      selected cafe is kept either way. */
  function SetSidebarOpen(s: AppState, isOpen: bool, kind: Option<SidebarType>): (t: AppState)
    ensures t.isSidebarOpen == isOpen
    ensures kind.Some? ==> t.sidebarType == kind.value
    ensures kind.None? ==> t.sidebarType == Details
    ensures AgreeOutside(s, t, {SidebarOpenField, SidebarTypeField})
  {
    s.(isSidebarOpen := isOpen, sidebarType := if kind.Some? then kind.value else Details)
  }

  /** The first half of `fetchCafes`, before the two fetches are awaited. */
  function BeginFetch(s: AppState): (t: AppState)
    ensures t.isLoading
    ensures AgreeOutside(s, t, {LoadingField})
  {
    s.(isLoading := true)
  }

  /** Stores a new cafe list and ends loading, leaving every other field. */
  function StoreCafes(s: AppState, cafes: seq<CafeWithPrices>): (t: AppState)
    ensures t.cafes == cafes && !t.isLoading
    ensures AgreeOutside(s, t, {CafesField, LoadingField})
  {
    s.(cafes := cafes, isLoading := false)
  }

  /** The second half of `fetchCafes`, once both fetches have settled: the
      merged list replaces `cafes` wholesale and loading ends. */
  function FinishFetch(s: AppState, dbCafes: seq<CafeWithPrices>, osmCafes: seq<CafeWithPrices>): (t: AppState)
    ensures !t.isLoading
    ensures |t.cafes| >= |dbCafes| && t.cafes[..|dbCafes|] == dbCafes
    ensures CafeMerge.Names(t.cafes) == CafeMerge.Names(dbCafes) + CafeMerge.Names(osmCafes)
    ensures AgreeOutside(s, t, {CafesField, LoadingField})
  {
    StoreCafes(s, CafeMerge.Merge(dbCafes, osmCafes))
  }

  /** `fetchCafes` run without interruption: the database answer (or the mock
      list, stamped when the service module loaded) comes first, then the new
      Overpass cafes, stamped with the time of this fetch. */
  function FetchCafes(s: AppState, dbQuery: Fetch<seq<CafeRows.CafeRow>>,
                      overpass: Fetch<seq<OverpassMapping.Element>>,
                      mockLoadedAt: string, now: string): (t: AppState)
    ensures !t.isLoading
    ensures var db := CafeRows.GetAllCafes(dbQuery, mockLoadedAt);
      |t.cafes| >= |db| && t.cafes[..|db|] == db
    ensures AgreeOutside(s, t, {CafesField, LoadingField})
  {
    var db := CafeRows.GetAllCafes(dbQuery, mockLoadedAt);
    var osm := OverpassMapping.FetchNearbyCafes(overpass, now);
    FetchRaisesThenClearsLoading(s, db, osm);
    FinishFetch(BeginFetch(s), db, osm)
  }

  /** `fetchRates`: the service's answer replaces the held table wholesale.
      A failure stores the fallback table, even over a table fetched before;
      a successful answer without a `rates` property clears the table. */
  function FetchRates(s: AppState, response: Fetch<Option<Currency.Rates>>): (t: AppState)
    ensures response.Failed? ==> t.rates == Some(Currency.FallbackRates)
    ensures response.Ok? ==> t.rates == response.value
    ensures AgreeOutside(s, t, {RatesField})
  {
    s.(rates := Currency.GetExchangeRates(response))
  }

  // ---------------------------------------------------------------------
  // Properties relating several transitions.
  // ---------------------------------------------------------------------

  /** The stored list depends only on the two fetch results, never on the
      cafes held before. */
  lemma FinishFetchForgetsOldCafes(s1: AppState, s2: AppState,
                                   dbCafes: seq<CafeWithPrices>, osmCafes: seq<CafeWithPrices>)
    ensures FinishFetch(s1, dbCafes, osmCafes).cafes == FinishFetch(s2, dbCafes, osmCafes).cafes
  {
  }

  /** Both halves together raise and then clear the loading flag, store the
      merged list, and leave every other field as it was. */
  lemma FetchRaisesThenClearsLoading(s: AppState, dbCafes: seq<CafeWithPrices>, osmCafes: seq<CafeWithPrices>)
    ensures BeginFetch(s).isLoading
    ensures var t := FinishFetch(BeginFetch(s), dbCafes, osmCafes);
      !t.isLoading && t.cafes == CafeMerge.Merge(dbCafes, osmCafes) &&
      AgreeOutside(s, t, {CafesField, LoadingField})
  {
    var t := FinishFetch(BeginFetch(s), dbCafes, osmCafes);
    assert forall f :: f != CafesField && f != LoadingField ==> Agrees(s, BeginFetch(s), f) && Agrees(BeginFetch(s), t, f);
  }

  /** One uninterrupted `fetchCafes` stores the merge of the two answers and
      ends not loading; nothing else changes. */
  lemma FetchCafesStoresMerge(s: AppState, dbQuery: Fetch<seq<CafeRows.CafeRow>>,
                              overpass: Fetch<seq<OverpassMapping.Element>>,
                              mockLoadedAt: string, now: string)
    ensures var t := FetchCafes(s, dbQuery, overpass, mockLoadedAt, now);
      t.cafes == CafeMerge.Merge(CafeRows.GetAllCafes(dbQuery, mockLoadedAt),
                                 OverpassMapping.FetchNearbyCafes(overpass, now)) &&
      !t.isLoading && AgreeOutside(s, t, {CafesField, LoadingField})
  {
    FetchRaisesThenClearsLoading(s, CafeRows.GetAllCafes(dbQuery, mockLoadedAt),
                                 OverpassMapping.FetchNearbyCafes(overpass, now));
  }

  /** Fetching again with the same answers at a later time stores the same
      cafes, by id and name, in the same order; only the Overpass cafes'
      creation stamps move to the new time. Nothing else changes. */
  lemma RefetchIsStable(s: AppState, dbQuery: Fetch<seq<CafeRows.CafeRow>>,
                        overpass: Fetch<seq<OverpassMapping.Element>>,
                        mockLoadedAt: string, t1: string, t2: string)
    ensures var once := FetchCafes(s, dbQuery, overpass, mockLoadedAt, t1);
      var twice := FetchCafes(once, dbQuery, overpass, mockLoadedAt, t2);
      SameKeys(twice.cafes, once.cafes) && AgreeOutside(once, twice, {CafesField})
  {
    var once := FetchCafes(s, dbQuery, overpass, mockLoadedAt, t1);
    var twice := FetchCafes(once, dbQuery, overpass, mockLoadedAt, t2);
    FetchCafesStoresMerge(s, dbQuery, overpass, mockLoadedAt, t1);
    FetchCafesStoresMerge(once, dbQuery, overpass, mockLoadedAt, t2);
    assert forall f :: f != CafesField ==> Agrees(once, twice, f);
    var db := CafeRows.GetAllCafes(dbQuery, mockLoadedAt);
    OverpassMapping.FetchNearbyCafesStampOnly(overpass, t2, t1);
    CafeMerge.MergeSameKeys(db, OverpassMapping.FetchNearbyCafes(overpass, t2),
                            OverpassMapping.FetchNearbyCafes(overpass, t1));
  }

  /** With both sources failing, the store holds exactly the mock list, the
      same list on every failed fetch whatever its time. */
  lemma BothSourcesFail(s: AppState, mockLoadedAt: string, now: string)
    ensures FetchCafes(s, Failed, Failed, mockLoadedAt, now).cafes == CafeRows.MockCafes(mockLoadedAt)
  {
    assert CafeMerge.Survivors(CafeRows.MockCafes(mockLoadedAt), []) == [];
  }

  /** With the Overpass request failing, the store holds the database list as is. */
  lemma OverpassFails(s: AppState, dbQuery: Fetch<seq<CafeRows.CafeRow>>, mockLoadedAt: string, now: string)
    ensures FetchCafes(s, dbQuery, Failed, mockLoadedAt, now).cafes == CafeRows.GetAllCafes(dbQuery, mockLoadedAt)
  {
    var db := CafeRows.GetAllCafes(dbQuery, mockLoadedAt);
    assert CafeMerge.Survivors(db, []) == [];
    assert db + [] == db;
  }

  /** Every unnamed Overpass cafe gets the same placeholder name, so at most
      one of them reaches the store, however many the feed reports. */
  lemma UnnamedOverpassCafesCollapse(s: AppState, dbQuery: Fetch<seq<CafeRows.CafeRow>>,
                                     overpass: Fetch<seq<OverpassMapping.Element>>,
                                     mockLoadedAt: string, now: string)
    ensures var t := FetchCafes(s, dbQuery, overpass, mockLoadedAt, now);
      forall i, j ::
        (|CafeRows.GetAllCafes(dbQuery, mockLoadedAt)| <= i < j < |t.cafes| &&
         t.cafes[i].Name() == OverpassMapping.UnnamedCafe) ==>
        t.cafes[j].Name() != OverpassMapping.UnnamedCafe
  {
  }

  /** Two failed rate fetches in a row still leave the fallback table. */
  lemma RatesSurviveRepeatedFailure(s: AppState)
    ensures FetchRates(FetchRates(s, Failed), Failed).rates == Some(Currency.FallbackRates)
  {
  }

  /** After a failed rate fetch, every conversion between two fallback
      currencies is well defined. */
  lemma DisplayAfterRateFailure(s: AppState, price: real, from: string)
    requires from in {"TRY", "EUR", "USD", "GBP"}
    requires s.currency in {"TRY", "EUR", "USD", "GBP"}
    ensures Currency.CanConvert(from, s.currency, FetchRates(s, Failed).rates)
  {
    Currency.FallbackCoversItsCodes(from, s.currency);
  }

  /** A selection opens the sidebar on the selected cafe's details, and a
      later close keeps the selection. */
  lemma SelectThenClose(s: AppState, cafe: CafeWithPrices)
    ensures var t := SetSelectedCafe(s, Some(cafe));
      t.isSidebarOpen && t.sidebarType == Details && t.selectedCafe == Some(cafe)
    ensures var u := SetSidebarOpen(SetSelectedCafe(s, Some(cafe)), false, None);
      !u.isSidebarOpen && u.selectedCafe == Some(cafe)
  {
  }

  /** Setting a field twice keeps the later value; setters of different
      fields commute. */
  lemma SettersLastWriteWins(s: AppState, a: Theme, b: Theme, lang: Language)
    ensures SetTheme(SetTheme(s, a), b) == SetTheme(s, b)
    ensures SetLanguage(SetTheme(s, a), lang) == SetTheme(SetLanguage(s, lang), a)
  {
  }
}

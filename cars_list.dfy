/** The search match and the realtime list update of components/CarsList.tsx. */
module CarsList {
  import opened Wrappers
  import opened JsText
  import opened Realtime

  /** The fields of a car row the component reads; `None` is a missing field. */
  datatype CarRecord = CarRecord(id: Option<string>, title: Option<string>,
                                 location: Option<string>, isForRent: bool)

  /** The rent/sale toggle. */
  datatype ListFilter = All | Rent | Sale

  /** `String(field || '').toLowerCase()`. */
  function Field(f: Option<string>): string {
    Lower(OrDefault(f, ""))
  }

  /** The filter's own test on `is_for_rent`. */
  predicate FilterAccepts(filter: ListFilter, isForRent: bool) {
    match filter
    case All => true
    case Rent => isForRent
    case Sale => !isForRent
  }

  /** `matches(rec)` for the current query `q` and filter. */
  predicate Matches(q: string, filter: ListFilter, rec: Option<CarRecord>) {
    if rec.None? then false
    else if q != "" && Trim(q) != "" &&
            !Includes(Field(rec.value.title), Lower(q)) &&
            !Includes(Field(rec.value.location), Lower(q)) then false
    else if filter == Rent && !rec.value.isForRent then false
    else if filter == Sale && rec.value.isForRent then false
    else true
  }

  function IdOf(c: CarRecord): Option<string> {
    c.id
  }

  /** The updater passed to `setCars` for one realtime event. */
  function ApplyChange(prev: seq<CarRecord>, ev: Change<CarRecord>, q: string,
                       filter: ListFilter): (r: Option<seq<CarRecord>>)
    ensures ReducesAsSpecified(prev, ev, Matches(q, filter, ev.newRecord), IdOf, r)
  {
    var m := (rec: Option<CarRecord>) => Matches(q, filter, rec);
    ReduceMeetsSpecification(prev, ev, m, IdOf);
    Reduce(prev, ev, m, IdOf)
  }

  lemma NullNeverMatches(q: string, filter: ListFilter)
    ensures !Matches(q, filter, None)
  {
  }

  /** A matching car, under a non-blank query, has the lower-cased query in its title or location. */
  lemma MatchNeedsSubstring(q: string, filter: ListFilter, c: CarRecord)
    requires Trim(q) != []
    ensures Matches(q, filter, Some(c)) <==>
      (Includes(Field(c.title), Lower(q)) || Includes(Field(c.location), Lower(q))) &&
      FilterAccepts(filter, c.isForRent)
  {
  }

  /** A blank query leaves only the rent/sale filter. */
  lemma BlankQueryMatchesByFilter(q: string, filter: ListFilter, c: CarRecord)
    requires Trim(q) == []
    ensures Matches(q, filter, Some(c)) == FilterAccepts(filter, c.isForRent)
  {
  }

  /** "rent" and "sale" split what "all" accepts, and never both accept a car. */
  lemma FiltersPartition(q: string, rec: Option<CarRecord>)
    ensures Matches(q, All, rec) == (Matches(q, Rent, rec) || Matches(q, Sale, rec))
    ensures !(Matches(q, Rent, rec) && Matches(q, Sale, rec))
  {
  }

  /** The query's letter case does not matter. */
  lemma QueryCaseInsensitive(q: string, filter: ListFilter, rec: Option<CarRecord>)
    ensures Matches(Lower(q), filter, rec) == Matches(q, filter, rec)
  {
    LowerIdempotent(q);
    LowerTrimEmpty(q);
  }

  /** A title that holds the query verbatim always passes the search step. */
  lemma VerbatimTitleMatches(q: string, c: CarRecord)
    requires c.title.Some? && Includes(c.title.value, q)
    ensures Matches(q, All, Some(c))
  {
    LowerKeepsIncludes(c.title.value, q);
  }

  /** An INSERT of a car that does not match the current view is ignored; one that matches goes first. */
  lemma InsertPrependsOnlyMatches(prev: seq<CarRecord>, c: CarRecord, q: string, filter: ListFilter)
    ensures ApplyChange(prev, Change("INSERT", Some(c), None), q, filter) ==
      Some(if Matches(q, filter, Some(c)) then [c] + prev else prev)
  {
  }
}

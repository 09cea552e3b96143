/** The search match and the realtime list update of components/PartsList.tsx. */
module PartsList {
  import opened Wrappers
  import opened JsText
  import opened Realtime

  /** The fields of a part row the component reads; `None` is a missing field. */
  datatype PartRecord = PartRecord(id: Option<string>, title: Option<string>, category: Option<string>)

  /** `String(field || '').toLowerCase()`. */
  function Field(f: Option<string>): string {
    Lower(OrDefault(f, ""))
  }

  /** `matches(rec)` for the current query `q`. */
  predicate Matches(q: string, rec: Option<PartRecord>) {
    if rec.None? then false
    else if q != "" && Trim(q) != "" &&
            !Includes(Field(rec.value.title), Lower(q)) &&
            !Includes(Field(rec.value.category), Lower(q)) then false
    else true
  }

  function IdOf(p: PartRecord): Option<string> {
    p.id
  }

  /** The updater passed to `setParts` for one realtime event. */
  function ApplyChange(prev: seq<PartRecord>, ev: Change<PartRecord>, q: string): (r: Option<seq<PartRecord>>)
    ensures ReducesAsSpecified(prev, ev, Matches(q, ev.newRecord), IdOf, r)
  {
    var m := (rec: Option<PartRecord>) => Matches(q, rec);
    ReduceMeetsSpecification(prev, ev, m, IdOf);
    Reduce(prev, ev, m, IdOf)
  }

  /** Null never matches; under a non-blank query a part matches iff its title or category holds it. */
  lemma MatchNeedsSubstring(q: string, rec: Option<PartRecord>)
    requires Trim(q) != []
    ensures Matches(q, rec) <==>
      rec.Some? && (Includes(Field(rec.value.title), Lower(q)) || Includes(Field(rec.value.category), Lower(q)))
  {
  }

  /** A blank query matches every non-null part. */
  lemma BlankQueryMatchesAll(q: string, rec: Option<PartRecord>)
    requires Trim(q) == []
    ensures Matches(q, rec) <==> rec.Some?
  {
  }

  /** The query's letter case does not matter. */
  lemma QueryCaseInsensitive(q: string, rec: Option<PartRecord>)
    ensures Matches(Lower(q), rec) == Matches(q, rec)
  {
    LowerIdempotent(q);
    LowerTrimEmpty(q);
  }

  /** A DELETE drops every part with the old row's id and keeps the rest in order. */
  lemma DeleteDropsId(prev: seq<PartRecord>, gone: PartRecord, q: string)
    ensures ApplyChange(prev, Change("DELETE", None, Some(gone)), q) == Some(RemoveById(prev, gone.id, IdOf))
    ensures forall p :: p in ApplyChange(prev, Change("DELETE", None, Some(gone)), q).value <==>
      p in prev && p.id != gone.id
  {
  }
}

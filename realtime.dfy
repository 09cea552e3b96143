/**
 * The realtime change reducer shared, line for line, by components/CarsList.tsx and
 * components/PartsList.tsx: INSERT prepends a matching record, UPDATE replaces or
 * drops by id, DELETE drops by id, anything else is ignored.
 */
module Realtime {
  import opened Wrappers
  import opened Sequences

  /** A realtime payload: event type and the new and old rows (`None` is null). */
  datatype Change<R> = Change(eventType: string, newRecord: Option<R>, oldRecord: Option<R>)

  function KeepOthers<R>(idOf: R -> Option<string>, id: Option<string>): R -> bool {
    (x: R) => idOf(x) != id
  }

  /** `prev.map(r => (r.id === rec.id ? rec : r))`. */
  function ReplaceById<R>(prev: seq<R>, rec: R, idOf: R -> Option<string>): (r: seq<R>)
    ensures |r| == |prev|
    ensures forall i :: 0 <= i < |prev| ==> r[i] == if idOf(prev[i]) == idOf(rec) then rec else prev[i]
  {
    seq(|prev|, i requires 0 <= i < |prev| => if idOf(prev[i]) == idOf(rec) then rec else prev[i])
  }

  /** `prev.filter(r => r.id !== id)`. */
  function RemoveById<R(==,!new)>(prev: seq<R>, id: Option<string>, idOf: R -> Option<string>): (r: seq<R>)
    ensures forall x :: x in r <==> x in prev && idOf(x) != id
    ensures forall x :: multiset(r)[x] == if idOf(x) != id then multiset(prev)[x] else 0
    ensures IsSubsequence(r, prev)
    ensures (forall i :: 0 <= i < |prev| ==> idOf(prev[i]) != id) ==> r == prev
  {
    FilterMembers(prev, KeepOthers(idOf, id));
    FilterCounts(prev, KeepOthers(idOf, id));
    FilterIsSubsequence(prev, KeepOthers(idOf, id));
    KeepAllWhenAbsent(prev, id, idOf);
    FilterBy(prev, KeepOthers(idOf, id))
  }

  lemma KeepAllWhenAbsent<R>(prev: seq<R>, id: Option<string>, idOf: R -> Option<string>)
    ensures (forall i :: 0 <= i < |prev| ==> idOf(prev[i]) != id) ==>
      FilterBy(prev, KeepOthers(idOf, id)) == prev
  {
    if forall i :: 0 <= i < |prev| ==> idOf(prev[i]) != id {
      FilterKeepsAll(prev, KeepOthers(idOf, id));
    }
  }

  /**
   * The updater given to setCars / setParts. `None` is the TypeError raised when `.id` is
   * read from a null row (UPDATE with a null row that does not match, DELETE with a null
   * old row). The id is read inside the filter callback, so on an empty list it is never
   * read and the result is the empty list. `matches` is the component's match predicate,
   * false on a null row.
   */
  function Reduce<R(==,!new)>(prev: seq<R>, ev: Change<R>, matches: Option<R> -> bool,
                         idOf: R -> Option<string>): (r: Option<seq<R>>)
    requires !matches(None)
  {
    if ev.eventType == "INSERT" then
      if !matches(ev.newRecord) then Some(prev) else Some([ev.newRecord.value] + prev)
    else if ev.eventType == "UPDATE" then
      if matches(ev.newRecord) then Some(ReplaceById(prev, ev.newRecord.value, idOf))
      else if ev.newRecord.None? then (if prev == [] then Some([]) else None)
      else Some(RemoveById(prev, idOf(ev.newRecord.value), idOf))
    else if ev.eventType == "DELETE" then
      if ev.oldRecord.None? then (if prev == [] then Some([]) else None)
      else Some(RemoveById(prev, idOf(ev.oldRecord.value), idOf))
    else Some(prev)
  }

  /** What one change does to the list, event by event. */
  ghost predicate ReducesAsSpecified<R(!new)>(prev: seq<R>, ev: Change<R>, matched: bool,
                                      idOf: R -> Option<string>, r: Option<seq<R>>)
    requires matched ==> ev.newRecord.Some?
  {
    && (r.None? <==> prev != [] && ((ev.eventType == "UPDATE" && !matched && ev.newRecord.None?) ||
                                    (ev.eventType == "DELETE" && ev.oldRecord.None?)))
    && (prev == [] && ev.eventType in {"UPDATE", "DELETE"} ==> r == Some([]))
    && (ev.eventType == "INSERT" ==>
          r == Some(if matched then [ev.newRecord.value] + prev else prev))
    && (ev.eventType == "UPDATE" && matched ==>
          && r.Some? && |r.value| == |prev|
          && (forall i :: 0 <= i < |prev| ==>
                r.value[i] == if idOf(prev[i]) == idOf(ev.newRecord.value) then ev.newRecord.value else prev[i])
          && ((forall i :: 0 <= i < |prev| ==> idOf(prev[i]) != idOf(ev.newRecord.value)) ==> r.value == prev))
    && (ev.eventType == "UPDATE" && !matched && ev.newRecord.Some? ==>
          && r.Some? && IsSubsequence(r.value, prev)
          && (forall x :: x in r.value <==> x in prev && idOf(x) != idOf(ev.newRecord.value))
          && forall x :: multiset(r.value)[x] ==
               if idOf(x) != idOf(ev.newRecord.value) then multiset(prev)[x] else 0)
    && (ev.eventType == "DELETE" && ev.oldRecord.Some? ==>
          && r.Some? && IsSubsequence(r.value, prev)
          && (forall x :: x in r.value <==> x in prev && idOf(x) != idOf(ev.oldRecord.value))
          && forall x :: multiset(r.value)[x] ==
               if idOf(x) != idOf(ev.oldRecord.value) then multiset(prev)[x] else 0)
    && (ev.eventType !in {"INSERT", "UPDATE", "DELETE"} ==> r == Some(prev))
  }

  lemma ReduceMeetsSpecification<R(!new)>(prev: seq<R>, ev: Change<R>, matches: Option<R> -> bool,
                                        idOf: R -> Option<string>)
    requires !matches(None)
    ensures ReducesAsSpecified(prev, ev, matches(ev.newRecord), idOf, Reduce(prev, ev, matches, idOf))
  {
  }

  /** Replaying an UPDATE or a DELETE changes nothing more: both are idempotent. */
  lemma ReplayIsIdempotent<R(!new)>(prev: seq<R>, ev: Change<R>, matches: Option<R> -> bool,
                                    idOf: R -> Option<string>)
    requires !matches(None)
    requires ev.eventType == "UPDATE" || ev.eventType == "DELETE"
    requires Reduce(prev, ev, matches, idOf).Some?
    ensures Reduce(Reduce(prev, ev, matches, idOf).value, ev, matches, idOf) == Reduce(prev, ev, matches, idOf)
  {
    var once := Reduce(prev, ev, matches, idOf).value;
    if ev.eventType == "UPDATE" && matches(ev.newRecord) {
      assert ReplaceById(once, ev.newRecord.value, idOf) == once;
    } else if ev.eventType == "UPDATE" && ev.newRecord.Some? {
      FilterIdempotent(prev, KeepOthers(idOf, idOf(ev.newRecord.value)));
    } else if ev.eventType == "DELETE" && ev.oldRecord.Some? {
      FilterIdempotent(prev, KeepOthers(idOf, idOf(ev.oldRecord.value)));
    }
  }
}

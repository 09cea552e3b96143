/**
 * scripts/seed-rentals.js: the fallback insert that keeps only the columns every schema
 * version has, copying each allowed property that is not undefined.
 */
module SeedRentals {
  import opened JsValues

  /** The columns the fallback insert keeps, in the order they are copied. */
  const ALLOWED: seq<string> :=
    ["title", "slug", "description", "price_per_day", "location", "year", "images", "price_buy"]

  /** The row the fallback builds from `l`: the allowed, defined properties with their values. */
  function Projection(l: Record): (out: Record)
    ensures forall k :: k in out <==> k in ALLOWED && Get(l, k) != Undefined
    ensures forall k :: k in out ==> out[k] == Get(l, k)
  {
    map k | k in ALLOWED && Get(l, k) != Undefined :: l[k]
  }

  /** The properties of one listing copied key by key: `allowed.forEach(k => { if (l[k] !== undefined) out[k] = l[k] })`. */
  method Simplify(l: Record) returns (out: Record)
    ensures forall k :: k in out <==> k in ALLOWED && Get(l, k) != Undefined
    ensures forall k :: k in out ==> out[k] == Get(l, k)
    ensures out == Projection(l)
  {
    out := map[];
    var i := 0;
    while i < |ALLOWED|
      invariant 0 <= i <= |ALLOWED|
      invariant forall k :: k in out <==> k in ALLOWED[..i] && Get(l, k) != Undefined
      invariant forall k :: k in out ==> out[k] == Get(l, k)
    {
      var k := ALLOWED[i];
      assert ALLOWED[..i + 1] == ALLOWED[..i] + [k];
      if Get(l, k) != Undefined {
        out := out[k := l[k]];
      }
      i := i + 1;
    }
    assert ALLOWED[..i] == ALLOWED;
    ProjectionUnique(l, out);
  }

  /** Any record with the allowed, defined keys of `l` and their values is the projection. */
  lemma ProjectionUnique(l: Record, out: Record)
    requires forall k :: k in out <==> k in ALLOWED && Get(l, k) != Undefined
    requires forall k :: k in out ==> out[k] == Get(l, k)
    ensures out == Projection(l)
  {
    assert out.Keys == Projection(l).Keys;
  }

  /** `listings.map(...)`: row count and order are kept. */
  method SimplifyRows(listings: seq<Record>) returns (rows: seq<Record>)
    ensures |rows| == |listings|
    ensures forall i :: 0 <= i < |listings| ==> rows[i] == Projection(listings[i])
  {
    rows := [];
    var i := 0;
    while i < |listings|
      invariant 0 <= i <= |listings|
      invariant |rows| == i
      invariant forall j :: 0 <= j < i ==> rows[j] == Projection(listings[j])
    {
      var out := Simplify(listings[i]);
      rows := rows + [out];
      i := i + 1;
    }
  }

  /** Fields outside the list, such as `type`, `promoted` and `created_at`, never reach the fallback rows. */
  lemma UnlistedFieldsDropped(l: Record)
    ensures "type" !in Projection(l) && "promoted" !in Projection(l) && "created_at" !in Projection(l)
  {
  }

  /** Projecting twice changes nothing, and the projection never adds a key that `l` lacks. */
  lemma ProjectionIdempotent(l: Record)
    ensures Projection(Projection(l)) == Projection(l)
    ensures Projection(l).Keys <= l.Keys
  {
    var p := Projection(l);
    assert forall k :: k in p ==> Get(p, k) == Get(l, k);
    assert Projection(p).Keys == p.Keys;
  }
}

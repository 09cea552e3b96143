/** The compare tray (components/CompareTrayProvider.tsx): up to four listings, no repeated ids. */
module CompareTray {
  import opened Wrappers
  import opened JsText
  import opened Sequences

  const MAX_COMPARE_ITEMS: nat := 4
  const TRAY_FULL_MESSAGE: string := "Tray is full. Remove an item to add another."

  datatype CompareItem = CompareItem(
    id: string, title: string, shortTitle: string, slug: string, thumb: string, price: int)

  predicate HasId(tray: seq<CompareItem>, id: string) {
    exists i :: 0 <= i < |tray| && tray[i].id == id
  }

  function Ids(tray: seq<CompareItem>): (ids: seq<string>)
    ensures |ids| == |tray| && forall i :: 0 <= i < |tray| ==> ids[i] == tray[i].id
  {
    seq(|tray|, i requires 0 <= i < |tray| => tray[i].id)
  }

  predicate DistinctIds(tray: seq<CompareItem>) {
    forall i, j :: 0 <= i < j < |tray| ==> tray[i].id != tray[j].id
  }

  /** What the provider keeps true as long as items only arrive through addItem. */
  predicate TrayInvariant(tray: seq<CompareItem>) {
    |tray| <= MAX_COMPARE_ITEMS && DistinctIds(tray)
  }

  /** addItem is refused with the "full" message: a new id, but no room left. */
  predicate RejectedAsFull(prev: seq<CompareItem>, item: CompareItem) {
    !HasId(prev, item.id) && |prev| >= MAX_COMPARE_ITEMS
  }

  /** The updater addItem hands to setTray. */
  function AddUpdate(prev: seq<CompareItem>, item: CompareItem): (r: seq<CompareItem>)
    ensures prev <= r && |r| <= |prev| + 1
    ensures |r| == |prev| + 1 <==> !HasId(prev, item.id) && |prev| < MAX_COMPARE_ITEMS
    ensures |r| == |prev| + 1 ==> r[|prev|] == item
  {
    if HasId(prev, item.id) then prev
    else if |prev| >= MAX_COMPARE_ITEMS then prev
    else prev + [item]
  }

  function NotId(id: string): CompareItem -> bool {
    (e: CompareItem) => e.id != id
  }

  /** The updater removeItem hands to setTray. */
  function RemoveUpdate(prev: seq<CompareItem>, id: string): (r: seq<CompareItem>)
    ensures !HasId(r, id)
    ensures forall e :: e in r <==> e in prev && e.id != id
    ensures forall e :: multiset(r)[e] == if e.id != id then multiset(prev)[e] else 0
    ensures IsSubsequence(r, prev)
  {
    var r := FilterBy(prev, NotId(id));
    FilterMembers(prev, NotId(id));
    FilterCounts(prev, NotId(id));
    FilterIsSubsequence(prev, NotId(id));
    assert forall i :: 0 <= i < |r| ==> r[i] in r;
    r
  }

  /** handleCompareNow: the page it opens, or None when fewer than two items are queued. */
  function CompareTarget(tray: seq<CompareItem>): (r: Option<string>)
    ensures r.None? <==> |tray| < 2
    ensures r.Some? ==> StartsWith(r.value, "/compare?ids=")
  {
    if |tray| < 2 then None else Some("/compare?ids=" + Join(Ids(tray), ","))
  }

  /** Adding an id that is already queued changes nothing. */
  lemma AddExistingIsNoOp(prev: seq<CompareItem>, item: CompareItem)
    requires HasId(prev, item.id)
    ensures AddUpdate(prev, item) == prev
    ensures !RejectedAsFull(prev, item)
  {
  }

  /** Adding to a full tray changes nothing and is the one case that sets the message. */
  lemma AddToFullIsNoOp(prev: seq<CompareItem>, item: CompareItem)
    requires |prev| >= MAX_COMPARE_ITEMS
    ensures AddUpdate(prev, item) == prev
    ensures RejectedAsFull(prev, item) <==> !HasId(prev, item.id)
  {
  }

  /** Otherwise the item goes to the end and every earlier item keeps its place. */
  lemma AddAppends(prev: seq<CompareItem>, item: CompareItem)
    requires !HasId(prev, item.id) && |prev| < MAX_COMPARE_ITEMS
    ensures AddUpdate(prev, item) == prev + [item]
  {
  }

  /** addItem keeps the tray within four items and free of repeated ids. */
  lemma AddPreservesInvariant(prev: seq<CompareItem>, item: CompareItem)
    requires TrayInvariant(prev)
    ensures TrayInvariant(AddUpdate(prev, item))
    ensures HasId(AddUpdate(prev, item), item.id) <==> !RejectedAsFull(prev, item)
  {
    var r := AddUpdate(prev, item);
    if !HasId(prev, item.id) && |prev| < MAX_COMPARE_ITEMS {
      assert r == prev + [item];
      assert r[|prev|].id == item.id;
      forall i, j | 0 <= i < j < |r| ensures r[i].id != r[j].id {
        if j == |prev| {
          assert prev[i].id != item.id;
        }
      }
    } else if HasId(prev, item.id) {
      assert r == prev;
    } else {
      assert r == prev;
    }
  }

  /** removeItem keeps the invariant too. */
  lemma RemovePreservesInvariant(prev: seq<CompareItem>, id: string)
    requires TrayInvariant(prev)
    ensures TrayInvariant(RemoveUpdate(prev, id))
  {
    var r := FilterBy(prev, NotId(id));
    FilterLength(prev, NotId(id));
    FilterIsSubsequence(prev, NotId(id));
    DistinctIdsSubsequence(r, prev);
  }

  lemma {:induction false} DistinctIdsSubsequence(a: seq<CompareItem>, b: seq<CompareItem>)
    requires IsSubsequence(a, b) && DistinctIds(b)
    ensures DistinctIds(a)
    decreases |b|
  {
    if a != [] && b != [] {
      var b' := b[..|b| - 1];
      if a[|a| - 1] == b[|b| - 1] {
        DistinctIdsSubsequence(a[..|a| - 1], b');
        SubsequenceMembers(a[..|a| - 1], b');
        forall i | 0 <= i < |a| - 1 ensures a[i].id != a[|a| - 1].id {
          assert a[..|a| - 1][i] in b';
        }
      } else {
        DistinctIdsSubsequence(a, b');
      }
    }
  }

  /** The ids in the compare link come back, in tray order, by splitting on ",". */
  lemma CompareLinkListsIds(tray: seq<CompareItem>)
    requires |tray| >= 2
    requires forall i :: 0 <= i < |tray| ==> ',' !in tray[i].id
    ensures CompareTarget(tray) == Some("/compare?ids=" + Join(Ids(tray), ","))
    ensures SplitOn(Join(Ids(tray), ","), ',') == Ids(tray)
  {
    SplitJoin(Ids(tray), ',');
  }

  /**
   * The provider's state: the tray and the transient message. The message timer and the
   * sessionStorage copy are not modelled; a stored tray is restored as it is.
   */
  class Provider {
    var tray: seq<CompareItem>
    var message: string

    constructor ()
      ensures tray == [] && message == ""
    {
      tray := [];
      message := "";
    }

    /** A tray parsed from sessionStorage replaces the state without any cap. */
    method RestoreTray(parsed: seq<CompareItem>)
      modifies this
      ensures tray == parsed && message == old(message)
    {
      tray := parsed;
    }

    method AddItem(item: CompareItem)
      modifies this
      ensures tray == AddUpdate(old(tray), item)
      ensures message == if RejectedAsFull(old(tray), item) then TRAY_FULL_MESSAGE else old(message)
    {
      if RejectedAsFull(tray, item) {
        message := TRAY_FULL_MESSAGE;
      }
      tray := AddUpdate(tray, item);
    }

    method RemoveItem(id: string)
      modifies this
      ensures tray == RemoveUpdate(old(tray), id) && message == old(message)
    {
      tray := RemoveUpdate(tray, id);
    }

    method ClearTray()
      modifies this
      ensures tray == [] && message == old(message)
    {
      tray := [];
    }

    /** The "Compare now" button is disabled below two items. */
    function CompareDisabled(): (b: bool)
      reads this
      ensures b <==> CompareTarget(tray).None?
    {
      |tray| < 2
    }

    /** handleCompareNow: the route it pushes, if any; the tray is untouched. */
    method HandleCompareNow() returns (target: Option<string>)
      ensures target.None? <==> |tray| < 2
      ensures target.Some? ==> target.value == "/compare?ids=" + Join(Ids(tray), ",")
    {
      target := CompareTarget(tray);
    }
  }
}

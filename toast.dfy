/**
 * The toast queue: each toast gets the next id from a counter, is appended
 * to the list, is later marked as leaving and finally removed. The two
 * timers that trigger marking and removal are modelled as explicit calls.
 */
module Toast {
  import opened JsPrelude

  datatype ToastItem = ToastItem(id: int, message: string, leaving: bool)

  ghost predicate IdsIncreasing(toasts: seq<ToastItem>) {
    forall i, j :: 0 <= i < j < |toasts| ==> toasts[i].id < toasts[j].id
  }

  function IdIsNot(id: int): ToastItem -> bool { (t: ToastItem) => t.id != id }

  /** `prev.map(t => t.id === id ? {...t, leaving: true} : t)`. */
  function MarkedLeaving(toasts: seq<ToastItem>, id: int): (r: seq<ToastItem>)
    ensures |r| == |toasts|
    ensures forall i :: 0 <= i < |toasts| && toasts[i].id == id ==>
              r[i] == ToastItem(id, toasts[i].message, true)
    ensures forall i :: 0 <= i < |toasts| && toasts[i].id != id ==> r[i] == toasts[i]
  {
    seq(|toasts|, i requires 0 <= i < |toasts| =>
      if toasts[i].id == id then toasts[i].(leaving := true) else toasts[i])
  }

  /** `prev.filter(t => t.id !== id)`. */
  function Without(toasts: seq<ToastItem>, id: int): (r: seq<ToastItem>)
    ensures forall i :: 0 <= i < |r| ==> r[i].id != id && r[i] in toasts
    ensures forall i :: 0 <= i < |toasts| && toasts[i].id != id ==> toasts[i] in r
  {
    Filter(toasts, IdIsNot(id))
  }

  /** Marking keeps the ids, so it keeps them increasing. */
  lemma MarkingKeepsIds(toasts: seq<ToastItem>, id: int)
    requires IdsIncreasing(toasts)
    ensures IdsIncreasing(MarkedLeaving(toasts, id))
  {
  }

  /** Removal keeps the remaining toasts in order, so ids stay increasing. */
  lemma {:induction false} RemovalKeepsIdsIncreasing(toasts: seq<ToastItem>, id: int)
    requires IdsIncreasing(toasts)
    ensures IdsIncreasing(Without(toasts, id))
  {
    if toasts != [] {
      RemovalKeepsIdsIncreasing(toasts[1..], id);
      var rest := Without(toasts[1..], id);
      forall j | 0 <= j < |rest| ensures toasts[0].id < rest[j].id {
        assert rest[j] in toasts[1..];
        var k :| 0 <= k < |toasts[1..]| && toasts[1..][k] == rest[j];
        assert toasts[k + 1] == rest[j];
      }
    }
  }

  /** Removing an id no toast carries changes nothing. */
  lemma {:induction false} RemovingAbsentId(toasts: seq<ToastItem>, id: int)
    requires forall i :: 0 <= i < |toasts| ==> toasts[i].id != id
    ensures Without(toasts, id) == toasts
  {
    FilterAll(toasts, IdIsNot(id));
  }

  /** A toast's whole life (appended, marked leaving, removed) gives back the
      list it joined, when its id was fresh. */
  lemma ToastLifecycle(toasts: seq<ToastItem>, id: int, message: string)
    requires forall i :: 0 <= i < |toasts| ==> toasts[i].id != id
    ensures Without(MarkedLeaving(toasts + [ToastItem(id, message, false)], id), id) == toasts
  {
    var shown := toasts + [ToastItem(id, message, false)];
    var marked := MarkedLeaving(shown, id);
    assert marked == toasts + [ToastItem(id, message, true)];
    FilterAppend(toasts, [ToastItem(id, message, true)], IdIsNot(id));
    RemovingAbsentId(toasts, id);
  }

  class ToastQueue {
    var toasts: seq<ToastItem>
    var nextId: int

    /** Ids are issued in increasing order and all are below the counter. */
    ghost predicate Valid()
      reads this
    {
      nextId >= 0 && IdsIncreasing(toasts) &&
      forall i :: 0 <= i < |toasts| ==> toasts[i].id < nextId
    }

    constructor ()
      ensures Valid() && toasts == [] && nextId == 0
    {
      toasts := [];
      nextId := 0;
    }

    /** `showToast`: takes the counter's value as the id, bumps the counter
        and appends the toast, not yet leaving. */
    method Show(message: string) returns (id: int)
      requires Valid()
      modifies this
      ensures Valid()
      ensures id == old(nextId) && nextId == old(nextId) + 1
      ensures toasts == old(toasts) + [ToastItem(id, message, false)]
      ensures forall i :: 0 <= i < |old(toasts)| ==> old(toasts)[i].id < id
    {
      id := nextId;
      nextId := nextId + 1;
      toasts := toasts + [ToastItem(id, message, false)];
    }

    /** The first timer of a toast: marks it as leaving. */
    method MarkLeaving(id: int)
      requires Valid()
      modifies this
      ensures Valid()
      ensures toasts == MarkedLeaving(old(toasts), id) && nextId == old(nextId)
    {
      MarkingKeepsIds(toasts, id);
      toasts := MarkedLeaving(toasts, id);
    }

    /** The second timer of a toast: removes it. */
    method Remove(id: int)
      requires Valid()
      modifies this
      ensures Valid()
      ensures toasts == Without(old(toasts), id) && nextId == old(nextId)
    {
      RemovalKeepsIdsIncreasing(toasts, id);
      toasts := Without(toasts, id);
    }
  }
}

/**
 * The RFP list screen: a snapshot of every record, read in full from the
 * store, and a two-step delete (the row's Delete button, then Confirm in
 * the dialog). After a delete the snapshot is re-read, never patched.
 * Each handler is one atomic step given how its store calls end.
 */
module RfpList {
  import opened Records
  import opened Store

  class ListController {
    /** The last list read from the store. */
    var rfps: seq<Record>
    var deleteModalOpen: bool
    /** The row whose Delete button was clicked last. */
    var selected: Option<Record>
    var toastOpen: bool

    /** The confirmation dialog always has a record to delete. */
    ghost predicate Valid()
      reads this
    {
      deleteModalOpen ==> selected.Some?
    }

    constructor ()
      ensures Valid()
      ensures rfps == [] && !deleteModalOpen && selected == None && !toastOpen
    {
      rfps, deleteModalOpen, selected, toastOpen := [], false, None, false;
    }

    /**
     * One GET of the whole collection; when it is delivered the snapshot is
     * replaced by the store's rows, otherwise it stays as it was.
     */
    method FetchAll(store: RecordStore, outcome: Outcome)
      requires store.Valid()
      modifies this`rfps, store
      ensures store.Valid()
      ensures store.table == old(store.table)
      ensures store.log == old(store.log) + [ListAll]
      ensures outcome.Delivered? ==> rfps == store.table.rows
      ensures outcome.Failed? ==> rfps == old(rfps)
    {
      var resp := store.Send(ListAll, outcome);
      if resp.Listed? {
        rfps := resp.rows;
      }
    }

    /** A row's Delete button: it only selects the row and opens the dialog; no store call. */
    method ClickDelete(row: Record)
      requires row in rfps
      modifies this`deleteModalOpen, this`selected
      ensures Valid() && deleteModalOpen && selected == Some(row)
    {
      deleteModalOpen := true;
      selected := Some(row);
    }

    /** The dialog's Cancel button, or closing the dialog: no store call, the snapshot stays. */
    method CloseDialog()
      requires Valid()
      modifies this`deleteModalOpen
      ensures Valid() && !deleteModalOpen
    {
      deleteModalOpen := false;
    }

    /**
     * One DELETE of target. When it is delivered the toast opens and the
     * whole list is re-read; when it fails the call throws before either.
     */
    method DeleteRecord(store: RecordStore, target: Id, deleteOutcome: Outcome, refetchOutcome: Outcome)
      requires store.Valid()
      modifies this`rfps, this`toastOpen, store
      ensures store.Valid()
      ensures store.table == Apply(old(store.table), Delete(target), deleteOutcome)
      ensures deleteOutcome.Failed? ==>
        store.log == old(store.log) + [Delete(target)] && rfps == old(rfps) && toastOpen == old(toastOpen)
      ensures deleteOutcome.Delivered? ==>
        store.log == old(store.log) + [Delete(target), ListAll] && toastOpen
      ensures deleteOutcome.Delivered? && refetchOutcome.Delivered? ==> rfps == store.table.rows
      ensures deleteOutcome.Delivered? && refetchOutcome.Failed? ==> rfps == old(rfps)
    {
      var resp := store.Send(Delete(target), deleteOutcome);
      if resp.Failure? {
        return;
      }
      toastOpen := true;
      FetchAll(store, refetchOutcome);
    }

    /**
     * The dialog's Confirm button: exactly one DELETE, of the selected
     * record, and the dialog closes whatever the outcome. After a delivered
     * delete and refetch, the snapshot is the store's rows, none of which
     * has the deleted identifier.
     */
    method Confirm(store: RecordStore, deleteOutcome: Outcome, refetchOutcome: Outcome)
      requires Valid() && deleteModalOpen && store.Valid()
      modifies this`rfps, this`toastOpen, this`deleteModalOpen, store
      ensures Valid() && !deleteModalOpen && store.Valid()
      ensures var target := selected.value.id;
        && store.table == Apply(old(store.table), Delete(target), deleteOutcome)
        && store.log == old(store.log) + [Delete(target)] + (if deleteOutcome.Delivered? then [ListAll] else [])
      ensures deleteOutcome.Failed? ==> rfps == old(rfps) && toastOpen == old(toastOpen)
      ensures deleteOutcome.Delivered? ==> toastOpen
      ensures deleteOutcome.Delivered? && refetchOutcome.Delivered? ==>
        && rfps == Remove(old(store.table.rows), selected.value.id)
        && forall r :: r in rfps ==> r.id != selected.value.id
      ensures deleteOutcome.Delivered? && refetchOutcome.Failed? ==> rfps == old(rfps)
    {
      DeleteRecord(store, selected.value.id, deleteOutcome, refetchOutcome);
      deleteModalOpen := false;
    }

    /** The success toast is dismissed. */
    method CloseToast()
      modifies this`toastOpen
      ensures !toastOpen
    {
      toastOpen := false;
    }
  }

  /**
   * The list shows Carrier A (100 employees) and Carrier B (200). Clicking
   * Carrier A's Delete makes no call; confirming makes one DELETE for its
   * identifier followed by one refetch, after which only Carrier B is shown.
   */
  method DeleteFirstOfTwo() returns (shown: seq<string>, log: seq<Request>)
    ensures shown == ["Carrier B"]
    ensures log == [ListAll, Delete(1), ListAll]
  {
    var a := Record(1, Fields("Carrier A", 100, Text("Data A"), "2024-01-01"));
    var b := Record(2, Fields("Carrier B", 200, Text("Data B"), "2024-01-02"));
    var store := new RecordStore(Table([a, b], 3));
    var list := new ListController();
    list.FetchAll(store, Delivered("t1"));
    assert list.rfps == [a, b];
    list.ClickDelete(a);
    assert store.log == [ListAll];
    list.Confirm(store, Delivered("t2"), Delivered("t3"));
    assert list.rfps == [b];
    shown := [list.rfps[0].fields.carrierName];
    log := store.log;
  }
}

/**
 * The RFP form screen. One form serves two modes, fixed when it is mounted:
 * without an identifier it creates a record, with one it edits (and may
 * delete) that record. Each handler is one atomic step given how the store
 * call it makes ends.
 */
module RfpForm {
  import opened Records
  import opened JsText
  import opened Store

  const NameRequired := "Carrier Name is required."
  const CountNegative := "Employee count must be 0 or above."
  const SaveFailed := "Failed to save RFP. Please try again."
  const DeleteFailed := "Failed to delete RFP. Please try again."

  /** The list screen's route, where every navigation of the form goes. */
  const ListRoute := "/"

  /**
   * The body of a save: the form's four fields as they stand, except that a
   * blank date becomes the clock reading taken at submit time.
   */
  function Payload(carrierName: string, employeeCount: int, miscData: Misc, dateSubmitted: string, now: string): (p: Fields)
    requires now != ""
    ensures p.carrierName == carrierName && p.employeeCount == employeeCount && p.miscData == miscData
    ensures p.dateSubmitted != ""
    ensures dateSubmitted != "" ==> p.dateSubmitted == dateSubmitted
    ensures dateSubmitted == "" ==> p.dateSubmitted == now
  {
    Fields(carrierName, employeeCount, miscData, if dateSubmitted != "" then dateSubmitted else now)
  }

  /** The save call of each mode: PUT to the record being edited, or POST a new one. */
  function SaveRequest(id: Option<Id>, body: Fields): (r: Request)
    ensures r.Update? <==> id.Some?
    ensures r.Update? ==> r.id == id.value
    ensures r.Create? || r.Update?
    ensures r.body == body
  {
    if id.Some? then Update(id.value, body) else Create(body)
  }

  /** A record as the data model requires it: a carrier name that is not all whitespace, a count of at least 0, and a date. */
  ghost predicate WellFormed(f: Fields) {
    && (exists i :: 0 <= i < |f.carrierName| && !IsWhitespace(f.carrierName[i]))
    && f.employeeCount >= 0
    && f.dateSubmitted != ""
  }

  /** Every body that passes the validation gate satisfies the data model. */
  lemma AcceptedPayloadWellFormed(carrierName: string, employeeCount: int, miscData: Misc, dateSubmitted: string, now: string)
    requires Trim(carrierName) != "" && employeeCount >= 0 && now != ""
    ensures WellFormed(Payload(carrierName, employeeCount, miscData, dateSubmitted, now))
  {
    BlankIffAllWhitespace(carrierName);
  }

  /** A name with one character that is not whitespace passes the carrier-name check. */
  lemma NonBlankName(name: string, k: nat)
    requires k < |name| && !IsWhitespace(name[k])
    ensures Trim(name) != ""
  {
    BlankIffAllWhitespace(name);
  }

  class FormController {
    /** The identifier from the URL: present in edit mode, absent in create mode; never changes. */
    const id: Option<Id>

    var carrierName: string
    var employeeCount: int
    var miscData: Misc
    var dateSubmitted: string
    var error: Option<string>
    var success: bool
    var deleteModalOpen: bool

    /** The 2-second timer that returns to the list after a successful save is pending. */
    var navigateScheduled: bool
    /** The route the form has navigated to, if any. */
    var navigatedTo: Option<string>

    /** The delete confirmation can only be open in edit mode. */
    ghost predicate Valid()
      reads this
    {
      deleteModalOpen ==> id.Some?
    }

    /** The form's four fields, as they would be sent. */
    ghost function Current(): Fields
      reads this
    {
      Fields(carrierName, employeeCount, miscData, dateSubmitted)
    }

    /** Whether the Delete button is rendered at all. */
    predicate DeleteAvailable()
    {
      id.Some?
    }

    constructor (id: Option<Id>)
      ensures Valid() && this.id == id
      ensures Current() == Fields("", 0, Text(""), "")
      ensures error == None && !success && !deleteModalOpen
      ensures !navigateScheduled && navigatedTo == None
    {
      this.id := id;
      carrierName, employeeCount, miscData, dateSubmitted := "", 0, Text(""), "";
      error, success, deleteModalOpen := None, false, false;
      navigateScheduled, navigatedTo := false, None;
    }

    /**
     * The mount effect: in edit mode, one GET of the record; on success the
     * four fields take the fetched values, on failure nothing changes.
     * Create mode makes no call.
     */
    method Mount(store: RecordStore, outcome: Outcome)
      requires Valid() && store.Valid()
      modifies this, store
      ensures Valid() && store.Valid()
      ensures store.table == old(store.table)
      ensures store.log == old(store.log) + (if id.Some? then [Get(id.value)] else [])
      ensures id.Some? && outcome.Delivered? && Find(old(store.table.rows), id.value).Some? ==>
        Current() == Find(old(store.table.rows), id.value).value.fields
      ensures !(id.Some? && outcome.Delivered? && Find(old(store.table.rows), id.value).Some?) ==>
        Current() == old(Current())
      ensures error == old(error) && success == old(success) && deleteModalOpen == old(deleteModalOpen)
      ensures navigateScheduled == old(navigateScheduled) && navigatedTo == old(navigatedTo)
    {
      if id.Some? {
        var resp := store.Send(Get(id.value), outcome);
        if resp.Found? {
          var f := resp.record.fields;
          carrierName := f.carrierName;
          employeeCount := f.employeeCount;
          miscData := f.miscData;
          dateSubmitted := f.dateSubmitted;
        }
      }
    }

    method SetCarrierName(value: string)
      modifies this`carrierName
      ensures Current() == old(Current()).(carrierName := value)
    {
      carrierName := value;
    }

    method SetEmployeeCount(value: int)
      modifies this`employeeCount
      ensures Current() == old(Current()).(employeeCount := value)
    {
      employeeCount := value;
    }

    method SetMiscData(value: Misc)
      modifies this`miscData
      ensures Current() == old(Current()).(miscData := value)
    {
      miscData := value;
    }

    method SetDateSubmitted(value: string)
      modifies this`dateSubmitted
      ensures Current() == old(Current()).(dateSubmitted := value)
    {
      dateSubmitted := value;
    }

    /**
     * Submit. The validation gate checks the carrier name first, then the
     * count, and a rejected submit makes no store call. An accepted one
     * makes exactly one call, the save of the current mode; success
     * schedules the return to the list, failure keeps every entered value.
     */
    method Submit(store: RecordStore, outcome: Outcome, now: string)
      requires Valid() && store.Valid() && now != ""
      modifies this, store
      ensures Valid() && store.Valid()
      ensures carrierName == old(carrierName) && miscData == old(miscData) && dateSubmitted == old(dateSubmitted)
      ensures deleteModalOpen == old(deleteModalOpen) && navigatedTo == old(navigatedTo)
      // a blank carrier name is reported first, and nothing else happens
      ensures Trim(old(carrierName)) == "" ==> error == Some(NameRequired)
      ensures Trim(old(carrierName)) == "" ==> employeeCount == old(employeeCount)
      ensures Trim(old(carrierName)) == "" ==> success == old(success) && navigateScheduled == old(navigateScheduled)
      ensures Trim(old(carrierName)) == "" ==> store.log == old(store.log) && store.table == old(store.table)
      // then a negative count is reported and reset to 0, with no call
      ensures Trim(old(carrierName)) != "" && old(employeeCount) < 0 ==> error == Some(CountNegative)
      ensures Trim(old(carrierName)) != "" && old(employeeCount) < 0 ==> employeeCount == 0
      ensures Trim(old(carrierName)) != "" && old(employeeCount) < 0 ==>
        success == old(success) && navigateScheduled == old(navigateScheduled)
      ensures Trim(old(carrierName)) != "" && old(employeeCount) < 0 ==>
        store.log == old(store.log) && store.table == old(store.table)
      // otherwise exactly one save call, of the current mode, with the current fields
      ensures Trim(old(carrierName)) != "" && old(employeeCount) >= 0 ==> employeeCount == old(employeeCount)
      ensures Trim(old(carrierName)) != "" && old(employeeCount) >= 0 ==>
        var req := SaveRequest(id, Payload(old(carrierName), old(employeeCount), old(miscData), old(dateSubmitted), now));
        store.log == old(store.log) + [req] && store.table == Apply(old(store.table), req, outcome)
      ensures Trim(old(carrierName)) != "" && old(employeeCount) >= 0 && outcome.Delivered? ==>
        success && navigateScheduled && error == old(error)
      ensures Trim(old(carrierName)) != "" && old(employeeCount) >= 0 && outcome.Failed? ==>
        error == Some(SaveFailed) && success == old(success) && navigateScheduled == old(navigateScheduled)
    {
      if Trim(carrierName) == "" {
        error := Some(NameRequired);
        return;
      }
      if employeeCount < 0 {
        error := Some(CountNegative);
        employeeCount := 0;
        return;
      }
      Save(store, outcome, now);
    }

    /**
     * The save step of an accepted submit: the body from the current fields,
     * one PUT or POST, then the success flag and the scheduled return to the
     * list, or the save error with every field kept.
     */
    method Save(store: RecordStore, outcome: Outcome, now: string)
      requires store.Valid() && now != ""
      modifies this`error, this`success, this`navigateScheduled, store
      ensures store.Valid()
      ensures var req := SaveRequest(id, Payload(carrierName, employeeCount, miscData, dateSubmitted, now));
        store.log == old(store.log) + [req] && store.table == Apply(old(store.table), req, outcome)
      ensures outcome.Delivered? ==> success && navigateScheduled && error == old(error)
      ensures outcome.Failed? ==>
        error == Some(SaveFailed) && success == old(success) && navigateScheduled == old(navigateScheduled)
    {
      var req := SaveRequest(id, Payload(carrierName, employeeCount, miscData, dateSubmitted, now));
      var resp := store.Send(req, outcome);
      if resp.Failure? {
        error := Some(SaveFailed);
      } else {
        success := true;
        navigateScheduled := true;
      }
    }

    /** The pending timer fires and the form returns to the list. */
    method NavigationTimerFires()
      requires navigateScheduled
      modifies this`navigateScheduled, this`navigatedTo
      ensures !navigateScheduled && navigatedTo == Some(ListRoute)
    {
      navigateScheduled := false;
      navigatedTo := Some(ListRoute);
    }

    /** The Cancel button leaves for the list without any store call. */
    method Cancel()
      modifies this`navigatedTo
      ensures navigatedTo == Some(ListRoute)
    {
      navigatedTo := Some(ListRoute);
    }

    /** The Delete button, rendered only in edit mode, only opens the confirmation. */
    method OpenDeleteDialog()
      requires DeleteAvailable()
      modifies this`deleteModalOpen
      ensures Valid() && deleteModalOpen
    {
      deleteModalOpen := true;
    }

    /** The dialog's Cancel button, or closing the dialog, declines the delete. */
    method CloseDeleteDialog()
      modifies this`deleteModalOpen
      ensures Valid() && !deleteModalOpen
    {
      deleteModalOpen := false;
    }

    /**
     * The dialog's Confirm button: exactly one DELETE of the edited record.
     * Success navigates to the list, failure reports the error and stays;
     * either way the dialog closes.
     */
    method HandleDelete(store: RecordStore, outcome: Outcome)
      requires Valid() && deleteModalOpen && store.Valid()
      modifies this, store
      ensures Valid() && store.Valid() && !deleteModalOpen
      ensures store.log == old(store.log) + [Delete(id.value)]
      ensures store.table == Apply(old(store.table), Delete(id.value), outcome)
      ensures Current() == old(Current()) && success == old(success) && navigateScheduled == old(navigateScheduled)
      ensures outcome.Delivered? ==> navigatedTo == Some(ListRoute) && error == old(error)
      ensures outcome.Failed? ==> navigatedTo == old(navigatedTo) && error == Some(DeleteFailed)
    {
      var resp := store.Send(Delete(id.value), outcome);
      if resp.Failure? {
        error := Some(DeleteFailed);
      } else {
        navigatedTo := Some(ListRoute);
      }
      deleteModalOpen := false;
    }

    /** The error notification is dismissed. */
    method DismissError()
      modifies this`error
      ensures error == None
    {
      error := None;
    }

    /** The success notification is dismissed. */
    method DismissSuccess()
      modifies this`success
      ensures !success
    {
      success := false;
    }
  }

  /**
   * Create flow: a fresh form in create mode, carrier "Carrier X" and 300
   * employees entered, submitted with the call delivered. The store sees
   * exactly one POST, whose body carries the entered values, the form's
   * initial misc value, and the submit-time clock as date.
   */
  method CreateFlow(now: string, serverTime: string) returns (log: seq<Request>, stored: seq<Record>)
    requires now != ""
    ensures log == [Create(Fields("Carrier X", 300, Text(""), now))]
    ensures stored == [Record(0, Fields("Carrier X", 300, Text(""), serverTime))]
  {
    var store := new RecordStore(Table([], 0));
    var form := new FormController(None);
    form.SetCarrierName("Carrier X");
    form.SetEmployeeCount(300);
    NonBlankName("Carrier X", 0);
    form.Submit(store, Delivered(serverTime), now);
    log, stored := store.log, store.table.rows;
  }

  /**
   * A blank carrier name with a negative count: the name check fires first,
   * no call is made, and the count is not reset.
   */
  method BlankNameFirst() returns (error: Option<string>, count: int, log: seq<Request>)
    ensures error == Some(NameRequired) && count == -5 && log == []
  {
    var store := new RecordStore(Table([], 0));
    var form := new FormController(None);
    form.SetCarrierName(" \t");
    form.SetEmployeeCount(-5);
    form.Submit(store, Delivered("t"), "t");
    error, count, log := form.error, form.employeeCount, store.log;
  }
}

/** The administrator screen: the pending queue, approval or rejection of one record, and the credential an approval creates. */
module Admin {

  import opened Wrappers
  import opened Store
  import opened Lists

  datatype Action = Approve | Reject

  /** What one press of the confirm button did. */
  datatype ActionOutcome =
    | Ignored             // nothing selected, id 0, or the id is no longer pending
    | Moved(done: Action) // the record was approved or rejected
    | Aborted             // approval threw while reading an unreadable driver list

  const DefaultDriverPassword: string := "123456"

  /** 4.5 stars, in tenths. */
  const NewDriverRating: int := 45

  /** `s.slice(-4)`: the last four characters, or all of a shorter string. */
  function LastFour(s: string): (r: string)
    ensures |r| == if |s| < 4 then |s| else 4
    ensures s == s[..|s| - |r|] + r
  {
    if |s| <= 4 then s else s[|s| - 4..]
  }

  /** The login credential an approval derives from a registration: its CNH doubles as the phone. */
  function Credential(g: Registration): (d: Driver)
    ensures d.phone == g.cnh && d.cnh == g.cnh && d.password == "123456"
    ensures d.name == "Mototaxista " + LastFour(g.cnh)
    ensures d.status == "approved" && d.rating == 45 && d.totalRides == 0
  {
    Driver(g.cnh, DefaultDriverPassword, "Mototaxista " + LastFour(g.cnh), g.cnh, "approved", NewDriverRating, 0)
  }

  /** The first pending record with the id, or -1 (`findIndex(r => r.id === id)`). */
  function IndexOfId(pending: seq<Registration>, id: int): (i: int)
    ensures -1 <= i < |pending|
    ensures i == -1 <==> forall j :: 0 <= j < |pending| ==> pending[j].id != id
    ensures 0 <= i ==> pending[i].id == id && forall j :: 0 <= j < i ==> pending[j].id != id
  {
    IndexOfKey(pending, RegistrationId, id)
  }

  /**
   * The guard of `executeAction`: an action is chosen, the id is truthy (so id 0 counts as no selection)
   * and some pending record has it.
   */
  function Actionable(action: Option<Action>, id: Option<int>, pending: seq<Registration>): (b: bool)
    ensures b <==> action.Some? && id.Some? && id.value != 0
                   && exists j :: 0 <= j < |pending| && pending[j].id == id.value
  {
    action.Some? && id.Some? && id.value != 0 && IndexOfId(pending, id.value) >= 0
  }

  /** The record as approval or rejection leaves it: the new status and the processing date. */
  function Processed(g: Registration, a: Action, date: string): (p: Registration)
    ensures p.status == StatusAfter(a) && p.processedDate == Some(date)
    ensures p.id == g.id && p.cnh == g.cnh && p.vehicleDocument == g.vehicleDocument && p.password == g.password
    ensures p.photoName == g.photoName && p.photoSize == g.photoSize && p.registrationDate == g.registrationDate
  {
    g.(status := StatusAfter(a), processedDate := Some(date))
  }

  /** The status an action gives a record. */
  function StatusAfter(a: Action): RegistrationStatus
  {
    if a == Approve then RegistrationStatus.Approved else RegistrationStatus.Rejected
  }

  /** The record `addSampleRegistration` queues. */
  function SampleRegistration(id: int, date: string): (g: Registration)
    ensures g.id == id && g.registrationDate == date && g.status == Pending && g.processedDate == None
    ensures g.cnh == "12345678901" && g.vehicleDocument == "CRLV-2024-001234" && g.password == None
    ensures g.photoName == "foto_mototaxista.jpg" && g.photoSize == 2048576
  {
    Registration(id, "12345678901", "CRLV-2024-001234", None, "foto_mototaxista.jpg", 2048576, date, Pending, None)
  }

  predicate AllWithStatus(s: seq<Registration>, st: RegistrationStatus)
  {
    forall i :: 0 <= i < |s| ==> s[i].status == st
  }

  /** Taking one record out of a list leaves the others' statuses as they were. */
  lemma RemoveAtKeepsStatus(s: seq<Registration>, i: nat, st: RegistrationStatus)
    requires i < |s| && AllWithStatus(s, st)
    ensures AllWithStatus(RemoveAt(s, i), st)
  {
    var r := RemoveAt(s, i);
    forall j | 0 <= j < |r|
      ensures r[j].status == st
    {
      assert r[j] == s[if j < i then j else j + 1];
    }
  }

  /** A record processed by an action may join the list of records with that action's status. */
  lemma AppendProcessedKeepsStatus(s: seq<Registration>, g: Registration, a: Action, date: string)
    requires AllWithStatus(s, StatusAfter(a))
    ensures AllWithStatus(s + [Processed(g, a, date)], StatusAfter(a))
  {
    var r := s + [Processed(g, a, date)];
    forall j | 0 <= j < |r|
      ensures r[j].status == StatusAfter(a)
    {
      if j < |s| {
        assert r[j] == s[j];
      }
    }
  }

  /** The administrator screen's module state. */
  class AdminScreen {
    var pending: seq<Registration>
    var approved: seq<Registration>
    var rejected: seq<Registration>
    var currentAction: Option<Action>
    var currentId: Option<int>
    // the three counters on the page
    var pendingCount: int
    var approvedCount: int
    var rejectedCount: int

    /** The counters show the three list lengths. */
    predicate CountersCurrent()
      reads this
    {
      pendingCount == |pending| && approvedCount == |approved| && rejectedCount == |rejected|
    }

    /** Each record sits in the list its status names. */
    predicate StatusesMatch()
      reads this
    {
      AllWithStatus(pending, Pending) && AllWithStatus(approved, RegistrationStatus.Approved) && AllWithStatus(rejected, RegistrationStatus.Rejected)
    }

    /**
     * Page load: `loadData` over the three empty lists, then (unless it threw) `updateStatistics`;
     * when loading throws, the lists it reached are loaded and the counters still show 0.
     */
    constructor (store: LocalStore)
      ensures currentAction == None && currentId == None
      ensures pending == if store.pendingRegistrations.Stored? then store.pendingRegistrations.items else []
      ensures approved == if !store.pendingRegistrations.Garbled? && store.approvedRegistrations.Stored?
                          then store.approvedRegistrations.items else []
      ensures rejected == if !store.pendingRegistrations.Garbled? && !store.approvedRegistrations.Garbled?
                             && store.rejectedRegistrations.Stored?
                          then store.rejectedRegistrations.items else []
      ensures (!store.pendingRegistrations.Garbled? && !store.approvedRegistrations.Garbled?
               && !store.rejectedRegistrations.Garbled?) ==> CountersCurrent()
      ensures (store.pendingRegistrations.Garbled? || store.approvedRegistrations.Garbled?
               || store.rejectedRegistrations.Garbled?) ==> pendingCount == 0 && approvedCount == 0 && rejectedCount == 0
    {
      pending, approved, rejected := [], [], [];
      currentAction, currentId := None, None;
      pendingCount, approvedCount, rejectedCount := 0, 0, 0;
      new;
      var ok := LoadData(store);
      if ok {
        UpdateStatistics();
      }
    }

    /**
     * `loadData`: each stored list replaces the in-memory one and a missing key keeps it; unreadable
     * text throws, so that list and the ones after it keep their old contents.
     */
    method LoadData(store: LocalStore) returns (ok: bool)
      modifies this`pending, this`approved, this`rejected
      ensures ok <==> !store.pendingRegistrations.Garbled? && !store.approvedRegistrations.Garbled?
                      && !store.rejectedRegistrations.Garbled?
      ensures pending == if store.pendingRegistrations.Stored? then store.pendingRegistrations.items else old(pending)
      ensures approved == if !store.pendingRegistrations.Garbled? && store.approvedRegistrations.Stored?
                          then store.approvedRegistrations.items else old(approved)
      ensures rejected == if !store.pendingRegistrations.Garbled? && !store.approvedRegistrations.Garbled?
                             && store.rejectedRegistrations.Stored?
                          then store.rejectedRegistrations.items else old(rejected)
    {
      if store.pendingRegistrations.Garbled? {
        return false;
      }
      if store.pendingRegistrations.Stored? {
        pending := store.pendingRegistrations.items;
      }
      if store.approvedRegistrations.Garbled? {
        return false;
      }
      if store.approvedRegistrations.Stored? {
        approved := store.approvedRegistrations.items;
      }
      if store.rejectedRegistrations.Garbled? {
        return false;
      }
      if store.rejectedRegistrations.Stored? {
        rejected := store.rejectedRegistrations.items;
      }
      return true;
    }

    /** `saveData`: all three lists are written back. */
    method SaveData(store: LocalStore)
      modifies store`pendingRegistrations, store`approvedRegistrations, store`rejectedRegistrations
      ensures store.pendingRegistrations == Stored(pending)
      ensures store.approvedRegistrations == Stored(approved)
      ensures store.rejectedRegistrations == Stored(rejected)
    {
      store.pendingRegistrations := Stored(pending);
      store.approvedRegistrations := Stored(approved);
      store.rejectedRegistrations := Stored(rejected);
    }

    /** `updateStatistics`. */
    method UpdateStatistics()
      modifies this`pendingCount, this`approvedCount, this`rejectedCount
      ensures CountersCurrent()
    {
      pendingCount := |pending|;
      approvedCount := |approved|;
      rejectedCount := |rejected|;
    }

    /**
     * The refresh button: `loadData`, then (unless it threw) `updateStatistics`; when loading throws,
     * the lists it reached are replaced and the counters keep their old figures.
     */
    method Refresh(store: LocalStore) returns (ok: bool)
      modifies this`pending, this`approved, this`rejected, this`pendingCount, this`approvedCount, this`rejectedCount
      ensures ok <==> !store.pendingRegistrations.Garbled? && !store.approvedRegistrations.Garbled?
                      && !store.rejectedRegistrations.Garbled?
      ensures pending == if store.pendingRegistrations.Stored? then store.pendingRegistrations.items else old(pending)
      ensures approved == if !store.pendingRegistrations.Garbled? && store.approvedRegistrations.Stored?
                          then store.approvedRegistrations.items else old(approved)
      ensures rejected == if !store.pendingRegistrations.Garbled? && !store.approvedRegistrations.Garbled?
                             && store.rejectedRegistrations.Stored?
                          then store.rejectedRegistrations.items else old(rejected)
      ensures ok ==> CountersCurrent()
      ensures !ok ==> pendingCount == old(pendingCount) && approvedCount == old(approvedCount) && rejectedCount == old(rejectedCount)
    {
      ok := LoadData(store);
      if ok {
        UpdateStatistics();
      }
    }

    /** `showApprovalConfirmation`: selects the id for approval only when it is pending. */
    method ShowApprovalConfirmation(id: int)
      modifies this`currentAction, this`currentId
      ensures IndexOfId(pending, id) >= 0 ==> currentAction == Some(Approve) && currentId == Some(id)
      ensures IndexOfId(pending, id) == -1 ==> currentAction == old(currentAction) && currentId == old(currentId)
    {
      if IndexOfId(pending, id) == -1 {
        return;
      }
      currentAction := Some(Approve);
      currentId := Some(id);
    }

    /** `showRejectionConfirmation`: selects the id for rejection only when it is pending. */
    method ShowRejectionConfirmation(id: int)
      modifies this`currentAction, this`currentId
      ensures IndexOfId(pending, id) >= 0 ==> currentAction == Some(Reject) && currentId == Some(id)
      ensures IndexOfId(pending, id) == -1 ==> currentAction == old(currentAction) && currentId == old(currentId)
    {
      if IndexOfId(pending, id) == -1 {
        return;
      }
      currentAction := Some(Reject);
      currentId := Some(id);
    }

    /**
     * The approve branch of `executeAction` at position `i`: the record, marked approved, goes to the end of
     * the approved list and its credential to the end of the stored driver list, then it leaves the pending
     * list. When the driver list cannot be read, `JSON.parse` throws after the record was already marked and
     * appended, so the pending entry (the same object) shows the new status and nothing else happens.
     */
    method ApproveAt(store: LocalStore, i: nat, date: string) returns (ok: bool)
      requires i < |pending|
      modifies this`pending, this`approved, store`drivers
      ensures ok <==> !old(store.drivers).Garbled?
      ensures approved == old(approved) + [Processed(old(pending)[i], Approve, date)]
      ensures ok ==> pending == RemoveAt(old(pending), i)
      ensures ok ==> store.drivers == Stored(ReadList(old(store.drivers)).value + [Credential(approved[|approved| - 1])])
      ensures !ok ==> pending == old(pending)[i := Processed(old(pending)[i], Approve, date)]
      ensures !ok ==> store.drivers == old(store.drivers)
      ensures ok ==> |pending| + |approved| == old(|pending| + |approved|)
      ensures ok && old(AllWithStatus(pending, Pending) && AllWithStatus(approved, RegistrationStatus.Approved)) ==>
        AllWithStatus(pending, Pending) && AllWithStatus(approved, RegistrationStatus.Approved)
    {
      if AllWithStatus(pending, Pending) && AllWithStatus(approved, RegistrationStatus.Approved) {
        RemoveAtKeepsStatus(pending, i, Pending);
        AppendProcessedKeepsStatus(approved, pending[i], Approve, date);
      }
      var registration := Processed(pending[i], Approve, date);
      approved := approved + [registration];
      var existing := ReadList(store.drivers);
      if existing.None? {
        pending := pending[i := registration];
        return false;
      }
      store.drivers := Stored(existing.value + [Credential(registration)]);
      pending := RemoveAt(pending, i);
      return true;
    }

    /** The reject branch of `executeAction` at position `i`: the record, marked rejected, moves to the end of the rejected list. */
    method RejectAt(i: nat, date: string)
      requires i < |pending|
      modifies this`pending, this`rejected
      ensures rejected == old(rejected) + [Processed(old(pending)[i], Reject, date)]
      ensures pending == RemoveAt(old(pending), i)
      ensures old(AllWithStatus(pending, Pending) && AllWithStatus(rejected, RegistrationStatus.Rejected)) ==>
        AllWithStatus(pending, Pending) && AllWithStatus(rejected, RegistrationStatus.Rejected)
    {
      if AllWithStatus(pending, Pending) && AllWithStatus(rejected, RegistrationStatus.Rejected) {
        RemoveAtKeepsStatus(pending, i, Pending);
        AppendProcessedKeepsStatus(rejected, pending[i], Reject, date);
      }
      var registration := Processed(pending[i], Reject, date);
      rejected := rejected + [registration];
      pending := RemoveAt(pending, i);
    }

    /**
     * The body of `executeAction` once the selected record is found at position `i`: approve or reject
     * it, then save, recount and clear the selection; an approval that throws stops before saving.
     */
    method ActOn(store: LocalStore, i: nat, a: Action, date: string) returns (outcome: ActionOutcome)
      requires i < |pending|
      modifies this, store`pendingRegistrations, store`approvedRegistrations, store`rejectedRegistrations, store`drivers
      ensures outcome == Aborted <==> a == Approve && old(store.drivers).Garbled?
      ensures outcome != Aborted ==> outcome == Moved(a)
      ensures outcome == Aborted ==>
        var moved := Processed(old(pending)[i], Approve, date);
        && pending == old(pending)[i := moved]
        && approved == old(approved) + [moved]
        && rejected == old(rejected)
        && currentAction == old(currentAction) && currentId == old(currentId)
        && pendingCount == old(pendingCount) && approvedCount == old(approvedCount)
        && rejectedCount == old(rejectedCount)
        && unchanged(store)
      ensures outcome.Moved? ==>
        var moved := Processed(old(pending)[i], a, date);
        && pending == RemoveAt(old(pending), i)
        && approved == (if a == Approve then old(approved) + [moved] else old(approved))
        && rejected == (if a == Reject then old(rejected) + [moved] else old(rejected))
        && store.drivers ==
             (if a == Approve then Stored(ReadList(old(store.drivers)).value + [Credential(moved)])
              else old(store.drivers))
        && store.pendingRegistrations == Stored(pending)
        && store.approvedRegistrations == Stored(approved)
        && store.rejectedRegistrations == Stored(rejected)
        && currentAction == None && currentId == None
        && CountersCurrent()
      ensures outcome.Moved? ==> |pending| + |approved| + |rejected| == old(|pending| + |approved| + |rejected|)
      ensures outcome.Moved? ==> old(StatusesMatch()) ==> StatusesMatch()
    {
      if a == Approve {
        var ok := ApproveAt(store, i, date);
        if !ok {
          return Aborted;
        }
      } else {
        RejectAt(i, date);
      }
      outcome := Moved(a);
      SaveData(store);
      UpdateStatistics();
      currentAction := None;
      currentId := None;
    }

    /**
     * `executeAction`. The first pending record with the selected id leaves the pending list (the others
     * keep their order) and goes to the end of the approved or rejected list with its new status and date;
     * an approval also appends one credential to the stored driver list. Then everything is saved, the
     * counters are updated and the selection is cleared. Without an actionable selection nothing changes.
     * An approval whose driver list cannot be read throws midway (see ApproveAt); the selection stays.
     */
    method ExecuteAction(store: LocalStore, date: string) returns (outcome: ActionOutcome)
      modifies this, store`pendingRegistrations, store`approvedRegistrations, store`rejectedRegistrations, store`drivers
      ensures outcome == Ignored <==> !Actionable(old(currentAction), old(currentId), old(pending))
      ensures outcome == Aborted <==>
        Actionable(old(currentAction), old(currentId), old(pending)) && old(currentAction) == Some(Approve)
        && old(store.drivers).Garbled?
      ensures outcome == Ignored ==> unchanged(this) && unchanged(store)
      ensures outcome == Aborted ==>
        var i := IndexOfId(old(pending), old(currentId).value);
        var moved := Processed(old(pending)[i], Approve, date);
        && pending == old(pending)[i := moved]
        && approved == old(approved) + [moved]
        && rejected == old(rejected)
        && currentAction == old(currentAction) && currentId == old(currentId)
        && pendingCount == old(pendingCount) && approvedCount == old(approvedCount)
        && rejectedCount == old(rejectedCount)
        && unchanged(store)
      ensures outcome.Moved? ==>
        var i := IndexOfId(old(pending), old(currentId).value);
        var a := old(currentAction).value;
        var moved := Processed(old(pending)[i], a, date);
        && outcome.done == a
        && pending == RemoveAt(old(pending), i)
        && approved == (if a == Approve then old(approved) + [moved] else old(approved))
        && rejected == (if a == Reject then old(rejected) + [moved] else old(rejected))
        && store.drivers ==
             (if a == Approve then Stored(ReadList(old(store.drivers)).value + [Credential(moved)])
              else old(store.drivers))
        && store.pendingRegistrations == Stored(pending)
        && store.approvedRegistrations == Stored(approved)
        && store.rejectedRegistrations == Stored(rejected)
        && currentAction == None && currentId == None
        && CountersCurrent()
      ensures outcome.Moved? ==> |pending| + |approved| + |rejected| == old(|pending| + |approved| + |rejected|)
      ensures outcome.Moved? ==> old(StatusesMatch()) ==> StatusesMatch()
    {
      if currentAction.None? || currentId.None? || currentId.value == 0 {
        return Ignored;
      }
      var i := IndexOfId(pending, currentId.value);
      if i == -1 {
        return Ignored;
      }
      outcome := ActOn(store, i, currentAction.value, date);
    }

    /** `addSampleRegistration`: one pending sample record at the end of the queue; saved and counted. */
    method AddSampleRegistration(store: LocalStore, id: int, date: string)
      modifies this`pending, this`pendingCount, this`approvedCount, this`rejectedCount
      modifies store`pendingRegistrations, store`approvedRegistrations, store`rejectedRegistrations
      ensures pending == old(pending) + [SampleRegistration(id, date)]
      ensures store.pendingRegistrations == Stored(pending)
      ensures store.approvedRegistrations == Stored(approved)
      ensures store.rejectedRegistrations == Stored(rejected)
      ensures CountersCurrent()
      ensures old(StatusesMatch()) ==> StatusesMatch()
    {
      pending := pending + [SampleRegistration(id, date)];
      SaveData(store);
      UpdateStatistics();
    }
  }

  /** After a completed action the selection is empty, so pressing confirm again changes nothing. */
  lemma SecondConfirmIsIgnored(pending: seq<Registration>)
    ensures !Actionable(None, None, pending)
  {
  }
}

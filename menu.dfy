/**
 * The menu loop as a state machine over the store's value. Each pass reads
 * a menu choice and hands the answers the user gives to the chosen flow;
 * choice 6 ends the loop and any choice outside 1..6 changes nothing.
 */
module Menu {
  import opened Products
  import opened Inventory

  datatype Action = AddGeneral | AddElectronics | ViewAll | Update | Delete | Exit | Invalid

  /** The switch on the menu choice. */
  function Decode(choice: int): (a: Action)
    ensures a == AddGeneral <==> choice == 1
    ensures a == AddElectronics <==> choice == 2
    ensures a == ViewAll <==> choice == 3
    ensures a == Update <==> choice == 4
    ensures a == Delete <==> choice == 5
    ensures a == Exit <==> choice == 6
    ensures a == Invalid <==> choice < 1 || 6 < choice
  {
    if choice == 1 then AddGeneral
    else if choice == 2 then AddElectronics
    else if choice == 3 then ViewAll
    else if choice == 4 then Update
    else if choice == 5 then Delete
    else if choice == 6 then Exit
    else Invalid
  }

  /**
   * What the input helpers return during one pass of the loop: the ids tried
   * until a free one, the new record's fields, and the update or delete
   * target, sub-choice and new value. A flow reads only the answers it needs.
   */
  datatype Answers = Answers(
    ids: seq<int>, name: string, quantity: int, price: int, warranty: string,
    target: int, field: int, value: int)

  /** One pass of the loop: a menu choice and the answers that follow it. */
  datatype Entry = Entry(choice: int, answers: Answers)

  /**
   * The values that come from the integer and decimal input helpers, which
   * only return non-negative numbers. Menu choices and the update
   * sub-choice come from the choice reader, which returns any integer.
   */
  predicate WellFormed(e: Entry) {
    && (forall j :: 0 <= j < |e.answers.ids| ==> e.answers.ids[j] >= 0)
    && e.answers.quantity >= 0 && e.answers.price >= 0
    && e.answers.target >= 0 && e.answers.value >= 0
  }

  /** Running: the loop goes on; Exited: choice 6 ended it; WaitingForId: an add flow never got a free id. */
  datatype Status = Running | Exited | WaitingForId

  datatype StepResult = StepResult(store: seq<Record>, shown: seq<string>, status: Status)

  /** One pass of the menu loop on the store rs. */
  function Step(rs: seq<Record>, e: Entry): (r: StepResult)
    ensures (r.status == Exited) <==> e.choice == 6
    ensures r.status == WaitingForId ==> (e.choice == 1 || e.choice == 2) && r.store == rs
    ensures e.choice == 3 ==> r.shown == Listing(rs)
    ensures e.choice == 4 ==> r.shown == UpdatePreview(rs, e.answers.target)
    ensures e.choice != 3 && e.choice != 4 ==> r.shown == []
    ensures (e.choice < 1 || 3 == e.choice || 6 <= e.choice) ==> r.store == rs
    ensures (e.choice < 1 || 6 < e.choice) ==> r == StepResult(rs, [], Running)
  {
    var a := e.answers;
    match Decode(e.choice)
    case AddGeneral =>
      var status := if FirstFree(rs, a.ids) < |a.ids| then Running else WaitingForId;
      StepResult(AddFlow(rs, a.ids, a.name, a.quantity, a.price, General), [], status)
    case AddElectronics =>
      var status := if FirstFree(rs, a.ids) < |a.ids| then Running else WaitingForId;
      StepResult(AddFlow(rs, a.ids, a.name, a.quantity, a.price, Kind.Electronics(a.warranty)), [], status)
    case ViewAll => StepResult(rs, Listing(rs), Running)
    case Update => StepResult(UpdateFlow(rs, a.target, a.field, a.value).0, UpdatePreview(rs, a.target), Running)
    case Delete => StepResult(DeleteFlow(rs, a.target).0, [], Running)
    case Exit => StepResult(rs, [], Exited)
    case Invalid => StepResult(rs, [], Running)
  }

  /** Every pass keeps the store's invariant when the input helpers keep their promise. */
  lemma StepPreservesValid(rs: seq<Record>, e: Entry)
    requires Valid(rs) && WellFormed(e)
    ensures Valid(Step(rs, e).store)
  {
    var a := e.answers;
    match Decode(e.choice)
    case AddGeneral => AddFlowCorrect(rs, a.ids, a.name, a.quantity, a.price, General);
    case AddElectronics => AddFlowCorrect(rs, a.ids, a.name, a.quantity, a.price, Kind.Electronics(a.warranty));
    case _ =>
  }

  /** The store after a run, everything shown, how the run ended and how many passes it read. */
  datatype RunResult = RunResult(store: seq<Record>, shown: seq<string>, status: Status, consumed: nat)

  /** A run that has already read n passes and shown `shown` before continuing with r. */
  function After(shown: seq<string>, n: nat, r: RunResult): RunResult {
    RunResult(r.store, shown + r.shown, r.status, r.consumed + n)
  }

  /** The menu loop over a session: passes run in order until one exits or stalls, or input ends. */
  function RunFrom(rs: seq<Record>, session: seq<Entry>): RunResult
    decreases |session|
  {
    if session == [] then RunResult(rs, [], Running, 0)
    else
      var s := Step(rs, session[0]);
      if s.status != Running then RunResult(s.store, s.shown, s.status, 1)
      else After(s.shown, 1, RunFrom(s.store, session[1..]))
  }

  /** Running one more pass of a session that has already read n passes and shown `shown`. */
  lemma RunFromUnfold(rs: seq<Record>, session: seq<Entry>, shown: seq<string>, n: nat)
    requires session != []
    ensures var s := Step(rs, session[0]);
      After(shown, n, RunFrom(rs, session)) ==
        if s.status != Running then RunResult(s.store, shown + s.shown, s.status, n + 1)
        else After(shown + s.shown, n + 1, RunFrom(s.store, session[1..]))
  {
    var s := Step(rs, session[0]);
    if s.status == Running {
      var r := RunFrom(s.store, session[1..]);
      assert shown + (s.shown + r.shown) == (shown + s.shown) + r.shown;
    }
  }

  /** A whole session keeps the store's invariant. */
  lemma {:induction false} RunPreservesValid(rs: seq<Record>, session: seq<Entry>)
    requires Valid(rs)
    requires forall k :: 0 <= k < |session| ==> WellFormed(session[k])
    ensures Valid(RunFrom(rs, session).store)
    decreases |session|
  {
    if session != [] {
      StepPreservesValid(rs, session[0]);
      var s := Step(rs, session[0]);
      if s.status == Running {
        RunPreservesValid(s.store, session[1..]);
      }
    }
  }

  /**
   * The loop reads passes up to and including the first exit: a run ends
   * Exited exactly when the session holds choice 6 before any stall, after
   * reading that pass; a run still Running has read the whole session and
   * met no 6.
   */
  lemma {:induction false} RunStopsAtFirstExit(rs: seq<Record>, session: seq<Entry>)
    ensures var r := RunFrom(rs, session);
      && r.consumed <= |session|
      && (forall k :: 0 <= k < r.consumed - 1 ==> session[k].choice != 6)
      && (r.status == Exited ==> 1 <= r.consumed && session[r.consumed - 1].choice == 6)
      && (r.status == WaitingForId ==> 1 <= r.consumed && session[r.consumed - 1].choice in {1, 2})
      && (r.status == Running ==> r.consumed == |session| && forall k :: 0 <= k < |session| ==> session[k].choice != 6)
    decreases |session|
  {
    if session != [] {
      var s := Step(rs, session[0]);
      if s.status == Running {
        RunStopsAtFirstExit(s.store, session[1..]);
      }
    }
  }
}

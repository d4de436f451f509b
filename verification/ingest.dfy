/** The per-id fetch, transform and load step and the inclusive id-range scan
    around it, shared by the TV-show and movie services. The network is the
    oracle `fetch`; `plan` is the service's transform of a payload into write
    statements; `rejected` names the writes the database refuses. */
module Ingest {
  import opened Wrappers
  import opened Store
  import opened Execution
  import opened Records

  /** What the detail request for one id yields. */
  datatype Response<P> = NotFound | RequestError(message: string) | Found(payload: P)

  /** How the work for one id ended; the per-id catch tells a 404 apart from
      every other error. */
  datatype Outcome = Stored | Absent | Error(fault: Fault)

  datatype StepResult = StepResult(store: Store, outcome: Outcome)

  /** One id of the scan and how its work ended. */
  datatype Processed = Processed(id: int, outcome: Outcome)

  datatype ScanResult = ScanResult(store: Store, processed: seq<Processed>)

  /** Issue a record's statements and then throw its fault, if it has one. A
      refused write stops the record before the code reaches the field that
      throws, so its error is the one reported; either way the rows of the
      statements that ran stay, and the record counts as stored only when
      every statement ran and nothing was thrown. */
  function Load(plan: Plan, s: Store, rejected: Stmt -> bool): (r: StepResult)
    ensures r.store == Execute(plan.stmts, s, rejected).store
    ensures r.outcome.Stored? <==> Execute(plan.stmts, s, rejected).done == |plan.stmts| && plan.fault.None?
    ensures Execute(plan.stmts, s, rejected).fault.Some? ==>
      r.outcome == Error(Execute(plan.stmts, s, rejected).fault.value)
    ensures Execute(plan.stmts, s, rejected).done == |plan.stmts| && plan.fault.Some? ==>
      r.outcome == Error(plan.fault.value)
    ensures !r.outcome.Absent?
  {
    var e := Execute(plan.stmts, s, rejected);
    StepResult(e.store,
      if e.fault.Some? then Error(e.fault.value)
      else if plan.fault.Some? then Error(plan.fault.value)
      else Stored)
  }

  /** The body of the loop for one id, with its catch: a 404 and any other
      request error leave the store untouched; otherwise the record's writes
      run until the first error. */
  function Step<P>(fetch: int -> Response<P>, plan: P -> Plan, rejected: Stmt -> bool,
                   id: int, s: Store): (r: StepResult)
    ensures fetch(id).NotFound? ==> r == StepResult(s, Absent)
    ensures fetch(id).RequestError? ==> r == StepResult(s, Error(RequestFailed(fetch(id).message)))
    ensures r.outcome.Absent? <==> fetch(id).NotFound?
  {
    match fetch(id)
    case NotFound => StepResult(s, Absent)
    case RequestError(message) => StepResult(s, Error(RequestFailed(message)))
    case Found(p) => Load(plan(p), s, rejected)
  }

  /** One id never loses or changes a row and only appends videos. */
  lemma StepGrows<P>(fetch: int -> Response<P>, plan: P -> Plan, rejected: Stmt -> bool,
                     id: int, s: Store)
    ensures Grows(s, Step(fetch, plan, rejected, id, s).store)
  {
  }

  /** No transaction: whatever ends a record, the store it leaves is the store
      of running exactly the statements before the failing one, and each of
      those statements' effects is in place. */
  lemma StepKeepsEarlierWrites<P>(fetch: int -> Response<P>, plan: P -> Plan, rejected: Stmt -> bool,
                                  id: int, s: Store)
    requires fetch(id).Found?
    ensures var ss := plan(fetch(id).payload).stmts;
      var r := Step(fetch, plan, rejected, id, s);
      var done := Execute(ss, s, rejected).done;
      && Execute(ss[..done], s, rejected) == Executed(r.store, done, None)
      && (forall i :: 0 <= i < done ==> Holds(ss[i], r.store))
      && (r.outcome.Stored? ==> done == |ss|)
  {
    var ss := plan(fetch(id).payload).stmts;
    ExecuteKeepsPrefix(ss, s, rejected);
    ExecuteHoldsAll(ss, s, rejected);
  }

  /** A record that was stored in full has every statement's effect in place,
      and appended exactly the videos its statements carry. */
  lemma StoredHoldsAll<P>(fetch: int -> Response<P>, plan: P -> Plan, rejected: Stmt -> bool,
                          id: int, s: Store)
    requires Step(fetch, plan, rejected, id, s).outcome.Stored?
    ensures fetch(id).Found?
    ensures var ss := plan(fetch(id).payload).stmts;
      var r := Step(fetch, plan, rejected, id, s);
      && plan(fetch(id).payload).fault.None?
      && (forall st :: st in ss ==> Holds(st, r.store))
      && r.store.videos == s.videos + VideosOf(ss)
  {
    var ss := plan(fetch(id).payload).stmts;
    StepKeepsEarlierWrites(fetch, plan, rejected, id, s);
    assert ss[..|ss|] == ss;
  }

  /** A record can only change the store once its first statement has
      succeeded: when that is the main-row INSERT, nothing is written for an
      id whose main row already exists. */
  lemma StepWritesOnlyAfterFirst<P>(fetch: int -> Response<P>, plan: P -> Plan, rejected: Stmt -> bool,
                                    id: int, s: Store)
    requires Step(fetch, plan, rejected, id, s).store != s
    ensures fetch(id).Found?
    ensures var ss := plan(fetch(id).payload).stmts;
      |ss| > 0 && Apply(ss[0], s, rejected).Ok?
  {
  }

  /** A record's statements are in write order from an empty set of known rows. */
  ghost predicate WriteOrdered(plan: Plan)
  {
    ReadyFrom(plan.stmts, {})
  }

  /** A record whose statements are in write order keeps referential integrity. */
  lemma StepKeepsReferential<P>(fetch: int -> Response<P>, plan: P -> Plan, rejected: Stmt -> bool,
                                id: int, s: Store)
    requires Referential(s)
    requires forall p :: WriteOrdered(plan(p))
    ensures Referential(Step(fetch, plan, rejected, id, s).store)
  {
    match fetch(id)
    case Found(p) =>
      assert WriteOrdered(plan(p));
      ExecuteKeepsReferential(plan(p).stmts, s, rejected, {});
    case NotFound =>
    case RequestError(_) =>
  }

  /** The loop `for (id = startId; id <= endId; id++)` with a per-id catch:
      every id of the inclusive range is processed exactly once, in ascending
      order, whatever happened to the ids before it; an empty range processes
      nothing and leaves the store as it was. */
  function Scan<P>(fetch: int -> Response<P>, plan: P -> Plan, rejected: Stmt -> bool,
                   startId: int, endId: int, s: Store): (r: ScanResult)
    ensures |r.processed| == if startId <= endId then endId - startId + 1 else 0
    ensures forall i :: 0 <= i < |r.processed| ==> r.processed[i].id == startId + i
    ensures startId > endId ==> r.store == s
    decreases endId - startId
  {
    if startId > endId then ScanResult(s, [])
    else
      var first := Step(fetch, plan, rejected, startId, s);
      var rest := Scan(fetch, plan, rejected, startId + 1, endId, first.store);
      ScanResult(rest.store, [Processed(startId, first.outcome)] + rest.processed)
  }

  /** A scan never deletes a row, never changes an existing entity row, and
      only appends to `videos`. */
  lemma {:induction false} ScanGrows<P>(fetch: int -> Response<P>, plan: P -> Plan, rejected: Stmt -> bool,
                                        startId: int, endId: int, s: Store)
    ensures Grows(s, Scan(fetch, plan, rejected, startId, endId, s).store)
    decreases endId - startId
  {
    if startId <= endId {
      var first := Step(fetch, plan, rejected, startId, s);
      StepGrows(fetch, plan, rejected, startId, s);
      ScanGrows(fetch, plan, rejected, startId + 1, endId, first.store);
      GrowsTransitive(s, first.store, Scan(fetch, plan, rejected, startId + 1, endId, first.store).store);
    }
  }

  /** The store after processing the `n` ids starting at `startId`. */
  function StoreAfter<P>(fetch: int -> Response<P>, plan: P -> Plan, rejected: Stmt -> bool,
                         startId: int, n: nat, s: Store): Store
    decreases n
  {
    if n == 0 then s
    else StoreAfter(fetch, plan, rejected, startId + 1, n - 1, Step(fetch, plan, rejected, startId, s).store)
  }

  /** The id at position i of a range is processed on the store the ids
      before it left. */
  lemma {:induction false} ScanAt<P>(fetch: int -> Response<P>, plan: P -> Plan, rejected: Stmt -> bool,
                                     startId: int, endId: int, s: Store, i: nat)
    requires startId + i <= endId
    ensures Scan(fetch, plan, rejected, startId, endId, s).processed[i].outcome
         == Step(fetch, plan, rejected, startId + i, StoreAfter(fetch, plan, rejected, startId, i, s)).outcome
    decreases i
  {
    if i > 0 {
      var first := Step(fetch, plan, rejected, startId, s);
      var rest := Scan(fetch, plan, rejected, startId + 1, endId, first.store);
      ScanUnfold(fetch, plan, rejected, startId, endId, s);
      assert Scan(fetch, plan, rejected, startId, endId, s).processed[i] == rest.processed[i - 1];
      assert StoreAfter(fetch, plan, rejected, startId, i, s)
          == StoreAfter(fetch, plan, rejected, startId + 1, i - 1, first.store);
      ScanAt(fetch, plan, rejected, startId + 1, endId, first.store, i - 1);
    }
  }

  /** Failure isolation: every id of the range is processed, on exactly the
      store the ids before it left, so an earlier id's error neither skips it
      nor alters how it is handled; the scan ends on the store all of them
      left. */
  lemma ScanThreadsStore<P>(fetch: int -> Response<P>, plan: P -> Plan,
                            rejected: Stmt -> bool, startId: int, endId: int, s: Store)
    ensures var r := Scan(fetch, plan, rejected, startId, endId, s);
      forall i :: 0 <= i < |r.processed| ==>
        r.processed[i].outcome
          == Step(fetch, plan, rejected, startId + i, StoreAfter(fetch, plan, rejected, startId, i, s)).outcome
    ensures var r := Scan(fetch, plan, rejected, startId, endId, s);
      r.store == StoreAfter(fetch, plan, rejected, startId, |r.processed|, s)
  {
    var r := Scan(fetch, plan, rejected, startId, endId, s);
    forall i | 0 <= i < |r.processed|
      ensures r.processed[i].outcome
          == Step(fetch, plan, rejected, startId + i, StoreAfter(fetch, plan, rejected, startId, i, s)).outcome
    {
      ScanAt(fetch, plan, rejected, startId, endId, s, i);
    }
    ScanEndStore(fetch, plan, rejected, startId, endId, s);
  }

  lemma {:induction false} ScanEndStore<P>(fetch: int -> Response<P>, plan: P -> Plan,
                                           rejected: Stmt -> bool, startId: int, endId: int, s: Store)
    ensures var r := Scan(fetch, plan, rejected, startId, endId, s);
      r.store == StoreAfter(fetch, plan, rejected, startId, |r.processed|, s)
    decreases endId - startId
  {
    if startId <= endId {
      var first := Step(fetch, plan, rejected, startId, s);
      ScanEndStore(fetch, plan, rejected, startId + 1, endId, first.store);
    }
  }

  /** One iteration of the scan. */
  lemma ScanUnfold<P>(fetch: int -> Response<P>, plan: P -> Plan, rejected: Stmt -> bool,
                      id: int, endId: int, s: Store)
    requires id <= endId
    ensures var step := Step(fetch, plan, rejected, id, s);
      var rest := Scan(fetch, plan, rejected, id + 1, endId, step.store);
      Scan(fetch, plan, rejected, id, endId, s)
        == ScanResult(rest.store, [Processed(id, step.outcome)] + rest.processed)
  {
  }

  /** A scan whose records are all in write order keeps referential integrity. */
  lemma {:induction false} ScanKeepsReferential<P>(fetch: int -> Response<P>, plan: P -> Plan,
                                                   rejected: Stmt -> bool, startId: int, endId: int, s: Store)
    requires forall p :: WriteOrdered(plan(p))
    ensures Referential(s) ==> Referential(Scan(fetch, plan, rejected, startId, endId, s).store)
    decreases endId - startId
  {
    if startId <= endId && Referential(s) {
      StepKeepsReferential(fetch, plan, rejected, startId, s);
      var first := Step(fetch, plan, rejected, startId, s);
      ScanKeepsReferential(fetch, plan, rejected, startId + 1, endId, first.store);
    }
  }

  /** Processing one more id of the loop keeps the scan's result in reach:
      the ids already done followed by the rest of the range. */
  lemma ScanAdvance<P>(fetch: int -> Response<P>, plan: P -> Plan, rejected: Stmt -> bool,
                       startId: int, endId: int, s: Store, id: int, store: Store, processed: seq<Processed>)
    requires id <= endId
    requires var tail := Scan(fetch, plan, rejected, id, endId, store);
      Scan(fetch, plan, rejected, startId, endId, s) == ScanResult(tail.store, processed + tail.processed)
    ensures var step := Step(fetch, plan, rejected, id, store);
      var tail := Scan(fetch, plan, rejected, id + 1, endId, step.store);
      Scan(fetch, plan, rejected, startId, endId, s)
        == ScanResult(tail.store, (processed + [Processed(id, step.outcome)]) + tail.processed)
  {
    var step := Step(fetch, plan, rejected, id, store);
    ScanUnfold(fetch, plan, rejected, id, endId, store);
    var rest := Scan(fetch, plan, rejected, id + 1, endId, step.store);
    assert processed + ([Processed(id, step.outcome)] + rest.processed)
        == (processed + [Processed(id, step.outcome)]) + rest.processed;
  }

  /** The scan as the source writes it, a counting loop over the range; it
      computes exactly the fold `Scan`. */
  method RunScan<P>(fetch: int -> Response<P>, plan: P -> Plan, rejected: Stmt -> bool,
                    startId: int, endId: int, s: Store) returns (r: ScanResult)
    ensures r == Scan(fetch, plan, rejected, startId, endId, s)
  {
    var store := s;
    var processed: seq<Processed> := [];
    var id := startId;
    while id <= endId
      invariant var tail := Scan(fetch, plan, rejected, id, endId, store);
        Scan(fetch, plan, rejected, startId, endId, s) == ScanResult(tail.store, processed + tail.processed)
      decreases endId - id
    {
      var step := Step(fetch, plan, rejected, id, store);
      ScanAdvance(fetch, plan, rejected, startId, endId, s, id, store, processed);
      processed := processed + [Processed(id, step.outcome)];
      store := step.store;
      id := id + 1;
    }
    assert processed + [] == processed;
    r := ScanResult(store, processed);
  }
}

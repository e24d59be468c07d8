/** What the rows of a pass over gates say, and what is left in the store (minifleet/gates.py, GateRunner.run). */
module GateRows {
  import opened Gates
  import opened Model

  /** The status a gate reports, given what was measured before it and what looking at it gave. */
  ghost predicate Tells(g: Gate, measured: Metrics, o: Observation, status: Status) {
    match g.kind
    case Command => status == o.status
    case Files => status == o.status
    case Json => status == o.status
    case UnknownKind => status == Error
    case Budget =>
      if g.metric !in measured then status == Error
      else status == if Meets(measured[g.metric], g.op, g.threshold) then Pass else Fail
  }

  ghost predicate Publishes(gs: seq<Gate>, observe: nat -> Observation, j: nat, m: string)
    requires j < |gs|
  {
    gs[j].kind == Command && m in observe(j).published
  }

  /** Of the first k gates, the one at position j published m last. */
  ghost predicate LastPublisher(gs: seq<Gate>, observe: nat -> Observation, k: nat, m: string, j: nat)
    requires k <= |gs|
  {
    j < k && Publishes(gs, observe, j, m) && forall i :: j < i < k ==> !Publishes(gs, observe, i, m)
  }

  /** measured is what is known before the k-th gate: what commands published, the latest value of each metric, and
      what was known before the pass. */
  ghost predicate Known(gs: seq<Gate>, store: Metrics, observe: nat -> Observation, k: nat, measured: Metrics)
    requires k <= |gs|
  {
    forall m :: KnownOf(gs, store, observe, k, m, measured)
  }

  ghost predicate KnownOf(gs: seq<Gate>, store: Metrics, observe: nat -> Observation, k: nat, m: string,
                          measured: Metrics)
    requires k <= |gs|
  {
    && (forall j: nat :: LastPublisher(gs, observe, k, m, j) ==>
          m in measured && measured[m] == observe(j).published[m])
    && ((forall j: nat :: j < k ==> !Publishes(gs, observe, j, m)) ==>
          (m in measured <==> m in store) && (m in store ==> measured[m] == store[m]))
  }

  lemma {:induction false} StoreIsKnown(gs: seq<Gate>, store: Metrics, observe: nat -> Observation, k: nat)
    requires k <= |gs|
    ensures Known(gs, store, observe, k, StoreAt(gs, store, observe, k))
  {
    if k > 0 {
      StoreIsKnown(gs, store, observe, k - 1);
      forall m ensures KnownOf(gs, store, observe, k, m, StoreAt(gs, store, observe, k)) {
        NextKnown(gs, store, observe, k, m);
      }
    }
  }

  lemma NextKnown(gs: seq<Gate>, store: Metrics, observe: nat -> Observation, k: nat, m: string)
    requires 0 < k <= |gs| && KnownOf(gs, store, observe, k - 1, m, StoreAt(gs, store, observe, k - 1))
    ensures KnownOf(gs, store, observe, k, m, StoreAt(gs, store, observe, k))
  {
    assert StoreAt(gs, store, observe, k) == StoreAfter(gs[k - 1], StoreAt(gs, store, observe, k - 1), observe(k - 1));
    if Publishes(gs, observe, k - 1, m) {
      forall j: nat | LastPublisher(gs, observe, k, m, j) ensures j == k - 1 {
      }
    } else {
      forall j: nat | LastPublisher(gs, observe, k, m, j) ensures LastPublisher(gs, observe, k - 1, m, j) {
      }
      SameBefore(gs, store, observe, k, m);
    }
  }

  lemma SameBefore(gs: seq<Gate>, store: Metrics, observe: nat -> Observation, k: nat, m: string)
    requires 0 < k <= |gs| && !Publishes(gs, observe, k - 1, m)
    ensures var now, before := StoreAt(gs, store, observe, k), StoreAt(gs, store, observe, k - 1);
            (m in now <==> m in before) && (m in before ==> now[m] == before[m])
  {
  }

  /** One row for each gate, in order, and each tells what its gate reports. */
  ghost predicate RowsOf(gs: seq<Gate>, store: Metrics, observe: nat -> Observation, taskId: string,
                         rows: seq<Evidence>) {
    && |rows| == |gs|
    && forall k :: 0 <= k < |gs| ==> RowOf(gs, store, observe, taskId, rows, k)
  }

  ghost predicate RowOf(gs: seq<Gate>, store: Metrics, observe: nat -> Observation, taskId: string,
                        rows: seq<Evidence>, k: nat)
    requires k < |rows| == |gs|
  {
    && rows[k].gateId == gs[k].id && rows[k].taskId == taskId
    && exists measured :: Known(gs, store, observe, k, measured) && Tells(gs[k], measured, observe(k), rows[k].status)
  }

  lemma PassRows(gs: seq<Gate>, store: Metrics, observe: nat -> Observation, taskId: string)
    ensures RowsOf(gs, store, observe, taskId, EvidenceOf(gs, store, observe, taskId))
  {
    var rows := EvidenceOf(gs, store, observe, taskId);
    forall k | 0 <= k < |gs| ensures RowOf(gs, store, observe, taskId, rows, k) {
      var measured := StoreAt(gs, store, observe, k);
      EvidenceAt(gs, store, observe, taskId, |gs|, k);
      StoreIsKnown(gs, store, observe, k);
      if gs[k].kind == Budget && gs[k].metric in measured {
        CompareIsMeets(measured[gs[k].metric], gs[k].op, gs[k].threshold);
      }
      assert Tells(gs[k], measured, observe(k), rows[k].status);
    }
  }
}

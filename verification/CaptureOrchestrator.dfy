/**
 Which displays are being captured.  Starting a display may fail; `open` says, display by display,
 what the capture backend, the encoder and the connection would answer during one call.
 */
module CaptureOrchestrator {
  import opened Wrappers

  type DisplayId = nat
  type Handle = int
  type Running = map<DisplayId, Handle>
  type Backend = DisplayId -> Option<Handle>

  datatype OrchestratorError = CannotStart(id: DisplayId)

  predicate Blocked(running: Running, open: Backend, id: DisplayId) {
    id !in running && open(id).None?
  }

  /** The position of the first display that can be neither started nor found running; the length if there is none. */
  function FirstFailure(running: Running, ids: seq<DisplayId>, open: Backend): (k: nat)
    ensures k <= |ids|
  {
    if ids == [] || Blocked(running, open, ids[0]) then 0
    else 1 + FirstFailure(running, ids[1..], open)
  }

  /** `running` with all the displays of `ids` that were not running, freshly opened. */
  function Joined(running: Running, ids: seq<DisplayId>, open: Backend): Running
    requires forall id :: id in ids ==> !Blocked(running, open, id)
  {
    map id | id in running.Keys + (set i | i in ids) ::
      if id in running then running[id]
      else
        assert !Blocked(running, open, id);
        open(id).value
  }

  lemma {:induction false} FirstFailureIsFirst(running: Running, ids: seq<DisplayId>, open: Backend)
    ensures var k := FirstFailure(running, ids, open);
            && (forall i :: 0 <= i < k ==> !Blocked(running, open, ids[i]))
            && (k < |ids| ==> Blocked(running, open, ids[k]))
  {
    if ids != [] && !Blocked(running, open, ids[0]) {
      FirstFailureIsFirst(running, ids[1..], open);
    }
  }

  /** One display more: it joins unless it is there already. */
  lemma {:induction false} JoinedOneMore(running: Running, ids: seq<DisplayId>, k: nat, open: Backend)
    requires k < |ids| && k < FirstFailure(running, ids, open)
    ensures forall id :: id in ids[..k + 1] ==> !Blocked(running, open, id)
    ensures var j := Joined(running, ids[..k], open);
            Joined(running, ids[..k + 1], open)
            == if ids[k] in j || open(ids[k]).None? then j else j[ids[k] := open(ids[k]).value]
  {
    FirstFailureIsFirst(running, ids, open);
    assert ids[..k + 1] == ids[..k] + [ids[k]];
  }

  /** Taking the newcomers out again leaves what was there. */
  lemma {:induction false} UndoJoin(running: Running, ids: seq<DisplayId>, open: Backend, started: seq<DisplayId>)
    requires forall id :: id in ids ==> !Blocked(running, open, id)
    requires forall id :: id in started <==> id in ids && id !in running
    ensures Joined(running, ids, open) - (set i | i in started) == running
  {
  }

  class CaptureOrchestrator {
    var pipelines: Running

    constructor ()
      ensures pipelines == map[]
    {
      pipelines := map[];
    }

    method StartDisplayInner(id: DisplayId, open: Backend) returns (r: Result<(), OrchestratorError>)
      modifies this
      ensures r == (if Blocked(old(pipelines), open, id) then Err(CannotStart(id)) else Ok(()))
      ensures r.Ok? <==> id in old(pipelines) || open(id).Some?
      ensures pipelines == if id in old(pipelines) || open(id).None? then old(pipelines)
                           else old(pipelines)[id := open(id).value]
    {
      if id in pipelines {
        return Ok(());
      }
      var handle := open(id);
      if handle.None? {
        return Err(CannotStart(id));
      }
      pipelines := pipelines[id := handle.value];
      return Ok(());
    }

    method StopDisplay(id: DisplayId)
      modifies this
      ensures pipelines == old(pipelines) - {id}
    {
      pipelines := pipelines - {id};
    }

    method StopEach(ids: seq<DisplayId>)
      modifies this
      ensures pipelines == old(pipelines) - (set i | i in ids)
    {
      for k := 0 to |ids|
        invariant pipelines == old(pipelines) - (set i | i in ids[..k])
      {
        assert ids[..k + 1] == ids[..k] + [ids[k]];
        StopDisplay(ids[k]);
      }
      assert ids[..|ids|] == ids;
    }

    /** All or nothing: every display joins, or the running set is exactly what it was, handles included. */
    method Subscribe(ids: seq<DisplayId>, open: Backend) returns (r: Result<(), OrchestratorError>)
      modifies this
      ensures r.Ok? <==> forall id :: id in ids ==> !Blocked(old(pipelines), open, id)
      ensures pipelines == if r.Ok? then Joined(old(pipelines), ids, open) else old(pipelines)
      ensures r.Err? ==> var k := FirstFailure(old(pipelines), ids, open);
                         k < |ids| && r.error == CannotStart(ids[k])
    {
      var started: seq<DisplayId> := [];
      ghost var before, stop := pipelines, FirstFailure(pipelines, ids, open);
      FirstFailureIsFirst(before, ids, open);
      for k := 0 to |ids|
        invariant k <= stop
        invariant forall id :: id in ids[..k] ==> !Blocked(before, open, id)
        invariant pipelines == Joined(before, ids[..k], open)
        invariant forall id :: id in started <==> id in ids[..k] && id !in before
      {
        var id := ids[k];
        assert ids[..k + 1] == ids[..k] + [id];
        if k < stop {
          JoinedOneMore(before, ids, k, open);
        }
        if id in pipelines {
          continue;
        }
        var one := StartDisplayInner(id, open);
        if one.Err? {
          UndoJoin(before, ids[..k], open, started);
          StopEach(started);
          return one;
        }
        started := started + [id];
      }
      assert ids[..|ids|] == ids;
      return Ok(());
    }

    /**
     The start-up variant: on failure it stops every display of the list before the failing one, running before or not.
     */
    method StartMultiDisplay(ids: seq<DisplayId>, open: Backend) returns (r: Result<(), OrchestratorError>)
      modifies this
      ensures r.Ok? <==> forall id :: id in ids ==> !Blocked(old(pipelines), open, id)
      ensures pipelines == if r.Ok? then Joined(old(pipelines), ids, open)
                           else AfterRollback(old(pipelines), ids, open)
    {
      ghost var before, stop := pipelines, FirstFailure(pipelines, ids, open);
      FirstFailureIsFirst(before, ids, open);
      var started: seq<DisplayId> := [];
      for k := 0 to |ids|
        invariant k <= stop && started == ids[..k]
        invariant forall id :: id in ids[..k] ==> !Blocked(before, open, id)
        invariant pipelines == Joined(before, ids[..k], open)
      {
        assert ids[..k + 1] == ids[..k] + [ids[k]];
        if k < stop {
          JoinedOneMore(before, ids, k, open);
        }
        var one := StartDisplayInner(ids[k], open);
        if one.Err? {
          assert k == stop;
          StopEach(started);
          return one;
        }
        started := started + [ids[k]];
      }
      assert ids[..|ids|] == ids;
      return Ok(());
    }

    /** Stops whatever runs. */
    method Stop()
      modifies this
      ensures pipelines == map[]
    {
      var ids := pipelines.Keys;
      while ids != {}
        invariant pipelines.Keys == ids
      {
        var id :| id in ids;
        StopDisplay(id);
        ids := ids - {id};
      }
    }

    method Unsubscribe(ids: seq<DisplayId>)
      modifies this
      ensures pipelines == old(pipelines) - (set i | i in ids)
    {
      StopEach(ids);
    }
  }

  function AfterRollback(running: Running, ids: seq<DisplayId>, open: Backend): Running {
    running - (set i | i in ids[..FirstFailure(running, ids, open)])
  }

  /** A rolled-back display is gone; every other one that was running still is, with its handle. */
  lemma {:induction false} RollbackStopsListed(running: Running, ids: seq<DisplayId>, open: Backend, id: DisplayId)
    ensures var k, after := FirstFailure(running, ids, open), AfterRollback(running, ids, open);
            && (id in after <==> id in running && forall i :: 0 <= i < k ==> ids[i] != id)
            && (id in after ==> after[id] == running[id])
  {
    var k := FirstFailure(running, ids, open);
    if i :| 0 <= i < k && ids[i] == id {
      assert ids[..k][i] == id;
    }
  }

  /** The start-up variant is all or nothing exactly when no display before the failing one was running already. */
  lemma {:induction false} RollbackRestoresIff(running: Running, ids: seq<DisplayId>, open: Backend)
    ensures AfterRollback(running, ids, open) == running
            <==> forall i :: 0 <= i < FirstFailure(running, ids, open) ==> ids[i] !in running
  {
    var k := FirstFailure(running, ids, open);
    var after := AfterRollback(running, ids, open);
    if i :| 0 <= i < k && ids[i] in running {
      assert ids[i] in ids[..k];
      assert ids[i] !in after;
    }
  }
}

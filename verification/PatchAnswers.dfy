/**
 What patch requests are answered under concurrency: success exactly when the history holds the patch,
 and an error exactly for its reason, whatever else goes on.
 */
module PatchAnswers {
  import opened Wrappers
  import opened Sensors
  import opened Patching
  import Model = StoreModel
  import opened PatchProtocol
  import opened Service

  // ---- answers and effects -----------------------------------------------------------------------

  /** Where in the history a request took effect. */
  function Effects(s: Sys, request: nat): set<nat> {
    set i: nat | i < |s.served| && s.served[i].Patched? && s.served[i].request == request
  }

  /** An entry of the history that is a patch is that of a request that was answered with success. */
  predicate EntryInv(s: Sys, call: Served) {
    call.Patched? ==>
      && call.request in s.requests
      && var q := s.requests[call.request];
         q.stage == Finished(Ok(())) && call.id == q.id && call.expected == q.expected && call.ops == q.ops
  }

  ghost predicate AnswerInv(s: Sys) {
    && (forall i | 0 <= i < |s.served| :: EntryInv(s, s.served[i]))
    && (forall i, j | 0 <= i < j < |s.served| && s.served[i].Patched? && s.served[j].Patched? ::
          s.served[i].request != s.served[j].request)
    && (forall request | request in s.requests && s.requests[request].stage == Finished(Ok(())) ::
          exists i :: 0 <= i < |s.served| && s.served[i].Patched? && s.served[i].request == request)
  }

  /** A request, once it has begun, keeps what it asks for, and one that has its answer keeps the answer. */
  lemma RequestKept(s: Sys, t: Sys, a: Action, request: nat)
    requires Do(s, a) == Some(t) && request in s.requests
    ensures request in t.requests
    ensures var q, after := s.requests[request], t.requests[request];
            after.id == q.id && after.expected == q.expected && after.ops == q.ops
            && (q.stage.Finished? ==> after.stage == q.stage)
  {
    hide PatchInfo, Touched;
  }

  /** Only releasing the lock answers with success, and only that writes a patch into the history. */
  lemma OnlyReleaseServes(s: Sys, t: Sys, a: Action)
    requires Do(s, a) == Some(t)
    ensures s.served <= t.served && |t.served| <= |s.served| + 1
    ensures |t.served| > |s.served| && t.served[|s.served|].Patched? ==>
              a.Release? && t.served[|s.served|].request == a.request && EntryInv(t, t.served[|s.served|])
              && a.request in s.requests && s.requests[a.request].stage.Writing?
    ensures forall request | request in t.requests && t.requests[request].stage == Finished(Ok(())) ::
              || (request in s.requests && s.requests[request].stage == Finished(Ok(())))
              || (|t.served| > |s.served| && t.served[|s.served|].Patched? && t.served[|s.served|].request == request)
  {
    hide PatchInfo, Touched;
  }

  lemma StepKeepsAnswers(s: Sys, t: Sys, a: Action)
    requires AnswerInv(s) && Do(s, a) == Some(t)
    ensures AnswerInv(t)
  {
    hide Do;
    OnlyReleaseServes(s, t, a);
    var n := |s.served|;
    assert forall i | 0 <= i < n :: t.served[i] == s.served[i];
    forall i | 0 <= i < |t.served|
      ensures EntryInv(t, t.served[i])
    {
      if i < n && t.served[i].Patched? {
        assert EntryInv(s, s.served[i]);
        RequestKept(s, t, a, s.served[i].request);
      }
    }
    forall i, j | 0 <= i < j < |t.served| && t.served[i].Patched? && t.served[j].Patched?
      ensures t.served[i].request != t.served[j].request
    {
      assert EntryInv(s, s.served[i]);
    }
    forall request | request in t.requests && t.requests[request].stage == Finished(Ok(()))
      ensures exists i :: 0 <= i < |t.served| && t.served[i].Patched? && t.served[i].request == request
    {
      if request in s.requests && s.requests[request].stage == Finished(Ok(())) {
        var i :| 0 <= i < n && s.served[i].Patched? && s.served[i].request == request;
        assert t.served[i].request == request;
      }
    }
  }

  lemma {:induction false} RunKeepsAnswers(s: Sys, actions: seq<Action>)
    requires AnswerInv(s) && Run(s, actions).Some?
    ensures AnswerInv(Run(s, actions).value)
    decreases |actions|
  {
    hide Do, AnswerInv;
    if actions != [] {
      var next := Do(s, actions[0]).value;
      StepKeepsAnswers(s, next, actions[0]);
      RunKeepsAnswers(next, actions[1..]);
    }
  }

  /**
   Over every run a request is answered with success exactly when it took effect, which is then once and
   as it asked for; one that was refused, or has no answer yet, took none.
   */
  lemma AnswersAreTrue(actions: seq<Action>, request: nat)
    requires Run(INITIAL, actions).Some?
    requires request in Run(INITIAL, actions).value.requests
    ensures var s := Run(INITIAL, actions).value;
            var q, effects := s.requests[request], Effects(s, request);
            && (q.stage == Finished(Ok(())) <==> |effects| == 1)
            && (q.stage != Finished(Ok(())) <==> effects == {})
            && forall i | i in effects ::
                 s.served[i].id == q.id && s.served[i].expected == q.expected && s.served[i].ops == q.ops
  {
    hide Run;
    assert AnswerInv(INITIAL);
    RunKeepsAnswers(INITIAL, actions);
    var s := Run(INITIAL, actions).value;
    var q, effects := s.requests[request], Effects(s, request);
    forall i | i in effects
      ensures EntryInv(s, s.served[i]) && effects == {i}
    {
      assert forall j | j in effects :: j == i;
    }
    if q.stage == Finished(Ok(())) {
      var i :| 0 <= i < |s.served| && s.served[i].Patched? && s.served[i].request == request;
      assert i in effects;
    } else {
      assert effects == {};
    }
  }

  // ---- the reasons of errors -------------------------------------------------------------------------

  /**
   The step that gives a request its answer. One that had computed its update is told that the sensor is
   gone exactly when it is, and of a version mismatch exactly when the version stored is not the one named;
   one still reading is rejected exactly for what its view and its operations say; a writer succeeds.
   */
  lemma AnswersTellWhy(s: Sys, t: Sys, a: Action, request: nat)
    requires Inv(s) && Do(s, a) == Some(t)
    requires request in s.requests && !s.requests[request].stage.Finished?
    requires request in t.requests && t.requests[request].stage.Finished?
    ensures var q, result := s.requests[request], t.requests[request].stage.result;
            && (q.stage.Ready? ==>
                  && result.Err?
                  && (result == Err(Storage(NotFound)) <==> q.id !in Contents(s))
                  && (result == Err(Storage(VersionMismatch)) <==>
                        q.id in Contents(s) && Contents(s)[q.id].info.resourceVersion != q.expected)
                  && (result == Err(Storage(NotFound)) || result == Err(Storage(VersionMismatch))))
            && (q.stage.Reading? ==>
                  COLUMNS <= q.stage.seen && PatchInfo(q.stage.view, q.ops).Err?
                  && result == Err(Rejected(PatchInfo(q.stage.view, q.ops).error)))
            && (q.stage.Writing? ==> result == Ok(()) && a.Release?)
  {
    hide PatchInfo, Touched, Respects, HistoryInv, RequestsInv;
    assert a.Acquire? && s.requests[request].stage.Ready? ==> s.lock.None?;
  }

  /** A request that may go on is not turned away: its update is written exactly when sensor and version are there. */
  lemma AcquireIsGranted(s: Sys, t: Sys, request: nat)
    requires Inv(s) && Do(s, Acquire(request)) == Some(t)
    ensures var q := s.requests[request];
            t.lock == Some(request) <==> q.id in Contents(s) && Contents(s)[q.id].info.resourceVersion == q.expected
  {
    hide PatchInfo, Touched, Respects, HistoryInv, RequestsInv;
  }

  // ---- nobody is turned away or waits for ever ------------------------------------------------------

  /** A request that has no answer yet can go on, or someone else has the lock and can. */
  lemma RequestsGoOn(s: Sys, request: nat, column: Column, now: int, version: string)
    requires Inv(s) && request in s.requests && !s.requests[request].stage.Finished?
    requires version !in s.used
    ensures var stage := s.requests[request].stage;
            && (stage.Reading? ==> Do(s, ReadColumn(request, column)).Some?)
            && (stage.Reading? && COLUMNS <= stage.seen ==> Do(s, Compute(request)).Some?)
            && (stage.Ready? && s.lock.None? ==> Do(s, Acquire(request)).Some?)
            && (stage.Writing? && column in stage.todo ==> Do(s, WriteColumn(request, column)).Some?)
            && (stage.Writing? && stage.todo == {} ==> Do(s, Release(request, now, version)).Some?)
    ensures s.lock.Some? ==> s.lock.value in s.requests && s.requests[s.lock.value].stage.Writing?
  {
    hide Inv, Do;
    ReaderGoesOn(s, request, column);
    WriterMayGoOn(s, request, column, now, version);
  }

  lemma ReaderGoesOn(s: Sys, request: nat, column: Column)
    requires Inv(s) && request in s.requests
    ensures var stage := s.requests[request].stage;
            && (stage.Reading? ==> Do(s, ReadColumn(request, column)).Some?)
            && (stage.Reading? && COLUMNS <= stage.seen ==> Do(s, Compute(request)).Some?)
            && (stage.Ready? && s.lock.None? ==> Do(s, Acquire(request)).Some?)
  {
    hide PatchInfo, Touched, HistoryInv, SetColumn, LockInv, NamesOwnRecord, Settled, VersionsDiffer;
    assert RequestInv(s, s.requests[request]);
  }

  lemma WriterMayGoOn(s: Sys, request: nat, column: Column, now: int, version: string)
    requires Inv(s) && request in s.requests && version !in s.used
    ensures var stage := s.requests[request].stage;
            && (stage.Writing? && column in stage.todo ==> Do(s, WriteColumn(request, column)).Some?)
            && (stage.Writing? && stage.todo == {} ==> Do(s, Release(request, now, version)).Some?)
    ensures s.lock.Some? ==> s.lock.value in s.requests && s.requests[s.lock.value].stage.Writing?
  {
    hide PatchInfo, Touched, HistoryInv, SetColumn, RequestsInv, HeapInv, Overlay;
  }

  /** With the lock free every other call is served exactly when it would succeed on the contents alone. */
  lemma CallsAreServed(s: Sys, ref: Ref, sensor: SensorInfo, id: string, data: map<string, string>, now: int)
    requires Inv(s) && s.lock.None? && ref !in s.heap && sensor.resourceVersion !in s.used
    ensures Do(s, Register(ref, sensor)).Some? <==> Model.Register(Contents(s), sensor).Ok?
    ensures Do(s, Delete(id)).Some? <==> id in Contents(s)
    ensures Do(s, Report(id, data, now)).Some? <==> id in Contents(s)
  {
    hide PatchInfo, Touched, HistoryInv, RequestsInv, Model.NewState;
    SameIds(s);
    if !NameInUse(s, sensor) {
      NameIsFree(s, sensor);
    } else {
      var other :| other in s.sensors && s.sensors[other] in s.heap
                   && Model.SameName(s.heap[s.sensors[other]].info, sensor);
      assert Contents(s)[other] == s.heap[s.sensors[other]];
    }
  }

  /** A patch request begins exactly when it names a sensor that is there and has operations. */
  lemma BeginIsGranted(s: Sys, request: nat, id: string, expected: string, ops: seq<PatchOperation>)
    requires Inv(s) && s.lock.None? && request !in s.requests
    ensures Do(s, Begin(request, id, expected, ops)).Some? <==> id != "" && ops != [] && id in Contents(s)
  {
    hide PatchInfo, Touched, HistoryInv, RequestsInv;
    SameIds(s);
  }
}

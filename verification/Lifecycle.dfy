/** Admission, release and audit of agent requests, over every interleaving of their steps. */
module Lifecycle {
  import opened Tokens

  // ---------- The two shared objects ----------

  class AgentRuntime {
    const limit: nat
    var active: int
    ghost var audits: nat

    constructor (limit: nat)
      ensures this.limit == limit && active == 0 && audits == 0
    {
      this.limit := limit;
      active, audits := 0, 0;
    }

    method Admit() returns (ok: bool)
      modifies this`active
      ensures ok <==> old(active) < limit
      ensures active == if ok then old(active) + 1 else old(active)
    {
      if active >= limit {
        return false;
      }
      active := active + 1;
      return true;
    }

    method Release()
      modifies this`active
      ensures active == old(active) - 1
    {
      active := active - 1;
    }

    /** Writing the audit event may fail; the attempt counts. */
    method Audit(fails: bool) returns (ok: bool)
      modifies this`audits
      ensures audits == old(audits) + 1 && ok == !fails
    {
      audits := audits + 1;
      ok := !fails;
    }
  }

  class StreamLifecycle {
    const runtime: AgentRuntime
    var finished: bool

    constructor (runtime: AgentRuntime)
      ensures this.runtime == runtime && !finished
    {
      this.runtime := runtime;
      finished := false;
    }

    /** The first call audits and releases, whether or not the audit can be written; later calls do nothing. */
    method Finish(auditFails: bool)
      modifies this`finished, runtime`active, runtime`audits
      ensures finished
      ensures runtime.audits == old(runtime.audits) + (if old(finished) then 0 else 1)
      ensures runtime.active == old(runtime.active) - (if old(finished) then 0 else 1)
    {
      if finished {
        return;
      }
      finished := true;
      var _ := runtime.Audit(auditFails);
      runtime.Release();
    }
  }

  // ---------- One request's control flow ----------

  /** Where a request stands between two suspensions. */
  datatype Phase = Arrived | Preparing | Completing | Answered | Handed | Streaming | Closing | Over

  /** The flags of the request handler and its stream's lifecycle, and what has been done on its behalf. */
  datatype Control = Control(
    phase: Phase,
    admitted: bool,
    handedStream: bool,
    runtimeAudits: bool,
    finished: bool,
    audits: nat,
    releases: nat
  )

  const ARRIVED := Control(Arrived, false, false, false, false, 0, 0)

  datatype Event =
    | Fail          // a rejection, an error or a cancellation at a suspension point
    | Admission     // the handler asks for a place
    | Buffered      // the buffered exchange begins; from here the runtime writes the audit
    | Exchanged     // the buffered exchange is over, well or badly, and audited
    | Returned      // its answer is returned
    | Stream        // a streaming response is handed to the server
    | Iterate       // the server begins to iterate it
    | Ended         // the iteration ends: exhausted, failed, or cancelled
    | Disconnect    // the response object is closed: before, during or after iteration

  /** The handler's except clauses: they audit unless the runtime does. */
  function Excepted(c: Control): Control { if c.runtimeAudits then c else c.(audits := c.audits + 1) }

  /** The handler's finally clause: a place is given back unless a stream owns it. */
  function Finally(c: Control): Control {
    if c.admitted && !c.handedStream then c.(releases := c.releases + 1) else c
  }

  /** The lifecycle's finish: once. */
  function Finished(c: Control): Control {
    if c.finished then c else c.(finished := true, audits := c.audits + 1, releases := c.releases + 1)
  }

  /** One step of a request; None when the event cannot happen to it there. */
  function Advance(c: Control, e: Event, room: bool): Option<Control> {
    match (c.phase, e)
    case (Arrived, Fail) => Some(Finally(Excepted(c)).(phase := Over))
    case (Arrived, Admission) =>
      if room then Some(c.(admitted := true, phase := Preparing)) else Some(Finally(Excepted(c)).(phase := Over))
    case (Preparing, Fail) => Some(Finally(Excepted(c)).(phase := Over))
    case (Preparing, Buffered) => Some(c.(runtimeAudits := true, phase := Completing))
    case (Preparing, Stream) => Some(Finally(c.(handedStream := true)).(phase := Handed))
    case (Completing, Exchanged) => Some(c.(audits := c.audits + 1, phase := Answered))
    case (Answered, Returned) => Some(Finally(c).(phase := Over))
    case (Answered, Fail) => Some(Finally(Excepted(c)).(phase := Over))
    case (Handed, Iterate) => Some(c.(phase := Streaming))
    case (Handed, Disconnect) => Some(Finished(c).(phase := Over))
    case (Streaming, Ended) => Some(Finished(c).(phase := Closing))
    case (Streaming, Disconnect) => Some(Finished(Finished(c)).(phase := Over))
    case (Closing, Disconnect) => Some(Finished(c).(phase := Over))
    case _ => None
  }

  /** The step as the code takes it, on the shared objects: admitting, auditing, releasing, finishing. */
  method Take(runtime: AgentRuntime, lifecycle: StreamLifecycle, c: Control, e: Event, auditFails: bool) returns (d: Option<Control>)
    requires ControlOk(c) && lifecycle.runtime == runtime && lifecycle.finished == c.finished
    modifies runtime`active, runtime`audits, lifecycle`finished
    ensures d == Advance(c, e, old(runtime.active) < runtime.limit)
    ensures d.None? ==> runtime.active == old(runtime.active) && runtime.audits == old(runtime.audits)
    ensures d.Some? ==>
              && runtime.active == old(runtime.active) + (if d.value.admitted && !c.admitted then 1 else 0) - (d.value.releases - c.releases)
              && runtime.audits == old(runtime.audits) + (d.value.audits - c.audits)
              && lifecycle.finished == d.value.finished
  {
    d := Advance(c, e, runtime.active < runtime.limit);
    if d.None? {
      return;
    }
    if e.Admission? {
      var ok := runtime.Admit();
      if !ok {
        Unwind(runtime, c, auditFails);
      }
    } else if e.Fail? {
      Unwind(runtime, c, auditFails);
    } else if e.Exchanged? {
      var _ := runtime.Audit(auditFails);
    } else if e.Returned? {
      if c.admitted && !c.handedStream {
        runtime.Release();
      }
    } else if e.Ended? {
      lifecycle.Finish(auditFails);
    } else if e.Disconnect? {
      if c.phase.Streaming? {
        lifecycle.Finish(auditFails);
      }
      lifecycle.Finish(auditFails);
    }
  }

  /** The handler's except and finally clauses. */
  method Unwind(runtime: AgentRuntime, c: Control, auditFails: bool)
    modifies runtime`active, runtime`audits
    ensures runtime.active == old(runtime.active) - (Finally(Excepted(c)).releases - c.releases)
    ensures runtime.audits == old(runtime.audits) + (Finally(Excepted(c)).audits - c.audits)
  {
    if !c.runtimeAudits {
      var _ := runtime.Audit(auditFails);
    }
    if c.admitted && !c.handedStream {
      runtime.Release();
    }
  }

  /** The request holds one of the places. */
  predicate Holds(c: Control) { c.admitted && c.releases == 0 }

  /** Exactly what each phase means for the flags, the audits and the releases. */
  predicate ControlOk(c: Control) {
    match c.phase
    case Arrived => c == ARRIVED
    case Preparing => c == ARRIVED.(phase := Preparing, admitted := true)
    case Completing => c == ARRIVED.(phase := Completing, admitted := true, runtimeAudits := true)
    case Answered => c == ARRIVED.(phase := Answered, admitted := true, runtimeAudits := true, audits := 1)
    case Handed => c == ARRIVED.(phase := Handed, admitted := true, handedStream := true)
    case Streaming => c == ARRIVED.(phase := Streaming, admitted := true, handedStream := true)
    case Closing => c == Control(Closing, true, true, false, true, 1, 1)
    case Over => c.audits == 1 && c.releases == if c.admitted then 1 else 0
  }

  lemma AdvanceKeeps(c: Control, e: Event, room: bool)
    requires ControlOk(c) && Advance(c, e, room).Some?
    ensures var d := Advance(c, e, room).value;
            && ControlOk(d)
            && (Holds(d) && !Holds(c) ==> room)
            && (d.admitted && !c.admitted) == (Holds(d) && !Holds(c))
            && d.releases - c.releases == (if Holds(c) && !Holds(d) then 1 else 0)
  {
  }

  /** How many steps a request can still take. */
  function Remaining(p: Phase): nat {
    match p
    case Arrived => 5
    case Preparing => 4
    case Completing => 2
    case Answered => 1
    case Handed => 3
    case Streaming => 2
    case Closing => 1
    case Over => 0
  }

  /** Whatever happens to a request, it is over after finitely many steps; it is never stuck before. */
  lemma AlwaysEnds(c: Control, e: Event, room: bool)
    requires ControlOk(c)
    ensures Advance(c, e, room).Some? ==> Remaining(Advance(c, e, room).value.phase) < Remaining(c.phase)
    ensures c.phase.Over? <==> forall f: Event :: Advance(c, f, room).None?
  {
    var exits := [Fail, Exchanged, Disconnect];
    assert !c.phase.Over? ==>
             Advance(c, exits[0], room).Some? || Advance(c, exits[1], room).Some? || Advance(c, exits[2], room).Some?;
  }

  // ---------- Many requests ----------

  datatype System = System(active: int, limit: nat, controls: map<nat, Control>)

  function ControlOf(s: System, id: nat): Control { if id in s.controls then s.controls[id] else ARRIVED }

  /** One request takes one step; the counter changes only as its code admits and releases. */
  function Apply(s: System, id: nat, e: Event): System {
    var c := ControlOf(s, id);
    match Advance(c, e, s.active < s.limit)
    case None => s
    case Some(d) =>
      System(s.active + (if d.admitted && !c.admitted then 1 else 0) - (d.releases - c.releases), s.limit, s.controls[id := d])
  }

  function Holders(controls: map<nat, Control>): set<nat> { set id | id in controls && Holds(controls[id]) }

  /** The counter is exactly the number of admitted requests that have not been released, and within the limit. */
  ghost predicate SystemOk(s: System) {
    && (forall id | id in s.controls :: ControlOk(s.controls[id]))
    && s.active == |Holders(s.controls)|
    && 0 <= s.active <= s.limit
  }

  lemma HoldersChange(controls: map<nat, Control>, id: nat, d: Control)
    ensures var before := id in controls && Holds(controls[id]);
            |Holders(controls[id := d])| == |Holders(controls)| + (if Holds(d) then 1 else 0) - (if before then 1 else 0)
  {
    hide Holds;
    var after := controls[id := d];
    forall k
      ensures k in Holders(after) <==> if k == id then Holds(d) else k in Holders(controls)
    {
    }
    hide Holders;
    assert Holders(after) == if Holds(d) then Holders(controls) + {id} else Holders(controls) - {id};
    assert id in Holders(controls) <==> id in controls && Holds(controls[id]) by { HolderIs(controls, id); }
  }

  lemma HolderIs(controls: map<nat, Control>, id: nat)
    ensures id in Holders(controls) <==> id in controls && Holds(controls[id])
  {
  }

  lemma ApplyKeeps(s: System, id: nat, e: Event)
    requires SystemOk(s)
    ensures SystemOk(Apply(s, id, e))
  {
    var c := ControlOf(s, id);
    var r := Advance(c, e, s.active < s.limit);
    if r.Some? {
      AdvanceKeeps(c, e, s.active < s.limit);
      HoldersChange(s.controls, id, r.value);
      hide Advance, ControlOk, Holders;
    }
  }

  datatype Action = Action(id: nat, event: Event)

  function Run(s: System, trace: seq<Action>): System
    decreases |trace|
  {
    if trace == [] then s else Run(Apply(s, trace[0].id, trace[0].event), trace[1..])
  }

  lemma {:induction false} RunKeeps(s: System, trace: seq<Action>)
    requires SystemOk(s)
    ensures SystemOk(Run(s, trace))
    decreases |trace|
  {
    hide Apply, SystemOk;
    if trace != [] {
      ApplyKeeps(s, trace[0].id, trace[0].event);
      RunKeeps(Apply(s, trace[0].id, trace[0].event), trace[1..]);
    }
  }

  /** From an idle gateway, after any interleaving: the counter is right, and every request that is over was audited
      exactly once and, if it was ever admitted, released exactly once. */
  lemma EveryInterleaving(limit: nat, trace: seq<Action>, id: nat)
    ensures var s := Run(System(0, limit, map[]), trace);
            && s.active == |Holders(s.controls)| && 0 <= s.active <= s.limit
            && (id in s.controls && s.controls[id].phase.Over? ==>
                  s.controls[id].audits == 1 && s.controls[id].releases == if s.controls[id].admitted then 1 else 0)
            && (id in s.controls ==> s.controls[id].audits <= 1 && s.controls[id].releases <= 1)
  {
    var start := System(0, limit, map[]);
    assert Holders(start.controls) == {};
    RunKeeps(start, trace);
    var s := Run(start, trace);
    if id in s.controls {
      assert ControlOk(s.controls[id]);
    }
  }

  /** When everything is over, every place is free again. */
  lemma NothingLeaks(limit: nat, trace: seq<Action>)
    ensures var s := Run(System(0, limit, map[]), trace);
            (forall id | id in s.controls :: s.controls[id].phase.Over?) ==> s.active == 0
  {
    var start := System(0, limit, map[]);
    assert Holders(start.controls) == {};
    RunKeeps(start, trace);
    var s := Run(start, trace);
    if forall id | id in s.controls :: s.controls[id].phase.Over? {
      forall id | id in s.controls
        ensures !Holds(s.controls[id])
      {
        assert ControlOk(s.controls[id]);
      }
      assert Holders(s.controls) == {};
    }
  }
}

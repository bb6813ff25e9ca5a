/**
 The runtime manager: which adapter process serves each configured item. Every locked section is one
 step, and steps of different goroutines may come in any order. A process is known by its number,
 which stands for its `done` channel.
 */
module Manager {
  import opened Wrappers

  /** A configured item; `settings` is the rest of its configuration. */
  datatype Item = Item(id: string, protocol: string, enabled: bool, settings: string)

  datatype Status = Disabled | NoAdapter(protocol: string) | Starting | Running(detail: string) | Failing(detail: string)

  /** Live until the adapter returns; Failed from its error until the manager has noted it. */
  datatype Phase = Live | Failed(detail: string) | Finished

  datatype Process = Process(item: Item, cancelled: bool, phase: Phase)

  datatype State = State(processes: seq<Process>, running: map<string, nat>, statuses: map<string, Status>)

  const START: State := State([], map[], map[])

  // ----- the locked sections -------------------------------------------------------------------

  function Desired(items: seq<Item>): map<string, Item> {
    if items == [] then map[]
    else Desired(items[..|items| - 1])[items[|items| - 1].id := items[|items| - 1]]
  }

  /** The process that `running` holds for an item keeps running: its configuration has not changed. */
  predicate Kept(s: State, desired: map<string, Item>, id: string) {
    id in s.running && s.running[id] < |s.processes| && id in desired && desired[id] == s.processes[s.running[id]].item
  }

  predicate IsRunning(s: State, p: nat)
    requires p < |s.processes|
  {
    s.processes[p].item.id in s.running && s.running[s.processes[p].item.id] == p
  }

  function Stopped(s: State, desired: map<string, Item>): seq<Process> {
    seq(|s.processes|, p requires 0 <= p < |s.processes| =>
      if IsRunning(s, p) && !Kept(s, desired, s.processes[p].item.id) then s.processes[p].(cancelled := true) else s.processes[p])
  }

  /** First half of Apply: processes that are no longer wanted as they are, and statuses without an item, go. */
  function ApplyBegin(s: State, items: seq<Item>): State {
    var desired := Desired(items);
    State(Stopped(s, desired),
          map id | id in s.running && Kept(s, desired, id) :: s.running[id],
          map id | id in s.statuses && id in desired :: s.statuses[id])
  }

  function StartOne(s: State, item: Item, factories: set<string>): State {
    if item.id in s.running then s
    else if !item.enabled then s.(statuses := s.statuses[item.id := Disabled])
    else if item.protocol !in factories then s.(statuses := s.statuses[item.id := NoAdapter(item.protocol)])
    else State(s.processes + [Process(item, false, Live)], s.running[item.id := |s.processes|], s.statuses[item.id := Starting])
  }

  /** Second half of Apply: what is wanted and not running is started. */
  function ApplyEnd(s: State, items: seq<Item>, factories: set<string>): State
    decreases |items|
  {
    if items == [] then s else ApplyEnd(StartOne(s, items[0], factories), items[1..], factories)
  }

  function Close(s: State): State {
    s.(processes := Stopped(s, map[]), running := map[])
  }

  function SetStatus(s: State, p: nat, detail: string): State
    requires p < |s.processes|
  {
    if IsRunning(s, p) then s.(statuses := s.statuses[s.processes[p].item.id := Running(detail)]) else s
  }

  /** The adapter returns, with an error that is not a cancellation or without. */
  function Return(s: State, p: nat, error: Option<string>): State
    requires p < |s.processes|
  {
    if s.processes[p].phase != Live then s
    else s.(processes := s.processes[p := s.processes[p].(phase := if error.Some? then Failed(error.value) else Finished)])
  }

  /** The manager notes a process's error. */
  function Report(s: State, p: nat): State
    requires p < |s.processes|
  {
    var process := s.processes[p];
    if !process.phase.Failed? then s
    else
      var finished := s.processes[p := process.(phase := Finished)];
      if IsRunning(s, p) then
        State(finished, s.running - {process.item.id}, s.statuses[process.item.id := Failing(process.phase.detail)])
      else s.(processes := finished)
  }

  /** Stopping half done: `ids` are still to be looked at. */
  ghost function Visited(s: State, desired: map<string, Item>, ids: set<string>): seq<Process> {
    seq(|s.processes|, p requires 0 <= p < |s.processes| =>
      if IsRunning(s, p) && s.processes[p].item.id !in ids && !Kept(s, desired, s.processes[p].item.id)
      then s.processes[p].(cancelled := true) else s.processes[p])
  }

  ghost function Remaining(s: State, desired: map<string, Item>, ids: set<string>): map<string, nat> {
    map id | id in s.running && (id in ids || Kept(s, desired, id)) :: s.running[id]
  }

  lemma NothingVisited(s: State, desired: map<string, Item>)
    ensures Visited(s, desired, s.running.Keys) == s.processes && Remaining(s, desired, s.running.Keys) == s.running
  {
  }

  lemma AllVisited(s: State, desired: map<string, Item>)
    ensures Visited(s, desired, {}) == Stopped(s, desired)
    ensures Remaining(s, desired, {}) == map id | id in s.running && Kept(s, desired, id) :: s.running[id]
  {
  }

  lemma VisitOne(s: State, desired: map<string, Item>, ids: set<string>, id: string, factories: set<string>)
    requires Sound(s, factories) && id in ids && ids <= s.running.Keys
    ensures var (p, before, rest) := (s.running[id], Visited(s, desired, ids), Visited(s, desired, ids - {id}));
            && id in Remaining(s, desired, ids) && Remaining(s, desired, ids)[id] == p < |before|
            && (Kept(s, desired, id) <==> id in desired && desired[id] == before[p].item)
            && (Kept(s, desired, id) ==> rest == before && Remaining(s, desired, ids - {id}) == Remaining(s, desired, ids))
            && (!Kept(s, desired, id) ==>
                && rest == before[p := before[p].(cancelled := true)]
                && Remaining(s, desired, ids - {id}) == Remaining(s, desired, ids) - {id})
  {
    assert IsRunning(s, s.running[id]);
  }

  // ----- the manager object --------------------------------------------------------------------

  class Controller {
    const factories: set<string>
    var processes: seq<Process>
    var running: map<string, nat>
    var statuses: map<string, Status>

    ghost function View(): State
      reads this
    {
      State(processes, running, statuses)
    }

    constructor (factories: set<string>)
      ensures this.factories == factories && View() == START
    {
      this.factories := factories;
      processes, running, statuses := [], map[], map[];
    }

    method Cancel(p: nat)
      requires p < |processes|
      modifies this`processes
      ensures processes == old(processes)[p := old(processes)[p].(cancelled := true)]
    {
      processes := processes[p := processes[p].(cancelled := true)];
    }

    /** The running processes one by one, in no particular order. */
    method StopUnwanted(desired: map<string, Item>)
      requires Sound(View(), factories)
      modifies this`processes, this`running
      ensures processes == Stopped(old(View()), desired)
      ensures running == map id | id in old(running) && Kept(old(View()), desired, id) :: old(running)[id]
    {
      hide Kept, Stopped;
      ghost var s := View();
      NothingVisited(s, desired);
      var ids := running.Keys;
      while ids != {}
        invariant ids <= s.running.Keys && |processes| == |s.processes|
        invariant processes == Visited(s, desired, ids) && running == Remaining(s, desired, ids)
        decreases |ids|
      {
        var id :| id in ids;
        VisitOne(s, desired, ids, id, factories);
        var p := running[id];
        ids := ids - {id};
        if !(id in desired && desired[id] == processes[p].item) {
          Cancel(p);
          running := running - {id};
        }
      }
      AllVisited(s, desired);
    }

    method BeginApply(items: seq<Item>)
      requires Sound(View(), factories)
      modifies this
      ensures View() == ApplyBegin(old(View()), items)
    {
      var desired: map<string, Item> := map[];
      for i := 0 to |items|
        invariant desired == Desired(items[..i]) && unchanged(this)
      {
        assert items[..i + 1][..i] == items[..i];
        desired := desired[items[i].id := items[i]];
      }
      assert items[..|items|] == items;
      StopUnwanted(desired);
      statuses := map id | id in statuses && id in desired :: statuses[id];
    }

    method EndApply(items: seq<Item>)
      modifies this
      ensures View() == ApplyEnd(old(View()), items, factories)
    {
      for i := 0 to |items|
        invariant ApplyEnd(View(), items[i..], factories) == ApplyEnd(old(View()), items, factories)
      {
        var item := items[i];
        assert items[i..][0] == item && items[i..][1..] == items[i + 1..];
        if item.id !in running {
          if !item.enabled {
            statuses := statuses[item.id := Disabled];
          } else if item.protocol !in factories {
            statuses := statuses[item.id := NoAdapter(item.protocol)];
          } else {
            running := running[item.id := |processes|];
            statuses := statuses[item.id := Starting];
            processes := processes + [Process(item, false, Live)];
          }
        }
      }
    }

    method CloseAll()
      requires Sound(View(), factories)
      modifies this
      ensures View() == Close(old(View()))
    {
      StopUnwanted(map[]);
      running := map[];
    }

    method ChangeStatus(p: nat, detail: string)
      requires p < |processes|
      modifies this`statuses
      ensures View() == SetStatus(old(View()), p, detail)
    {
      var id := processes[p].item.id;
      if id in running && running[id] == p {
        statuses := statuses[id := Running(detail)];
      }
    }

    method NoteFailure(p: nat)
      requires p < |processes| && processes[p].phase.Failed?
      modifies this
      ensures View() == Report(old(View()), p)
    {
      var process := processes[p];
      var id := process.item.id;
      if id in running && running[id] == p {
        statuses := statuses[id := Failing(process.phase.detail)];
        running := running - {id};
      }
      processes := processes[p := process.(phase := Finished)];
    }
  }

  // ----- every interleaving --------------------------------------------------------------------

  datatype Op =
    | BeginOp(items: seq<Item>)
    | EndOp(items: seq<Item>)
    | CloseOp
    | StatusOp(process: nat, detail: string)
    | ReturnOp(process: nat, error: Option<string>)
    | ReportOp(process: nat)

  predicate Enabled(s: State, op: Op) {
    op.StatusOp? || op.ReturnOp? || op.ReportOp? ==> op.process < |s.processes|
  }

  function Step(s: State, op: Op, factories: set<string>): State
    requires Enabled(s, op)
  {
    match op
    case BeginOp(items) => ApplyBegin(s, items)
    case EndOp(items) => ApplyEnd(s, items, factories)
    case CloseOp => Close(s)
    case StatusOp(p, detail) => SetStatus(s, p, detail)
    case ReturnOp(p, error) => Return(s, p, error)
    case ReportOp(p) => Report(s, p)
  }

  /** A step of a process that does not exist yet does nothing. */
  function Run(s: State, ops: seq<Op>, factories: set<string>): State
    decreases |ops|
  {
    if ops == [] then s
    else Run(if Enabled(s, ops[0]) then Step(s, ops[0], factories) else s, ops[1..], factories)
  }

  /** What every step keeps. */
  predicate Sound(s: State, factories: set<string>) {
    && (forall id :: id in s.running ==>
        && s.running[id] < |s.processes| && id in s.statuses
        && var process := s.processes[s.running[id]];
           process.item.id == id && !process.cancelled && process.item.enabled && process.item.protocol in factories)
    && (forall p :: 0 <= p < |s.processes| && !s.processes[p].cancelled && s.processes[p].phase != Finished ==> IsRunning(s, p))
  }

  lemma StartSound(s: State, item: Item, factories: set<string>)
    requires Sound(s, factories)
    ensures Sound(StartOne(s, item, factories), factories)
  {
  }

  lemma {:induction false} EndSound(s: State, items: seq<Item>, factories: set<string>)
    requires Sound(s, factories)
    ensures Sound(ApplyEnd(s, items, factories), factories)
    decreases |items|
  {
    hide Sound, StartOne;
    if items != [] {
      StartSound(s, items[0], factories);
      EndSound(StartOne(s, items[0], factories), items[1..], factories);
    }
  }

  lemma BeginSound(s: State, items: seq<Item>, factories: set<string>)
    requires Sound(s, factories)
    ensures Sound(ApplyBegin(s, items), factories)
  {
    hide Desired;
  }

  lemma CloseSound(s: State, factories: set<string>)
    requires Sound(s, factories)
    ensures Sound(Close(s), factories)
  {
  }

  lemma StepSound(s: State, op: Op, factories: set<string>)
    requires Sound(s, factories) && Enabled(s, op)
    ensures Sound(Step(s, op, factories), factories)
  {
    hide Desired;
    match op
    case BeginOp(items) => BeginSound(s, items, factories);
    case EndOp(items) => EndSound(s, items, factories);
    case CloseOp => CloseSound(s, factories);
    case StatusOp(_, _) =>
    case ReturnOp(_, _) =>
    case ReportOp(_) =>
  }

  lemma {:induction false} RunSound(s: State, ops: seq<Op>, factories: set<string>)
    requires Sound(s, factories)
    ensures Sound(Run(s, ops, factories), factories)
    decreases |ops|
  {
    hide Sound, Step;
    if ops != [] {
      if Enabled(s, ops[0]) {
        StepSound(s, ops[0], factories);
        RunSound(Step(s, ops[0], factories), ops[1..], factories);
      } else {
        RunSound(s, ops[1..], factories);
      }
    }
  }

  /** In every interleaving: an item has at most one process that is neither cancelled nor returned, and `running` holds it. */
  lemma OneProcessPerItem(ops: seq<Op>, factories: set<string>, p: nat, q: nat)
    requires var s := Run(START, ops, factories);
             && p < |s.processes| && q < |s.processes| && s.processes[p].item.id == s.processes[q].item.id
             && !s.processes[p].cancelled && s.processes[p].phase == Live
             && !s.processes[q].cancelled && s.processes[q].phase == Live
    ensures p == q && IsRunning(Run(START, ops, factories), p)
  {
    hide Run;
    StartIsSound(factories);
    RunSound(START, ops, factories);
    var s := Run(START, ops, factories);
    assert IsRunning(s, p) && IsRunning(s, q);
  }

  lemma StartIsSound(factories: set<string>)
    ensures Sound(START, factories)
  {
  }

  // ----- superseded processes ------------------------------------------------------------------

  predicate Superseded(s: State, p: nat) {
    p < |s.processes| && !IsRunning(s, p)
  }

  lemma {:induction false} EndSupersedes(s: State, items: seq<Item>, factories: set<string>, p: nat)
    requires Superseded(s, p)
    ensures Superseded(ApplyEnd(s, items, factories), p)
    decreases |items|
  {
    if items != [] {
      EndSupersedes(StartOne(s, items[0], factories), items[1..], factories, p);
    }
  }

  lemma StepSupersedes(s: State, op: Op, factories: set<string>, p: nat)
    requires Superseded(s, p) && Enabled(s, op)
    ensures Superseded(Step(s, op, factories), p)
  {
    hide Desired;
    match op
    case BeginOp(items) =>
    case EndOp(items) => EndSupersedes(s, items, factories, p);
    case CloseOp =>
    case StatusOp(_, _) =>
    case ReturnOp(_, _) =>
    case ReportOp(_) =>
  }

  lemma {:induction false} StaysSuperseded(s: State, ops: seq<Op>, factories: set<string>, p: nat)
    requires Superseded(s, p)
    ensures Superseded(Run(s, ops, factories), p)
    decreases |ops|
  {
    hide Superseded, Step;
    if ops != [] {
      if Enabled(s, ops[0]) {
        StepSupersedes(s, ops[0], factories, p);
        StaysSuperseded(Step(s, ops[0], factories), ops[1..], factories, p);
      } else {
        StaysSuperseded(s, ops[1..], factories, p);
      }
    }
  }

  /** Once superseded, always: after any further steps, nothing the process does changes a status or what runs. */
  lemma SupersededIsSilent(s: State, ops: seq<Op>, factories: set<string>, p: nat, detail: string,
                        error: Option<string>)
    requires Superseded(s, p)
    ensures var later := Run(s, ops, factories);
            && p < |later.processes| && SetStatus(later, p, detail) == later
            && Report(later, p).statuses == later.statuses && Report(later, p).running == later.running
            && Return(later, p, error).statuses == later.statuses && Return(later, p, error).running == later.running
  {
    hide Run;
    StaysSuperseded(s, ops, factories, p);
  }

  // ----- the process in the map ----------------------------------------------------------------

  /** What the process that serves an item says is shown for that item and for no other; its error also ends its service. */
  lemma HolderIsHeard(s: State, factories: set<string>, id: string, detail: string)
    requires Sound(s, factories) && id in s.running
    ensures var p := s.running[id];
            && p < |s.processes|
            && SetStatus(s, p, detail) == State(s.processes, s.running, s.statuses[id := Running(detail)])
            && (s.processes[p].phase == Failed(detail) ==>
                && Report(s, p).statuses == s.statuses[id := Failing(detail)] && Report(s, p).running == s.running - {id}
                && Report(s, p).processes == s.processes[p := Process(s.processes[p].item, s.processes[p].cancelled, Finished)])
            && (s.processes[p].phase == Live ==>
                && Return(s, p, Some(detail)).statuses == Return(s, p, None).statuses == s.statuses
                && Report(Return(s, p, Some(detail)), p).statuses == s.statuses[id := Failing(detail)]
                && Report(Return(s, p, None), p) == Return(s, p, None))
  {
  }

  /** The last thing that a process said in a run, if anything; `said` is what it had said before. */
  function LastWord(s: State, ops: seq<Op>, factories: set<string>, p: nat, said: Option<string>): Option<string>
    decreases |ops|
  {
    if ops == [] then said
    else
      LastWord(if Enabled(s, ops[0]) then Step(s, ops[0], factories) else s, ops[1..], factories, p,
               if p < |s.processes| && ops[0].StatusOp? && ops[0].process == p then Some(ops[0].detail) else said)
  }

  function Shown(said: Option<string>): Status {
    if said.None? then Starting else Running(said.value)
  }

  /** While a process serves its item, its last word is what is shown. */
  predicate Says(s: State, p: nat, said: Option<string>) {
    if p < |s.processes| then
      IsRunning(s, p) ==> s.processes[p].item.id in s.statuses && s.statuses[s.processes[p].item.id] == Shown(said)
    else said.None?
  }

  lemma StartSays(s: State, item: Item, factories: set<string>, p: nat, said: Option<string>)
    requires Sound(s, factories) && Says(s, p, said)
    ensures Says(StartOne(s, item, factories), p, said)
  {
  }

  lemma {:induction false} EndSays(s: State, items: seq<Item>, factories: set<string>, p: nat, said: Option<string>)
    requires Sound(s, factories) && Says(s, p, said)
    ensures Says(ApplyEnd(s, items, factories), p, said)
    decreases |items|
  {
    hide Sound, Says, StartOne;
    if items != [] {
      StartSays(s, items[0], factories, p, said);
      StartSound(s, items[0], factories);
      EndSays(StartOne(s, items[0], factories), items[1..], factories, p, said);
    }
  }

  lemma StepSays(s: State, op: Op, factories: set<string>, p: nat, said: Option<string>)
    requires Sound(s, factories) && Says(s, p, said) && Enabled(s, op)
    ensures Says(Step(s, op, factories), p, if p < |s.processes| && op.StatusOp? && op.process == p then Some(op.detail) else said)
  {
    hide Desired;
    match op
    case BeginOp(items) =>
    case EndOp(items) => EndSays(s, items, factories, p, said);
    case CloseOp =>
    case StatusOp(_, _) =>
    case ReturnOp(_, _) =>
    case ReportOp(_) =>
  }

  lemma {:induction false} RunSays(s: State, ops: seq<Op>, factories: set<string>, p: nat, said: Option<string>)
    requires Sound(s, factories) && Says(s, p, said)
    ensures Says(Run(s, ops, factories), p, LastWord(s, ops, factories, p, said))
    decreases |ops|
  {
    hide Sound, Says, Step;
    if ops != [] {
      var next := if Enabled(s, ops[0]) then Step(s, ops[0], factories) else s;
      if Enabled(s, ops[0]) {
        StepSound(s, ops[0], factories);
        StepSays(s, ops[0], factories, p, said);
      }
      RunSays(next, ops[1..], factories, p,
              if p < |s.processes| && ops[0].StatusOp? && ops[0].process == p then Some(ops[0].detail) else said);
    }
  }

  /** In every interleaving: an item that is served shows the last word of the process that serves it, or that it is starting. */
  lemma ShownIsLastWord(ops: seq<Op>, factories: set<string>, id: string)
    requires id in Run(START, ops, factories).running
    ensures var s := Run(START, ops, factories);
            && s.running[id] < |s.processes| && s.processes[s.running[id]].item.id == id && id in s.statuses
            && s.statuses[id] == Shown(LastWord(START, ops, factories, s.running[id], None))
  {
    hide Run, LastWord;
    StartIsSound(factories);
    RunSound(START, ops, factories);
    RunSays(START, ops, factories, Run(START, ops, factories).running[id], None);
  }

  // ----- one Apply -----------------------------------------------------------------------------

  predicate Wanted(items: seq<Item>, factories: set<string>, id: string) {
    exists i :: 0 <= i < |items| && items[i].id == id && items[i].enabled && items[i].protocol in factories
  }

  predicate Listed(items: seq<Item>, id: string) {
    exists i :: 0 <= i < |items| && items[i].id == id
  }

  lemma {:induction false} DesiredIsListed(items: seq<Item>, id: string)
    ensures id in Desired(items) <==> Listed(items, id)
    ensures id in Desired(items) ==> Desired(items)[id] in items && Desired(items)[id].id == id
  {
    if items != [] {
      var before, last := items[..|items| - 1], items[|items| - 1];
      DesiredIsListed(before, id);
      if Listed(before, id) {
        var i :| 0 <= i < |before| && before[i].id == id;
        assert items[i].id == id;
      }
      if Listed(items, id) && last.id != id {
        var i :| 0 <= i < |items| && items[i].id == id;
        assert before[i].id == id;
      }
    }
  }

  lemma WantedFront(items: seq<Item>, factories: set<string>, id: string)
    requires items != []
    ensures Wanted(items, factories, id) <==>
            (items[0].id == id && items[0].enabled && items[0].protocol in factories) || Wanted(items[1..], factories, id)
    ensures Listed(items, id) <==> items[0].id == id || Listed(items[1..], id)
  {
    if Wanted(items[1..], factories, id) {
      var i :| 0 <= i < |items[1..]| && items[1..][i].id == id && items[1..][i].enabled && items[1..][i].protocol in factories;
      assert items[i + 1].id == id;
    }
    if i :| 0 <= i < |items| && items[i].id == id && items[i].enabled && items[i].protocol in factories {
      assert i > 0 ==> items[1..][i - 1] == items[i];
    }
    if Listed(items[1..], id) {
      var i :| 0 <= i < |items[1..]| && items[1..][i].id == id;
      assert items[i + 1].id == id;
    }
    if i :| 0 <= i < |items| && items[i].id == id {
      assert i > 0 ==> items[1..][i - 1] == items[i];
    }
  }

  /** What starting the listed items does to each id. */
  lemma {:induction false} EndStarts(s: State, items: seq<Item>, factories: set<string>, id: string)
    requires Sound(s, factories)
    ensures var after := ApplyEnd(s, items, factories);
            && (id in after.running <==> id in s.running || Wanted(items, factories, id))
            && (id in after.statuses <==> id in s.statuses || Listed(items, id))
            && (id in s.running ==> after.running[id] == s.running[id])
            && s.processes <= after.processes
            && (id in after.running && id !in s.running ==>
                after.running[id] < |after.processes| && after.processes[after.running[id]].item in items)
    decreases |items|
  {
    hide Sound, Wanted, Listed, StartOne;
    EndSound(s, items, factories);
    RunningExists(ApplyEnd(s, items, factories), factories);
    if items == [] {
      NothingWanted(factories, id);
    } else {
      var next := StartOne(s, items[0], factories);
      StartSound(s, items[0], factories);
      WantedFront(items, factories, id);
      StartOneEffect(s, items[0], factories, id);
      EndStarts(next, items[1..], factories, id);
      var after := ApplyEnd(s, items, factories);
      if id in next.running && id !in s.running {
        assert after.processes[after.running[id]] == next.processes[next.running[id]];
        assert items[0] in items;
      } else if id in after.running && id !in s.running {
        assert after.processes[after.running[id]].item in items[1..];
      }
    }
  }

  lemma RunningExists(s: State, factories: set<string>)
    requires Sound(s, factories)
    ensures forall id :: id in s.running ==> s.running[id] < |s.processes|
  {
  }

  lemma NothingWanted(factories: set<string>, id: string)
    ensures !Wanted([], factories, id) && !Listed([], id)
  {
  }

  lemma StartOneEffect(s: State, item: Item, factories: set<string>, id: string)
    requires Sound(s, factories)
    ensures var next := StartOne(s, item, factories);
            && (id in next.running <==> id in s.running || (item.id == id && item.enabled && item.protocol in factories))
            && (id in next.statuses <==> id in s.statuses || item.id == id)
            && (id in s.running ==> next.running[id] == s.running[id])
            && s.processes <= next.processes
            && (id in next.running && id !in s.running ==>
                next.running[id] < |next.processes| && next.processes[next.running[id]].item == item)
  {
  }

  /**
   An Apply that nothing interrupts: what runs is exactly what the list wants and can be served, as the
   list has it; unchanged processes are the same ones as before, all others are cancelled; and there is a
   status for exactly the listed items.
   */
  lemma ApplyAchieves(s: State, items: seq<Item>, factories: set<string>, id: string)
    requires Sound(s, factories)
    ensures var after := ApplyEnd(ApplyBegin(s, items), items, factories);
            && (id in after.running <==> Wanted(items, factories, id))
            && (id in after.running ==> after.running[id] < |after.processes| && after.processes[after.running[id]].item in items
                                        && !after.processes[after.running[id]].cancelled)
            && (id in after.statuses <==> Listed(items, id))
            && (Kept(s, Desired(items), id) ==> id in after.running && after.running[id] == s.running[id])
            && (id in s.running && !Kept(s, Desired(items), id) ==>
                s.running[id] < |after.processes| && after.processes[s.running[id]].cancelled)
  {
    hide Desired, Wanted, Listed, ApplyEnd;
    var middle := ApplyBegin(s, items);
    BeginSound(s, items, factories);
    EndStarts(middle, items, factories, id);
    EndSound(middle, items, factories);
    DesiredIsListed(items, id);
    if Kept(s, Desired(items), id) {
      KeptIsWanted(s, items, factories, id);
    }
  }

  lemma KeptIsWanted(s: State, items: seq<Item>, factories: set<string>, id: string)
    requires Sound(s, factories) && Kept(s, Desired(items), id)
    ensures Wanted(items, factories, id)
  {
    hide Desired;
    DesiredIsListed(items, id);
    var item := Desired(items)[id];
    var i :| 0 <= i < |items| && items[i] == item;
    assert items[i].id == id;
  }

  /** The status of an item that is not started. */
  function Idle(item: Item): Status {
    if !item.enabled then Disabled else NoAdapter(item.protocol)
  }

  predicate Served(item: Item, factories: set<string>) {
    item.enabled && item.protocol in factories
  }

  lemma DesiredFront(items: seq<Item>, id: string)
    requires items != []
    ensures id in Desired(items) <==> items[0].id == id || id in Desired(items[1..])
    ensures id in Desired(items) ==>
            Desired(items)[id] == if id in Desired(items[1..]) then Desired(items[1..])[id] else items[0]
    decreases |items|
  {
    if |items| > 1 {
      var before := items[..|items| - 1];
      assert before[1..] == items[1..][..|items| - 2];
      DesiredFront(before, id);
    } else {
      assert items[..0] == [] && items[1..] == [];
    }
  }

  lemma {:induction false} EndStatuses(s: State, items: seq<Item>, factories: set<string>, id: string)
    requires Sound(s, factories)
    ensures var after := ApplyEnd(s, items, factories);
            && (id in s.running ==> id in after.statuses && after.statuses[id] == s.statuses[id])
            && (id !in s.running && id in after.running ==> id in after.statuses && after.statuses[id] == Starting)
            && (id !in after.running ==>
                if id in Desired(items) then id in after.statuses && after.statuses[id] == Idle(Desired(items)[id])
                else (id in after.statuses <==> id in s.statuses))
    decreases |items|
  {
    hide Desired, Sound;
    assert id in s.running ==> id in s.statuses by {
      StatusesExist(s, factories);
    }
    if items == [] {
      NothingDesired(id);
    } else {
      var next := StartOne(s, items[0], factories);
      StartSound(s, items[0], factories);
      DesiredFront(items, id);
      EndStatuses(next, items[1..], factories, id);
      EndKeepsRunning(next, items[1..], factories, id);
      if id !in ApplyEnd(s, items, factories).running && id !in Desired(items[1..]) {
        EndLeavesOthers(next, items[1..], factories, id);
      }
    }
  }

  lemma StatusesExist(s: State, factories: set<string>)
    requires Sound(s, factories)
    ensures forall id :: id in s.running ==> id in s.statuses
  {
  }

  lemma NothingDesired(id: string)
    ensures id !in Desired([])
  {
  }

  lemma {:induction false} EndKeepsRunning(s: State, items: seq<Item>, factories: set<string>, id: string)
    ensures id in s.running ==> id in ApplyEnd(s, items, factories).running
    decreases |items|
  {
    if items != [] {
      EndKeepsRunning(StartOne(s, items[0], factories), items[1..], factories, id);
    }
  }

  lemma {:induction false} EndLeavesOthers(s: State, items: seq<Item>, factories: set<string>, id: string)
    requires id !in Desired(items)
    ensures var after := ApplyEnd(s, items, factories);
            && (id in after.statuses <==> id in s.statuses)
            && (id in s.statuses ==> after.statuses[id] == s.statuses[id])
    decreases |items|
  {
    hide Desired;
    if items != [] {
      DesiredFront(items, id);
      EndLeavesOthers(StartOne(s, items[0], factories), items[1..], factories, id);
    }
  }

  /**
   The statuses after an uninterrupted Apply: a kept process keeps its own, a started one is starting,
   and an item that does not run shows why, by its last entry in the list.
   */
  lemma StatusesAfterApply(s: State, items: seq<Item>, factories: set<string>, id: string)
    requires Sound(s, factories)
    ensures var after := ApplyEnd(ApplyBegin(s, items), items, factories);
            && (Kept(s, Desired(items), id) ==> id in s.statuses && id in after.statuses && after.statuses[id] == s.statuses[id])
            && (!Kept(s, Desired(items), id) && id in after.running ==> id in after.statuses && after.statuses[id] == Starting)
            && (id in Desired(items) && id !in after.running ==>
                id in after.statuses && after.statuses[id] == Idle(Desired(items)[id]) && !Served(Desired(items)[id], factories))
  {
    hide Desired, ApplyEnd;
    var middle := ApplyBegin(s, items);
    BeginSound(s, items, factories);
    EndStatuses(middle, items, factories, id);
    EndStarts(middle, items, factories, id);
    if id in Desired(items) && Served(Desired(items)[id], factories) {
      DesiredIsListed(items, id);
      var i :| 0 <= i < |items| && items[i] == Desired(items)[id];
      assert items[i].id == id;
      assert Wanted(items, factories, id);
    }
  }
}

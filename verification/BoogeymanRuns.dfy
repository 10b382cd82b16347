/** The watchers, the clients and the worker running concurrently against a changing cluster. */
module BoogeymanRuns {
  import opened Wrappers
  import opened Boogeyman

  /******* States and steps *******/

  /** One kind of object: what the cluster holds and, while the watch is open, what it has reported; the events that
      the watcher has yet to read; and the update that it is waiting to send. */
  datatype Track = Track(cluster: set<string>, open: bool, reported: set<string>, queue: seq<Event>,
                         hand: Option<Event>)

  datatype Phase = Idle | Busy(calls: seq<Call>) | Handling(kind: Kind, event: Event) | Crashed

  datatype State = State(deployments: Track, pvcs: Track, pods: Track, mirrors: Mirrors, worker: Phase)

  function TrackOf(s: State, k: Kind): Track {
    match k
    case DEPLOYMENT => s.deployments
    case PVC => s.pvcs
    case POD => s.pods
  }

  function WithTrack(s: State, k: Kind, t: Track): (changed: State)
    ensures TrackOf(changed, k) == t && changed.mirrors == s.mirrors && changed.worker == s.worker
    ensures forall other | other != k :: TrackOf(changed, other) == TrackOf(s, other)
  {
    match k
    case DEPLOYMENT => s.(deployments := t)
    case PVC => s.(pvcs := t)
    case POD => s.(pods := t)
  }

  /** What can happen next. Commands come from any client at any time; objects come and go for any reason, the
      worker's own calls included; watches may end. */
  datatype Step = Change(kind: Kind, event: Event)
                | Close(kind: Kind)
                | Read(kind: Kind)
                | TakeUpdate(kind: Kind)
                | TakeCommand(command: Command, calls: seq<Call>)
                | Work

  /** An object is added only when absent, and deleted or modified only when present. */
  predicate CanHappen(cluster: set<string>, e: Event) {
    match e
    case Added(n) => n !in cluster
    case Deleted(n) => n in cluster
    case Modified(n) => n in cluster
  }

  predicate Enabled(s: State, step: Step) {
    match step
    case Change(k, e) => CanHappen(TrackOf(s, k).cluster, e)
    case Close(k) => TrackOf(s, k).open
    case Read(k) => TrackOf(s, k).hand.None? && TrackOf(s, k).queue != []
    case TakeUpdate(k) => s.worker.Idle? && TrackOf(s, k).hand.Some?
    case TakeCommand(cmd, calls) =>
      s.worker.Idle? && !cmd.Update? && (Panics(s.mirrors, cmd) || Makes(s.mirrors, cmd, calls))
    case Work => s.worker.Busy? || s.worker.Handling?
  }

  /** What becomes of the cluster, and what an open watch reports of it. */
  function Changed(t: Track, e: Event): Track {
    var cluster :=
      match e
      case Added(n) => t.cluster + {n}
      case Deleted(n) => t.cluster - {n}
      case Modified(_) => t.cluster;
    if t.open then t.(cluster := cluster, reported := cluster, queue := t.queue + [e]) else t.(cluster := cluster)
  }

  /** A watcher forwards additions and deletions and drops other events. */
  function ReadEvent(t: Track): Track
    requires t.queue != []
  {
    var e := t.queue[0];
    t.(queue := t.queue[1..], hand := if e.Modified? then None else Some(e))
  }

  function Next(s: State, step: Step): State
    requires Enabled(s, step)
  {
    match step
    case Change(k, e) => WithTrack(s, k, Changed(TrackOf(s, k), e))
    case Close(k) => WithTrack(s, k, TrackOf(s, k).(open := false))
    case Read(k) => WithTrack(s, k, ReadEvent(TrackOf(s, k)))
    case TakeUpdate(k) =>
      WithTrack(s, k, TrackOf(s, k).(hand := None)).(worker := Handling(k, TrackOf(s, k).hand.value))
    case TakeCommand(cmd, calls) => s.(worker := if Panics(s.mirrors, cmd) then Crashed else Busy(calls))
    case Work =>
      if s.worker.Busy? then
        s.(worker := if s.worker.calls == [] then Idle else Busy(s.worker.calls[1..]))
      else
        s.(mirrors := Handle(s.mirrors, Update(s.worker.kind, s.worker.event)), worker := Idle)
  }

  /** The cluster gains and loses exactly the objects that are created and deleted. */
  lemma ClusterChanged(s: State, k: Kind, name: string)
    ensures Enabled(s, Change(k, Added(name))) ==>
              TrackOf(Next(s, Change(k, Added(name))), k).cluster == TrackOf(s, k).cluster + {name}
    ensures Enabled(s, Change(k, Deleted(name))) ==>
              TrackOf(Next(s, Change(k, Deleted(name))), k).cluster == TrackOf(s, k).cluster - {name}
    ensures Enabled(s, Change(k, Modified(name))) ==>
              TrackOf(Next(s, Change(k, Modified(name))), k).cluster == TrackOf(s, k).cluster
  {
  }

  /** A new watch first reports every object that exists. */
  ghost predicate JustOpened(t: Track) {
    && t.open && t.reported == t.cluster && t.hand.None?
    && (forall e | e in t.queue :: e.Added?)
    && (forall n :: Added(n) in t.queue <==> n in t.cluster)
  }

  ghost predicate Initial(s: State) {
    s.mirrors == Mirrors({}, {}, {}) && s.worker.Idle? && forall k :: JustOpened(TrackOf(s, k))
  }

  ghost predicate Reaches(s: State, steps: seq<Step>, t: State)
    decreases |steps|
  {
    if steps == [] then s == t else Enabled(s, steps[0]) && Reaches(Next(s, steps[0]), steps[1..], t)
  }

  /******* The mirror and the events on their way to it *******/

  function Fold(names: set<string>, events: seq<Event>): set<string>
    decreases |events|
  {
    if events == [] then names else Fold(Apply(names, events[0]), events[1..])
  }

  function Taken(worker: Phase, k: Kind): seq<Event> {
    if worker.Handling? && worker.kind == k then [worker.event] else []
  }

  function InHand(t: Track): seq<Event> {
    if t.hand.Some? then [t.hand.value] else []
  }

  /** The events of a kind that the worker has not finished with, oldest first. */
  function Pending(s: State, k: Kind): seq<Event> {
    Taken(s.worker, k) + InHand(TrackOf(s, k)) + TrackOf(s, k).queue
  }

  /** Folding the pending events over the worker's set gives what the watch has reported, and that is what the
      cluster holds as long as the watch is open. */
  ghost predicate Mirrored(s: State, k: Kind) {
    && Fold(Of(s.mirrors, k), Pending(s, k)) == TrackOf(s, k).reported
    && (TrackOf(s, k).open ==> TrackOf(s, k).reported == TrackOf(s, k).cluster)
  }

  lemma {:induction false} FoldConcat(names: set<string>, a: seq<Event>, b: seq<Event>)
    ensures Fold(names, a + b) == Fold(Fold(names, a), b)
    decreases |a|
  {
    if a == [] {
      assert a + b == b;
    } else {
      assert (a + b)[1..] == a[1..] + b;
      FoldConcat(Apply(names, a[0]), a[1..], b);
    }
  }

  lemma FoldOne(names: set<string>, e: Event)
    ensures Fold(names, [e]) == Apply(names, e)
  {
    assert [e][1..] == [];
  }

  lemma {:induction false} FoldAdditions(names: set<string>, events: seq<Event>)
    requires forall e | e in events :: e.Added?
    ensures Fold(names, events) == names + set e | e in events :: e.name
    decreases |events|
  {
    if events != [] {
      FoldAdditions(Apply(names, events[0]), events[1..]);
      assert (set e | e in events :: e.name) == {events[0].name} + set e | e in events[1..] :: e.name;
    }
  }

  lemma InitiallyMirrored(s: State, k: Kind)
    requires Initial(s)
    ensures Mirrored(s, k)
  {
    var t := TrackOf(s, k);
    assert Pending(s, k) == t.queue;
    assert JustOpened(t);
    FoldAdditions({}, t.queue);
    assert (set e | e in t.queue :: e.name) == t.cluster by {
      forall n | n in t.cluster ensures n in set e | e in t.queue :: e.name {
        assert Added(n) in t.queue && Added(n).name == n;
      }
      forall e | e in t.queue ensures e.name in t.cluster {
        assert Added(e.name) == e;
      }
    }
  }

  lemma ChangeMirrored(s: State, k: Kind, e: Event)
    requires Mirrored(s, k) && Enabled(s, Change(k, e))
    ensures Mirrored(Next(s, Change(k, e)), k)
  {
    var t := Next(s, Change(k, e));
    if TrackOf(s, k).open {
      assert Pending(t, k) == Pending(s, k) + [e];
      FoldConcat(Of(s.mirrors, k), Pending(s, k), [e]);
      FoldOne(TrackOf(s, k).reported, e);
    } else {
      assert Pending(t, k) == Pending(s, k);
    }
  }

  lemma ReadMirrored(s: State, k: Kind)
    requires Mirrored(s, k) && Enabled(s, Read(k))
    ensures Mirrored(Next(s, Read(k)), k)
  {
    var t, track := Next(s, Read(k)), TrackOf(s, k);
    var taken, e := Taken(s.worker, k), track.queue[0];
    assert Pending(s, k) == (taken + [e]) + track.queue[1..];
    if e.Modified? {
      assert Pending(t, k) == taken + track.queue[1..];
      FoldConcat(Of(s.mirrors, k), taken, [e]);
      FoldOne(Fold(Of(s.mirrors, k), taken), e);
      FoldConcat(Of(s.mirrors, k), taken + [e], track.queue[1..]);
      FoldConcat(Of(s.mirrors, k), taken, track.queue[1..]);
    } else {
      assert Pending(t, k) == Pending(s, k);
    }
  }

  /** Steps about another kind leave a kind's set and pending events alone, and so does moving an event on. */
  predicate PassesBy(s: State, step: Step, k: Kind) {
    match step
    case Change(kind, _) => kind != k
    case Read(kind) => kind != k
    case Close(_) => true
    case TakeUpdate(_) => true
    case TakeCommand(_, _) => true
    case Work => !(s.worker.Handling? && s.worker.kind == k)
  }

  lemma PassedBy(s: State, step: Step, k: Kind)
    requires Enabled(s, step) && PassesBy(s, step, k)
    ensures Pending(Next(s, step), k) == Pending(s, k) && Of(Next(s, step).mirrors, k) == Of(s.mirrors, k)
    ensures TrackOf(Next(s, step), k).reported == TrackOf(s, k).reported
    ensures TrackOf(Next(s, step), k).cluster == TrackOf(s, k).cluster
    ensures TrackOf(Next(s, step), k).open ==> TrackOf(s, k).open
  {
  }

  lemma WorkMirrored(s: State, k: Kind)
    requires Mirrored(s, k) && s.worker.Handling? && s.worker.kind == k
    ensures Mirrored(Next(s, Work), k)
  {
    var t := Next(s, Work);
    assert Pending(s, k) == [s.worker.event] + Pending(t, k);
    FoldConcat(Of(s.mirrors, k), [s.worker.event], Pending(t, k));
    FoldOne(Of(s.mirrors, k), s.worker.event);
  }

  lemma StepMirrored(s: State, step: Step, k: Kind)
    requires Mirrored(s, k) && Enabled(s, step)
    ensures Mirrored(Next(s, step), k)
  {
    hide Next, Pending, Fold;
    if PassesBy(s, step, k) {
      PassedBy(s, step, k);
    } else {
      match step
      case Change(_, e) => ChangeMirrored(s, k, e);
      case Read(_) => ReadMirrored(s, k);
      case Work => WorkMirrored(s, k);
    }
  }

  lemma {:induction false} StepsMirrored(s: State, steps: seq<Step>, t: State, k: Kind)
    requires Mirrored(s, k) && Reaches(s, steps, t)
    ensures Mirrored(t, k)
    decreases |steps|
  {
    if steps != [] {
      StepMirrored(s, steps[0], k);
      StepsMirrored(Next(s, steps[0]), steps[1..], t, k);
    }
  }

  /** In every interleaving, folding what is on its way over the worker's set gives what the cluster holds while the
      watch is open, and what it held when the watch ended after that. */
  lemma RunsMirrored(s: State, steps: seq<Step>, t: State, k: Kind)
    requires Initial(s) && Reaches(s, steps, t)
    ensures Mirrored(t, k)
  {
    InitiallyMirrored(s, k);
    StepsMirrored(s, steps, t, k);
  }

  /******* Quiescence *******/

  predicate Quiescent(s: State) {
    s.worker.Idle? && forall k: Kind :: TrackOf(s, k).hand.None? && TrackOf(s, k).queue == []
  }

  lemma QuiescentMirrors(s: State, steps: seq<Step>, t: State, k: Kind)
    requires Initial(s) && Reaches(s, steps, t) && Quiescent(t)
    ensures Of(t.mirrors, k) == TrackOf(t, k).reported
    ensures TrackOf(t, k).open ==> Of(t.mirrors, k) == TrackOf(t, k).cluster
  {
    RunsMirrored(s, steps, t, k);
    assert Pending(t, k) == [];
  }

  /** At quiescence the worker's three sets are the cluster's Deployments, claims and pods. */
  lemma QuiescentSets(s: State, steps: seq<Step>, t: State)
    requires Initial(s) && Reaches(s, steps, t) && Quiescent(t)
    ensures t.deployments.open ==> t.mirrors.deployments == t.deployments.cluster
    ensures t.pvcs.open ==> t.mirrors.pvcs == t.pvcs.cluster
    ensures t.pods.open ==> t.mirrors.pods == t.pods.cluster
  {
    QuiescentMirrors(s, steps, t, DEPLOYMENT);
    QuiescentMirrors(s, steps, t, PVC);
    QuiescentMirrors(s, steps, t, POD);
  }

  /** The steps that the program takes by itself, without clients or the cluster doing anything. */
  predicate Internal(step: Step) {
    step.Read? || step.TakeUpdate? || step.Work?
  }

  function Load(t: Track): nat {
    3 * |t.queue| + if t.hand.Some? then 2 else 0
  }

  /** How many internal steps can follow at most. */
  function Remaining(s: State): nat {
    Load(s.deployments) + Load(s.pvcs) + Load(s.pods)
    + match s.worker case Idle => 0 case Crashed => 0 case Handling(_, _) => 1 case Busy(calls) => 1 + |calls|
  }

  lemma InternalStepDecreases(s: State, step: Step)
    requires Internal(step) && Enabled(s, step)
    ensures Remaining(Next(s, step)) < Remaining(s)
  {
  }

  /** The program is stuck only when it is quiescent or has crashed. */
  lemma InternalStepExists(s: State) returns (step: Step)
    requires !s.worker.Crashed? && !Quiescent(s)
    ensures Internal(step) && Enabled(s, step)
  {
    if !s.worker.Idle? {
      step := Work;
    } else {
      var k :| TrackOf(s, k).hand.Some? || TrackOf(s, k).queue != [];
      step := if TrackOf(s, k).hand.Some? then TakeUpdate(k) else Read(k);
    }
  }

  ghost predicate AllInternal(steps: seq<Step>) {
    forall i | 0 <= i < |steps| :: Internal(steps[i])
  }

  lemma {:induction false} InternalRunsEnd(s: State, steps: seq<Step>, t: State)
    requires Reaches(s, steps, t) && AllInternal(steps)
    ensures |steps| <= Remaining(s)
    ensures s.worker.Crashed? <==> t.worker.Crashed?
    ensures forall k :: TrackOf(t, k).cluster == TrackOf(s, k).cluster && TrackOf(t, k).open == TrackOf(s, k).open
    decreases |steps|
  {
    if steps != [] {
      InternalStepDecreases(s, steps[0]);
      InternalRunsEnd(Next(s, steps[0]), steps[1..], t);
    }
  }

  /** Left alone, the program gets the cluster's contents into its sets, whatever it was in the middle of and
      whichever of its steps come first: internal runs end, and where one can go no further every set whose watch is
      open is what the cluster holds. */
  lemma {:induction false} SettlesMirrored(s: State, steps: seq<Step>, t: State, internal: seq<Step>, u: State, k: Kind)
    requires Initial(s) && Reaches(s, steps, t) && !t.worker.Crashed?
    requires Reaches(t, internal, u) && AllInternal(internal)
    requires !exists step :: Internal(step) && Enabled(u, step)
    ensures |internal| <= Remaining(t)
    ensures TrackOf(t, k).open ==> Of(u.mirrors, k) == TrackOf(t, k).cluster
  {
    InternalRunsEnd(t, internal, u);
    if !Quiescent(u) {
      var step := InternalStepExists(u);
    }
    RunsMirrored(s, steps, t, k);
    StepsMirrored(t, internal, u, k);
    assert Pending(u, k) == [];
  }

  /******* Crashes *******/

  /** Somewhere on the way the worker takes a command that panics. */
  ghost predicate TakesPanic(s: State, steps: seq<Step>)
    decreases |steps|
  {
    steps != [] && Enabled(s, steps[0]) &&
    ((steps[0].TakeCommand? && Panics(s.mirrors, steps[0].command)) || TakesPanic(Next(s, steps[0]), steps[1..]))
  }

  /** The worker is down exactly if it has been told to delete something random with nothing in its set. */
  lemma {:induction false} CrashIff(s: State, steps: seq<Step>, t: State)
    requires Reaches(s, steps, t) && !s.worker.Crashed?
    ensures t.worker.Crashed? <==> TakesPanic(s, steps)
    decreases |steps|
  {
    if steps != [] {
      var next := Next(s, steps[0]);
      if next.worker.Crashed? {
        StaysDown(next, steps[1..], t);
      } else {
        CrashIff(next, steps[1..], t);
      }
    }
  }

  lemma {:induction false} StaysDown(s: State, steps: seq<Step>, t: State)
    requires Reaches(s, steps, t) && s.worker.Crashed?
    ensures t.worker.Crashed? && t.mirrors == s.mirrors
    decreases |steps|
  {
    if steps != [] {
      StaysDown(Next(s, steps[0]), steps[1..], t);
    }
  }

  /** What a command picks from. */
  function PicksFrom(cmd: Command): Kind {
    if cmd.DeleteRandomPod? then POD else DEPLOYMENT
  }

  /** Where nothing is pending and the watch is open, a command crashes the worker exactly if it deletes at random and
      there is nothing in the cluster to delete. */
  lemma PanicsIffEmpty(s: State, steps: seq<Step>, t: State, cmd: Command)
    requires Initial(s) && Reaches(s, steps, t)
    requires TrackOf(t, PicksFrom(cmd)).open && Pending(t, PicksFrom(cmd)) == []
    ensures Panics(t.mirrors, cmd) <==>
            && (cmd.DeleteRandomDeployment? || (cmd.DeleteRandomPod? && cmd.instances > 0))
            && TrackOf(t, PicksFrom(cmd)).cluster == {}
  {
    RunsMirrored(s, steps, t, PicksFrom(cmd));
  }

  /** With the watch open and something in the cluster to delete, a command can only crash a worker that is behind on
      events. */
  lemma CrashMeansBehind(s: State, steps: seq<Step>, t: State, cmd: Command)
    requires Initial(s) && Reaches(s, steps, t) && Panics(t.mirrors, cmd)
    requires TrackOf(t, PicksFrom(cmd)).open && TrackOf(t, PicksFrom(cmd)).cluster != {}
    ensures Pending(t, PicksFrom(cmd)) != []
  {
    RunsMirrored(s, steps, t, PicksFrom(cmd));
  }

  /******* Kinds do not interfere *******/

  /** Events with their kinds, in the order in which the worker handles them. */
  type Updates = seq<(Kind, Event)>

  function OfKind(updates: Updates, k: Kind): seq<Event>
    decreases |updates|
  {
    if updates == [] then []
    else (if updates[0].0 == k then [updates[0].1] else []) + OfKind(updates[1..], k)
  }

  function HandleUpdates(m: Mirrors, updates: Updates): Mirrors
    decreases |updates|
  {
    if updates == [] then m else HandleUpdates(Handle(m, Update(updates[0].0, updates[0].1)), updates[1..])
  }

  lemma {:induction false} HandledByKind(m: Mirrors, updates: Updates, k: Kind)
    ensures Of(HandleUpdates(m, updates), k) == Fold(Of(m, k), OfKind(updates, k))
    decreases |updates|
  {
    if updates != [] {
      var (kind, e) := updates[0];
      HandledByKind(Handle(m, Update(kind, e)), updates[1..], k);
      if kind == k {
        assert OfKind(updates, k)[1..] == OfKind(updates[1..], k);
      } else {
        assert OfKind(updates, k) == OfKind(updates[1..], k);
      }
    }
  }

  /** How events of different kinds are interleaved makes no difference to the worker's sets. */
  lemma KindsCommute(m: Mirrors, a: Updates, b: Updates)
    requires forall k :: OfKind(a, k) == OfKind(b, k)
    ensures HandleUpdates(m, a) == HandleUpdates(m, b)
  {
    forall k: Kind ensures Of(HandleUpdates(m, a), k) == Of(HandleUpdates(m, b), k) {
      HandledByKind(m, a, k);
      HandledByKind(m, b, k);
    }
    var x, y := HandleUpdates(m, a), HandleUpdates(m, b);
    assert Of(x, DEPLOYMENT) == Of(y, DEPLOYMENT) && Of(x, PVC) == Of(y, PVC) && Of(x, POD) == Of(y, POD);
  }
}

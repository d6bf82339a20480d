/** The workspace publisher: a restartable dependency scheduler that uploads crates to a
    registry whose answers are late or unreliable, and that can be killed at any moment. */
module Publisher {
  import opened Basics

  type Id = nat

  /** A workspace crate with those of its dependencies that are workspace crates too. */
  datatype Package = Package(name: string, deps: set<Id>)

  type Workspace = map<Id, Package>

  // ----- the workspace -----

  /** One package of the cargo metadata. `publish` is None when every registry is allowed,
      and a dependency is None when it is not given by a path. */
  datatype Manifest = Manifest(id: Id, name: string, dir: string, publish: Option<seq<string>>,
                               dependencies: seq<Option<string>>)

  predicate Publishable(m: Manifest, members: set<Id>) {
    m.id in members && m.publish != Some([])
  }

  ghost predicate DependsOn(m: Manifest, n: Manifest) {
    Some(n.dir) in m.dependencies
  }

  /** Every package has its own id and its own directory. */
  ghost predicate ProperMetadata(ms: seq<Manifest>) {
    forall i, j | 0 <= i < j < |ms| :: ms[i].id != ms[j].id && ms[i].dir != ms[j].dir
  }

  /** Every dependency is itself a package of the workspace. */
  ghost predicate Closed(w: Workspace) {
    forall id | id in w :: w[id].deps <= w.Keys
  }

  /** The publishable packages by their directories. */
  ghost predicate IndexesDirs(idByDir: map<string, Id>, members: set<Id>, ms: seq<Manifest>, n: nat)
    requires n <= |ms|
  {
    && (forall i | 0 <= i < n && Publishable(ms[i], members) ::
          ms[i].dir in idByDir && idByDir[ms[i].dir] == ms[i].id)
    && (forall d | d in idByDir :: exists i | 0 <= i < n ::
          ms[i].dir == d && ms[i].id == idByDir[d] && Publishable(ms[i], members))
  }

  method IndexDirs(members: set<Id>, ms: seq<Manifest>) returns (idByDir: map<string, Id>)
    requires ProperMetadata(ms)
    ensures IndexesDirs(idByDir, members, ms, |ms|)
  {
    idByDir := map[];
    for k := 0 to |ms|
      invariant IndexesDirs(idByDir, members, ms, k)
    {
      ghost var before := idByDir;
      if Publishable(ms[k], members) { idByDir := idByDir[ms[k].dir := ms[k].id]; }
      forall d | d in idByDir
        ensures exists i | 0 <= i < k + 1 ::
                  ms[i].dir == d && ms[i].id == idByDir[d] && Publishable(ms[i], members)
      {
        if d in before && d != ms[k].dir {
          var i :| 0 <= i < k && ms[i].dir == d && ms[i].id == before[d] && Publishable(ms[i], members);
        }
      }
    }
  }

  /** One of the first `n` manifests is this publishable package's. */
  ghost predicate Among(id: Id, members: set<Id>, ms: seq<Manifest>, n: nat)
    requires n <= |ms|
  {
    exists i | 0 <= i < n :: ms[i].id == id && Publishable(ms[i], members)
  }

  /** The packages of the first `n` manifests. */
  ghost predicate HoldsPackages(w: Workspace, members: set<Id>, ms: seq<Manifest>, n: nat, idByDir: map<string, Id>)
    requires n <= |ms|
  {
    && (forall id | id in w :: Among(id, members, ms, n))
    && (forall i | 0 <= i < n && Publishable(ms[i], members) ::
          ms[i].id in w && w[ms[i].id].deps == DepsOf(ms[i], idByDir))
  }

  /** `load_publishable_workspace_packages`: the packages that may be published, each with
      those of them that it depends on by path. */
  method LoadPackages(members: set<Id>, ms: seq<Manifest>) returns (w: Workspace)
    requires ProperMetadata(ms)
    ensures Closed(w)
    ensures forall id | id in w :: exists i | 0 <= i < |ms| :: ms[i].id == id
    ensures forall i | 0 <= i < |ms| :: ms[i].id in w <==> Publishable(ms[i], members)
    ensures forall i, j | 0 <= i < |ms| && 0 <= j < |ms| && ms[i].id in w && ms[j].id in w ::
              ms[j].id in w[ms[i].id].deps <==> DependsOn(ms[i], ms[j])
  {
    var idByDir := IndexDirs(members, ms);
    w := map[];
    for k := 0 to |ms|
      invariant HoldsPackages(w, members, ms, k, idByDir)
    {
      ghost var before := w;
      if Publishable(ms[k], members) {
        var deps := WorkspaceDeps(ms[k], idByDir);
        w := w[ms[k].id := Package(ms[k].name, deps)];
      }
      OneMorePackage(before, w, members, ms, k, idByDir);
    }
    PackagesAreLoaded(w, members, ms, idByDir);
  }

  lemma OneMorePackage(w: Workspace, next: Workspace, members: set<Id>, ms: seq<Manifest>, k: nat,
                       idByDir: map<string, Id>)
    requires ProperMetadata(ms) && k < |ms| && HoldsPackages(w, members, ms, k, idByDir)
    requires next == if Publishable(ms[k], members)
                     then w[ms[k].id := Package(ms[k].name, DepsOf(ms[k], idByDir))] else w
    ensures HoldsPackages(next, members, ms, k + 1, idByDir)
  {
    forall id | id in next ensures Among(id, members, ms, k + 1) {
      if id in w { assert Among(id, members, ms, k); }
    }
  }

  lemma PackagesAreLoaded(w: Workspace, members: set<Id>, ms: seq<Manifest>, idByDir: map<string, Id>)
    requires ProperMetadata(ms) && IndexesDirs(idByDir, members, ms, |ms|)
    requires HoldsPackages(w, members, ms, |ms|, idByDir)
    ensures Closed(w)
    ensures forall i | 0 <= i < |ms| :: ms[i].id in w <==> Publishable(ms[i], members)
    ensures forall i, j | 0 <= i < |ms| && 0 <= j < |ms| && ms[i].id in w && ms[j].id in w ::
              ms[j].id in w[ms[i].id].deps <==> DependsOn(ms[i], ms[j])
  {
    forall i | 0 <= i < |ms| && ms[i].id in w ensures Publishable(ms[i], members) {
      var k :| 0 <= k < |ms| && ms[k].id == ms[i].id && Publishable(ms[k], members);
    }
    forall i, j | 0 <= i < |ms| && 0 <= j < |ms| && ms[i].id in w && ms[j].id in w
      ensures ms[j].id in w[ms[i].id].deps <==> DependsOn(ms[i], ms[j])
    {
      DirOf(members, ms, idByDir, i, j);
    }
    forall id | id in w ensures w[id].deps <= w.Keys {
      var i :| 0 <= i < |ms| && ms[i].id == id && Publishable(ms[i], members);
      forall d | d in DepsOf(ms[i], idByDir) ensures d in w {
        var dir :| dir in idByDir && idByDir[dir] == d;
      }
    }
  }

  lemma DirOf(members: set<Id>, ms: seq<Manifest>, idByDir: map<string, Id>, i: nat, j: nat)
    requires ProperMetadata(ms) && IndexesDirs(idByDir, members, ms, |ms|)
    requires i < |ms| && j < |ms| && Publishable(ms[j], members)
    ensures ms[j].id in DepsOf(ms[i], idByDir) <==> DependsOn(ms[i], ms[j])
  {
    if ms[j].id in DepsOf(ms[i], idByDir) {
      var dir :| dir in idByDir && Some(dir) in ms[i].dependencies && idByDir[dir] == ms[j].id;
      var k :| 0 <= k < |ms| && ms[k].dir == dir && ms[k].id == idByDir[dir] && Publishable(ms[k], members);
      assert k == j;
    }
  }

  ghost function DepsOf(m: Manifest, idByDir: map<string, Id>): set<Id> {
    set d | d in idByDir && Some(d) in m.dependencies :: idByDir[d]
  }

  method WorkspaceDeps(m: Manifest, idByDir: map<string, Id>) returns (deps: set<Id>)
    ensures deps == DepsOf(m, idByDir)
  {
    deps := {};
    for k := 0 to |m.dependencies|
      invariant deps == set d | d in idByDir && Some(d) in m.dependencies[..k] :: idByDir[d]
    {
      var dependency := m.dependencies[k];
      ghost var before := deps;
      if dependency.Some? && dependency.value in idByDir {
        deps := deps + {idByDir[dependency.value]};
      }
      assert m.dependencies[..k + 1] == m.dependencies[..k] + [dependency];
    }
    assert m.dependencies[..|m.dependencies|] == m.dependencies;
  }

  // ----- cycles -----

  /** Each element of the walk depends on the next one. */
  ghost predicate Walk(w: Workspace, p: seq<Id>) {
    && (forall i | 0 <= i < |p| :: p[i] in w)
    && forall i | 0 <= i < |p| - 1 :: p[i + 1] in w[p[i]].deps
  }

  ghost predicate Cycle(w: Workspace, p: seq<Id>) {
    p != [] && Walk(w, p) && p[0] in w[p[|p| - 1]].deps
  }

  ghost predicate HasCycle(w: Workspace, s: set<Id>) {
    exists p: seq<Id> :: Cycle(w, p) && forall x | x in p :: x in s
  }

  ghost predicate Distinct(p: seq<Id>) {
    forall i, j | 0 <= i < j < |p| :: p[i] != p[j]
  }

  lemma {:induction false} DistinctSize(p: seq<Id>, s: set<Id>)
    requires Distinct(p) && forall x | x in p :: x in s
    ensures |p| <= |s|
    decreases |p|
  {
    if p != [] {
      var q, x := p[..|p| - 1], p[|p| - 1];
      DistinctSize(q, s - {x});
    }
  }

  /** `id` depends on something in `s`. */
  ghost predicate Waits(w: Workspace, s: set<Id>, id: Id)
    requires id in w
  {
    exists d | d in w[id].deps :: d in s
  }

  /** Where everything in `s` waits for something else in `s`, there is a cycle: following
      the dependencies must come back. */
  lemma {:induction false} StuckHasCycle(w: Workspace, s: set<Id>, p: seq<Id>)
    requires s <= w.Keys && forall id {:trigger Waits(w, s, id)} | id in s :: Waits(w, s, id)
    requires p != [] && Walk(w, p) && Distinct(p) && forall x | x in p :: x in s
    ensures HasCycle(w, s)
    decreases |s| - |p|
  {
    var last := p[|p| - 1];
    assert Waits(w, s, last);
    var d :| d in w[last].deps && d in s;
    DistinctSize(p, s);
    if d in p {
      var i :| 0 <= i < |p| && p[i] == d;
      CycleFrom(w, s, p, i);
    } else {
      WalkOn(w, s, p, d);
      DistinctSize(p + [d], s);
      StuckHasCycle(w, s, p + [d]);
    }
  }

  lemma CycleFrom(w: Workspace, s: set<Id>, p: seq<Id>, i: nat)
    requires Walk(w, p) && i < |p| && p[i] in w[p[|p| - 1]].deps && forall x | x in p :: x in s
    ensures HasCycle(w, s)
  {
    var q := p[i..];
    assert forall k | 0 <= k < |q| :: q[k] == p[i + k];
    assert Cycle(w, q);
  }

  lemma WalkOn(w: Workspace, s: set<Id>, p: seq<Id>, d: Id)
    requires p != [] && Walk(w, p) && Distinct(p) && (forall x | x in p :: x in s)
    requires d in w[p[|p| - 1]].deps && d in s && d in w && d !in p
    ensures Walk(w, p + [d]) && Distinct(p + [d]) && forall x | x in p + [d] :: x in s
  {
  }

  /** `order` has everything after those of its dependencies that are in `s`. */
  ghost predicate Topological(w: Workspace, order: seq<Id>, s: set<Id>) {
    forall i | 0 <= i < |order| :: order[i] in w && forall d | d in w[order[i]].deps && d in s :: d in order[..i]
  }

  /** What can be ordered has no cycle: each element of it would come after the next one. */
  lemma {:induction false} OrderedHasNoCycle(w: Workspace, order: seq<Id>, s: set<Id>, p: seq<Id>, k: nat, i: nat)
    requires Topological(w, order, s) && Cycle(w, p) && forall x | x in p :: x in s
    requires k < |p| && i < |order| && order[i] == p[k]
    ensures false
    decreases i
  {
    var next := if k + 1 < |p| then k + 1 else 0;
    assert p[next] in w[p[k]].deps;
    assert p[next] in order[..i];
    var j :| 0 <= j < i && order[j] == p[next];
    OrderedHasNoCycle(w, order, s, p, next, j);
  }

  lemma OrderedMeansAcyclic(w: Workspace, order: seq<Id>, s: set<Id>)
    requires Topological(w, order, s) && forall x | x in s :: x in order
    ensures !HasCycle(w, s)
  {
    if HasCycle(w, s) {
      var p: seq<Id> :| Cycle(w, p) && forall x | x in p :: x in s;
      assert p[0] in order;
      var i :| 0 <= i < |order| && order[i] == p[0];
      OrderedHasNoCycle(w, order, s, p, 0, i);
    }
  }

  // ----- the registry -----

  datatype Reply = Success | AlreadyThere | Transient | Fatal

  /** What the outside world does at one step: whether a lookup finds a crate that is there,
      what an upload answers and whether the crate was stored all the same, and whether a
      deadline has passed. */
  datatype Event = Event(seen: bool, reply: Reply, stored: bool, late: bool)

  /** What was done with an event: a lookup, an upload, or giving up because it is late. */
  datatype Step =
    | Look(id: Id, event: Event, found: bool)
    | Upload(id: Id, event: Event)
    | GiveUp(id: Id, event: Event)

  /** A world where lookups find what is there, uploads succeed and no deadline passes. */
  predicate Cooperative(script: seq<Event>) {
    forall e | e in script :: e == Event(true, Success, true, false)
  }

  /** Everything of the workspace that is in the registry has its dependencies there. */
  predicate Installable(w: Workspace, uploaded: set<Id>) {
    forall id | id in uploaded && id in w :: w[id].deps <= uploaded
  }

  /** crates.io during one run. The run lasts as long as the script: it is killed when the
      script has ended. */
  class Registry {
    var uploaded: set<Id>
    var script: seq<Event>
    ghost var history: seq<set<Id>>
    ghost var trace: seq<Step>
    ghost var events: seq<Event>

    constructor (uploaded: set<Id>)
      ensures this.uploaded == uploaded && script == [] && history == [uploaded]
      ensures trace == [] && events == []
    {
      this.uploaded, script, history := uploaded, [], [uploaded];
      trace, events := [], [];
    }

    /** The next run. */
    method Restart(w: Workspace, next: seq<Event>)
      requires Sound(w)
      modifies this
      ensures Sound(w) && uploaded == old(uploaded) && history == old(history) && trace == old(trace)
      ensures script == next
    {
      script, events := next, events[..|trace|] + next;
    }

    /** The steps were made with the events one after the other, and the others are still to come. */
    ghost predicate Traced()
      reads this
    {
      && |trace| <= |events| && script == events[|trace|..]
      && forall k | 0 <= k < |trace| :: trace[k].event == events[k]
    }

    /** At every moment so far what was in the registry could be installed, and nothing
        that was there is gone. */
    ghost predicate Sound(w: Workspace)
      reads this
    {
      && (forall h | h in history :: Installable(w, h) && h <= uploaded)
      && uploaded in history && Traced()
    }

    /** Only this many steps were made, and all of them are in the history and in the trace. */
    twostate predicate Went(w: Workspace, steps: nat)
      reads this
    {
      && Sound(w)
      && old(history) <= history
      && old(uploaded) <= uploaded
      && |script| <= |old(script)|
      && old(trace) <= trace && events == old(events)
      && (Cooperative(old(script)) ==> Cooperative(script) && |old(script)| <= |script| + steps)
    }

    /** `crate_version_visible`: a lookup may miss a crate, but does not invent one. */
    method Lookup(w: Workspace, id: Id) returns (visible: bool)
      requires Sound(w) && script != []
      modifies this
      ensures Went(w, 1) && uploaded == old(uploaded) && |script| < |old(script)|
      ensures visible <==> id in uploaded && old(script)[0].seen
      ensures trace == old(trace) + [Look(id, old(script)[0], visible)]
    {
      assert forall e | e in script[1..] :: e in script;
      visible := script[0].seen && id in uploaded;
      trace := trace + [Look(id, script[0], visible)];
      script, history := script[1..], history + [uploaded];
    }

    /** `cargo publish`: the crate may be stored whatever the answer. */
    method Upload(w: Workspace, id: Id) returns (reply: Reply, late: bool)
      requires Sound(w) && script != []
      requires id in w && w[id].deps <= uploaded
      modifies this
      ensures Went(w, 1) && uploaded == old(uploaded) + (if old(script)[0].stored then {id} else {})
      ensures reply == old(script)[0].reply && late == old(script)[0].late && |script| < |old(script)|
      ensures trace == old(trace) + [Step.Upload(id, old(script)[0])]
    {
      assert forall e | e in script[1..] :: e in script;
      reply, late := script[0].reply, script[0].late;
      if script[0].stored { uploaded := uploaded + {id}; }
      trace := trace + [Step.Upload(id, script[0])];
      script, history := script[1..], history + [uploaded];
    }

    /** The deadline has passed. */
    method TimeOut(w: Workspace, id: Id)
      requires Sound(w) && script != [] && script[0].late
      modifies this
      ensures Went(w, 1) && uploaded == old(uploaded)
      ensures trace == old(trace) + [GiveUp(id, old(script)[0])]
    {
      assert forall e | e in script[1..] :: e in script;
      trace := trace + [GiveUp(id, script[0])];
      script, history := script[1..], history + [uploaded];
    }
  }

  datatype Outcome = Done | CycleFound | Failed | Killed

  // ----- publishing one package -----

  /** The lookups of waiting: all but the last missed the crate, and the last one found it or a
      deadline had passed. */
  ghost predicate Waited(steps: seq<Step>, id: Id, uploaded: set<Id>) {
    && (forall k | 0 <= k < |steps| :: steps[k].id == id && !steps[k].Upload? && (steps[k].GiveUp? <==> steps[k].event.late))
    && (forall k | 0 <= k < |steps| && steps[k].Look? :: steps[k].found <==> steps[k].event.seen && id in uploaded)
    && forall k | 0 <= k < |steps| - 1 :: steps[k].Look? && !steps[k].found
  }

  ghost function WaitOutcome(steps: seq<Step>): Outcome {
    if steps == [] || (steps[|steps| - 1].Look? && !steps[|steps| - 1].found) then Killed
    else if steps[|steps| - 1].Look? then Done
    else Failed
  }

  lemma WaitedOnce(steps: seq<Step>, id: Id, uploaded: set<Id>, s: Step)
    requires Waited(steps, id, uploaded) && WaitOutcome(steps) == Killed
    requires s.id == id && !s.Upload? && (s.GiveUp? <==> s.event.late)
    requires s.Look? ==> (s.found <==> s.event.seen && id in uploaded)
    ensures Waited(steps + [s], id, uploaded)
    ensures WaitOutcome(steps + [s]) == if s.GiveUp? then Failed else if s.found then Done else Killed
  {
  }

  /** `wait_for_crate_version`: look until the crate is seen or the deadline passes. */
  method WaitForVersion(w: Workspace, registry: Registry, id: Id) returns (out: Outcome, ghost steps: seq<Step>)
    requires registry.Sound(w)
    modifies registry
    ensures registry.Went(w, if id in registry.uploaded then 1 else |old(registry.script)|)
    ensures registry.uploaded == old(registry.uploaded)
    ensures registry.trace == old(registry.trace) + steps && Waited(steps, id, registry.uploaded)
    ensures out == WaitOutcome(steps)
    ensures out == Done ==> id in registry.uploaded
    ensures out == Killed ==> registry.script == []
    ensures out == Failed ==> !Cooperative(old(registry.script))
  {
    steps := [];
    while registry.script != []
      invariant registry.uploaded == old(registry.uploaded)
      invariant registry.Went(w, |old(registry.script)|)
      invariant Cooperative(old(registry.script)) && id in registry.uploaded ==>
                  registry.script == old(registry.script)
      invariant registry.trace == old(registry.trace) + steps
      invariant Waited(steps, id, registry.uploaded) && WaitOutcome(steps) == Killed
      decreases |registry.script|
    {
      assert registry.script[0] in registry.script;
      ghost var before := steps;
      if registry.script[0].late {
        steps := steps + [GiveUp(id, registry.script[0])];
        WaitedOnce(before, id, registry.uploaded, GiveUp(id, registry.script[0]));
        registry.TimeOut(w, id);
        return Failed, steps;
      }
      ghost var event := registry.script[0];
      var visible := registry.Lookup(w, id);
      steps := steps + [Look(id, event, visible)];
      WaitedOnce(before, id, registry.uploaded, Look(id, event, visible));
      if visible { return Done, steps; }
    }
    return Killed, steps;
  }

  /** One lookup, and when it misses the crate, `n` uploads: all but the last were to be tried again.
      When the last one was accepted, waiting follows. */
  ghost predicate PublishedBy(steps: seq<Step>, id: Id, attempts: int, n: nat) {
    && (steps != [] ==> steps[0].Look?) && (forall k | 0 <= k < |steps| :: steps[k].id == id)
    && (steps == [] ==> n == 0) && (n > 0 ==> n <= attempts && n < |steps| && !steps[0].found)
    && (forall k | 1 <= k <= n :: steps[k].Upload?)
    && (forall k | 1 <= k < n :: steps[k].event.reply == Transient && !steps[k].event.late)
    && (|steps| > n + 1 ==> n > 0 && steps[n].event.reply in {Success, AlreadyThere})
  }

  /** How publishing ends. */
  ghost function PublishOutcome(steps: seq<Step>, attempts: int, n: nat): Outcome {
    if steps == [] then Killed
    else match steps[|steps| - 1]
      case Look(_, _, found) => if found then Done else if attempts < 1 then Failed else Killed
      case Upload(_, e) => if e.reply == Fatal || (e.reply == Transient && (n == attempts || e.late)) then Failed else Killed
      case GiveUp(_, _) => Failed
  }

  ghost predicate Stored(steps: seq<Step>) {
    exists s | s in steps :: s.Upload? && s.event.stored
  }

  lemma StoredMore(steps: seq<Step>, s: Step, next: seq<Step>)
    requires next == steps + [s]
    ensures Stored(next) <==> Stored(steps) || (s.Upload? && s.event.stored)
  {
    assert next[|steps|] == s;
    if Stored(steps) {
      var t :| t in steps && t.Upload? && t.event.stored;
      assert t in next;
    }
  }

  lemma NoneStored(steps: seq<Step>, waited: seq<Step>, id: Id, uploaded: set<Id>)
    requires Waited(waited, id, uploaded)
    ensures Stored(steps + waited) <==> Stored(steps)
  {
    if Stored(steps) {
      var t :| t in steps && t.Upload? && t.event.stored;
      assert t in steps + waited;
    }
    forall s | s in waited ensures !s.Upload? {}
  }

  /** What publishing did and came to. */
  ghost predicate IsPublishing(steps: seq<Step>, id: Id, attempts: int, n: nat, out: Outcome, before: set<Id>, after: set<Id>) {
    && PublishedBy(steps, id, attempts, n) && out == PublishOutcome(steps, attempts, n)
    && after == before + (if Stored(steps) then {id} else {})
    && (steps != [] ==> (steps[0].found <==> steps[0].event.seen && id in before))
    && (|steps| > n + 1 ==> Waited(steps[n + 1..], id, after))
  }

  /** All uploads so far are to be tried again. */
  ghost predicate Trying(steps: seq<Step>, id: Id, attempts: int, n: nat, before: set<Id>, after: set<Id>) {
    && PublishedBy(steps, id, attempts, n) && |steps| == n + 1 && !steps[0].found
    && !(steps[0].event.seen && id in before) && after == before + (if Stored(steps) then {id} else {})
    && (n > 0 ==> steps[n].event.reply == Transient && !steps[n].event.late && n < attempts)
  }

  lemma FirstLook(s: Step, id: Id, attempts: int, uploaded: set<Id>)
    requires s.Look? && s.id == id && (s.found <==> s.event.seen && id in uploaded)
    ensures if s.found then IsPublishing([s], id, attempts, 0, Done, uploaded, uploaded)
            else Trying([s], id, attempts, 0, uploaded, uploaded)
  {
    StoredMore([], s, [s]);
  }

  /** After an upload, publishing has failed or goes on. */
  lemma UploadedOnce(steps: seq<Step>, id: Id, attempts: int, n: nat, event: Event, next: seq<Step>, n': nat,
                     before: set<Id>, after: set<Id>, now: set<Id>)
    requires Trying(steps, id, attempts, n, before, after) && n' == n + 1 <= attempts
    requires next == steps + [Step.Upload(id, event)] && now == after + (if event.stored then {id} else {})
    ensures event.reply == Fatal || (event.reply == Transient && (n' == attempts || event.late)) ==>
              IsPublishing(next, id, attempts, n', Failed, before, now)
    ensures event.reply == Transient && n' < attempts && !event.late ==> Trying(next, id, attempts, n', before, now)
    ensures event.reply in {Success, AlreadyThere} ==> Accepted(next, id, attempts, n', before, now)
  {
    StoredMore(steps, Step.Upload(id, event), next);
  }

  /** The last upload was accepted. */
  ghost predicate Accepted(steps: seq<Step>, id: Id, attempts: int, n: nat, before: set<Id>, after: set<Id>) {
    && PublishedBy(steps, id, attempts, n) && |steps| == n + 1 && n > 0
    && !(steps[0].event.seen && id in before) && after == before + (if Stored(steps) then {id} else {})
    && steps[n].event.reply in {Success, AlreadyThere}
  }

  /** After some attempts: publishing has ended, or all uploads are to be tried again. */
  ghost predicate AttemptsAt(steps: seq<Step>, id: Id, attempts: int, n: nat, ended: bool, out: Outcome,
                             before: set<Id>, after: set<Id>)
  {
    if ended then IsPublishing(steps, id, attempts, n, out, before, after) else Trying(steps, id, attempts, n, before, after)
  }

  lemma NoMoreAttempts(steps: seq<Step>, id: Id, attempts: int, n: nat, before: set<Id>, after: set<Id>, attempt: int,
                       out: Outcome)
    requires Trying(steps, id, attempts, n, before, after) && attempt == n + 1
    requires out == if attempt <= attempts then Killed else Failed
    ensures IsPublishing(steps, id, attempts, n, out, before, after) && (out == Failed ==> attempts < 1)
  {
  }

  lemma ThenWaited(steps: seq<Step>, id: Id, attempts: int, n: nat, waited: seq<Step>, next: seq<Step>,
                   before: set<Id>, after: set<Id>)
    requires Accepted(steps, id, attempts, n, before, after) && Waited(waited, id, after) && next == steps + waited
    ensures IsPublishing(next, id, attempts, n, WaitOutcome(waited), before, after)
  {
    NoneStored(steps, waited, id, after);
    assert next[n + 1..] == waited;
    if waited == [] { assert next == steps; } else { assert next[|next| - 1] == waited[|waited| - 1]; }
  }

  /** What an attempt makes of publishing: it has ended, or another attempt follows. */
  lemma AttemptMade(steps: seq<Step>, id: Id, attempts: int, n: nat, event: Event, waited: seq<Step>, next: seq<Step>,
                    ended: bool, out: Outcome, before: set<Id>, after: set<Id>, now: set<Id>, n': nat)
    requires Trying(steps, id, attempts, n, before, after) && n' == n + 1 <= attempts
    requires now == after + (if event.stored then {id} else {}) && next == steps + ([Step.Upload(id, event)] + waited)
    requires AttemptResult(id, attempts, n', event, waited, ended, out, now)
    ensures AttemptsAt(next, id, attempts, n', ended, out, before, now) && (!ended ==> n' < attempts)
  {
    var uploaded := steps + [Step.Upload(id, event)];
    UploadedOnce(steps, id, attempts, n, event, uploaded, n', before, after, now);
    if event.reply in {Success, AlreadyThere} {
      assert next == uploaded + waited;
      ThenWaited(uploaded, id, attempts, n', waited, next, before, now);
    } else {
      assert next == uploaded;
    }
  }

  ghost predicate AttemptResult(id: Id, attempts: int, attempt: int, event: Event, waited: seq<Step>, ended: bool,
                                out: Outcome, uploaded: set<Id>)
  {
    if event.reply in {Success, AlreadyThere} then ended && Waited(waited, id, uploaded) && out == WaitOutcome(waited)
    else waited == [] && out == Failed && (ended <==> event.reply == Fatal || attempt == attempts || event.late)
  }

  /** One attempt: an upload, and waiting when it is accepted. */
  method Attempt(w: Workspace, registry: Registry, id: Id, attempts: int, attempt: int)
    returns (ended: bool, out: Outcome, ghost waited: seq<Step>)
    requires registry.Sound(w) && registry.script != [] && id in w && w[id].deps <= registry.uploaded
    modifies registry
    ensures registry.Went(w, 2) && registry.trace == old(registry.trace) + ([Step.Upload(id, old(registry.script)[0])] + waited)
    ensures registry.uploaded == old(registry.uploaded) + if old(registry.script)[0].stored then {id} else {}
    ensures AttemptResult(id, attempts, attempt, old(registry.script)[0], waited, ended, out, registry.uploaded)
    ensures ended && out == Done ==> id in registry.uploaded
    ensures ended && out == Killed ==> registry.script == []
    ensures Cooperative(old(registry.script)) ==> ended && out != Failed
  {
    assert registry.script[0] in registry.script;
    var reply, late := registry.Upload(w, id);
    waited, ended, out := [], true, Failed;
    if reply == Success || reply == AlreadyThere {
      out, waited := WaitForVersion(w, registry, id);
    } else if reply != Fatal && attempt != attempts && !late {
      ended := false;
    }
  }

  /** The attempts of `publish_package`, after the lookup `steps[0]`. */
  method Attempts(w: Workspace, registry: Registry, id: Id, attempts: int, ghost start: seq<Step>, ghost first: seq<Step>,
                  ghost uploaded: set<Id>)
    returns (out: Outcome, ghost steps: seq<Step>, ghost n: nat)
    requires registry.Sound(w) && id in w && w[id].deps <= registry.uploaded
    requires Trying(first, id, attempts, 0, uploaded, registry.uploaded) && registry.trace == start + first
    modifies registry
    ensures registry.Went(w, 2)
    ensures IsPublishing(steps, id, attempts, n, out, uploaded, registry.uploaded) && registry.trace == start + steps
    ensures out == Done ==> id in registry.uploaded
    ensures out == Killed ==> registry.script == []
    ensures out == Failed ==> !Cooperative(old(registry.script)) || attempts < 1
  {
    steps, n, out := first, 0, Killed;
    var attempt, ended := 1, false;
    while !ended && attempt <= attempts && registry.script != []
      invariant attempt == n + 1 && registry.Went(w, if ended then 2 else n) && w[id].deps <= registry.uploaded
      invariant AttemptsAt(steps, id, attempts, n, ended, out, uploaded, registry.uploaded) && registry.trace == start + steps
      invariant ended && out == Done ==> id in registry.uploaded
      invariant ended && out == Killed ==> registry.script == []
      invariant Cooperative(old(registry.script)) ==> if ended then out != Failed else attempt == 1
      decreases !ended, attempts - attempt
    {
      ghost var before, after, event, waited := steps, registry.uploaded, registry.script[0], [];
      ended, out, waited := Attempt(w, registry, id, attempts, attempt);
      steps := before + ([Step.Upload(id, event)] + waited);
      AttemptMade(before, id, attempts, n, event, waited, steps, ended, out, uploaded, after, registry.uploaded, attempt);
      n, attempt := attempt, attempt + 1;
    }
    if !ended {
      out := if attempt <= attempts then Killed else Failed;
      NoMoreAttempts(steps, id, attempts, n, uploaded, registry.uploaded, attempt, out);
    }
  }

  /** `publish_package`: upload until it is accepted, but only so many times, and never
      what can be seen already. `steps` were made, and `n` of them were uploads. */
  method PublishPackage(w: Workspace, registry: Registry, id: Id, attempts: int)
    returns (out: Outcome, ghost steps: seq<Step>, ghost n: nat)
    requires registry.Sound(w) && id in w && w[id].deps <= registry.uploaded
    modifies registry
    ensures registry.Went(w, 3)
    ensures registry.trace == old(registry.trace) + steps
    ensures IsPublishing(steps, id, attempts, n, out, old(registry.uploaded), registry.uploaded)
    ensures out == Done ==> id in registry.uploaded
    ensures out == Killed ==> registry.script == []
    ensures out == Failed ==> !Cooperative(old(registry.script)) || attempts < 1
  {
    ghost var uploaded := registry.uploaded;
    steps, n := [], 0;
    if registry.script == [] { return Killed, steps, n; }
    ghost var event := registry.script[0];
    var visible := registry.Lookup(w, id);
    steps := [Look(id, event, visible)];
    FirstLook(steps[0], id, attempts, uploaded);
    if visible { return Done, steps, n; }
    out, steps, n := Attempts(w, registry, id, attempts, old(registry.trace), steps, uploaded);
  }

  // ----- what a failure shows, and how often is uploaded -----

  /** The last `attempts` steps were uploads of one crate, all of them to be tried again. */
  ghost predicate UsedUp(trace: seq<Step>, attempts: int) {
    && 1 <= attempts < |trace|
    && forall k | |trace| - attempts <= k < |trace| ::
         trace[k].Upload? && trace[k].id == trace[|trace| - 1].id && trace[k].event.reply == Transient
  }

  /** What was done last shows why publishing failed: a deadline had passed, an upload was refused for
      good, or all attempts were used up. */
  ghost predicate FailureShown(trace: seq<Step>, attempts: int) {
    trace != []
    && match trace[|trace| - 1]
       case Look(_, _, found) => !found && attempts < 1
       case Upload(_, e) => e.reply == Fatal || (e.reply == Transient && (e.late || UsedUp(trace, attempts)))
       case GiveUp(_, e) => e.late
  }

  lemma NoUploadLater(steps: seq<Step>, id: Id, n: nat, uploaded: set<Id>)
    requires |steps| > n + 1 ==> Waited(steps[n + 1..], id, uploaded)
    ensures forall k | n < k < |steps| :: !steps[k].Upload? && (steps[k].GiveUp? <==> steps[k].event.late)
  {
    forall k | n < k < |steps| ensures !steps[k].Upload? && (steps[k].GiveUp? <==> steps[k].event.late) {
      assert steps[n + 1..][k - n - 1] == steps[k];
    }
  }

  lemma FailureShows(before: seq<Step>, steps: seq<Step>, trace: seq<Step>, id: Id, attempts: int, n: nat, uploaded: set<Id>)
    requires trace == before + steps && PublishedBy(steps, id, attempts, n) && PublishOutcome(steps, attempts, n) == Failed
    requires |steps| > n + 1 ==> Waited(steps[n + 1..], id, uploaded)
    ensures FailureShown(trace, attempts)
  {
    NoUploadLater(steps, id, n, uploaded);
    var last := steps[|steps| - 1];
    assert trace[|trace| - 1] == last;
    if last.Upload? && last.event.reply == Transient && n == attempts {
      forall k | |trace| - attempts <= k < |trace|
        ensures trace[k].Upload? && trace[k].id == id && trace[k].event.reply == Transient
      {
        assert trace[k] == steps[k - |before|];
      }
    }
  }

  /** The events of a crate that is published in the end: a lookup misses it, `k` uploads are to be
      tried again, the next one is accepted, and then a lookup sees the crate, which was stored. */
  ghost predicate Recovers(script: seq<Event>, id: Id, attempts: int, k: nat, uploaded: set<Id>) {
    && k < attempts && k + 3 <= |script| && !(script[0].seen && id in uploaded)
    && (forall i | 1 <= i <= k :: script[i].reply == Transient && !script[i].late)
    && script[k + 1].reply in {Success, AlreadyThere} && script[k + 2].seen && !script[k + 2].late
    && (id in uploaded || exists i | 1 <= i <= k + 1 :: script[i].stored)
  }

  lemma RecoveredUploads(steps: seq<Step>, script: seq<Event>, id: Id, attempts: int, k: nat, n: nat, out: Outcome,
                         before: set<Id>, after: set<Id>)
    requires Recovers(script, id, attempts, k, before) && IsPublishing(steps, id, attempts, n, out, before, after)
    requires |steps| <= |script| && forall i | 0 <= i < |steps| :: steps[i].event == script[i]
    requires out == Killed ==> |steps| == |script|
    ensures n == k + 1 && |steps| > n + 1
  {
    assert |steps| > k + 1 ==> steps[k + 1].event == script[k + 1];
    assert |steps| > n ==> steps[n].event == script[n];
    assert steps != [] ==> steps[|steps| - 1].event == script[|steps| - 1];
  }

  lemma RecoveredStored(steps: seq<Step>, script: seq<Event>, id: Id, attempts: int, k: nat, n: nat, out: Outcome,
                        before: set<Id>, after: set<Id>)
    requires Recovers(script, id, attempts, k, before) && IsPublishing(steps, id, attempts, n, out, before, after)
    requires |steps| <= |script| && forall i | 0 <= i < |steps| :: steps[i].event == script[i]
    requires n == k + 1 && |steps| > n + 1
    ensures id in after
  {
    if id !in before {
      var i :| 1 <= i <= k + 1 && script[i].stored;
      assert steps[i] in steps && steps[i].Upload?;
    }
  }

  lemma RecoveredIsDone(steps: seq<Step>, script: seq<Event>, id: Id, attempts: int, k: nat, n: nat, out: Outcome,
                        before: set<Id>, after: set<Id>)
    requires Recovers(script, id, attempts, k, before) && IsPublishing(steps, id, attempts, n, out, before, after)
    requires |steps| <= |script| && forall i | 0 <= i < |steps| :: steps[i].event == script[i]
    requires out == Killed ==> |steps| == |script|
    ensures out == Done
  {
    RecoveredUploads(steps, script, id, attempts, k, n, out, before, after);
    RecoveredStored(steps, script, id, attempts, k, n, out, before, after);
    var waited := steps[n + 1..];
    assert waited[0] == steps[k + 2] && waited[0].event == script[k + 2];
    assert waited[|waited| - 1] == steps[|steps| - 1];
  }

  function Uploads(trace: seq<Step>, id: Id): nat {
    if trace == [] then 0
    else Uploads(trace[..|trace| - 1], id) + if trace[|trace| - 1].Upload? && trace[|trace| - 1].id == id then 1 else 0
  }

  lemma {:induction false} UploadsConcat(a: seq<Step>, b: seq<Step>, id: Id)
    ensures Uploads(a + b, id) == Uploads(a, id) + Uploads(b, id)
    decreases |b|
  {
    if b == [] {
      assert a + b == a;
    } else {
      assert (a + b)[..|a| + |b| - 1] == a + b[..|b| - 1];
      UploadsConcat(a, b[..|b| - 1], id);
    }
  }

  lemma {:induction false} UploadsAmong(steps: seq<Step>, id: Id, n: nat)
    requires forall k | 0 <= k < |steps| && steps[k].Upload? && steps[k].id == id :: 1 <= k <= n
    ensures Uploads(steps, id) <= n && Uploads(steps, id) <= Max(|steps| - 1, 0)
    decreases |steps|
  {
    if steps != [] {
      var k := |steps| - 1;
      UploadsAmong(steps[..k], id, if k <= n && k > 0 then k - 1 else n);
    }
  }

  /** Nothing was uploaded more often than attempts are allowed, and nothing in `free` at all. */
  ghost predicate UploadsBounded(before: seq<Step>, trace: seq<Step>, free: set<Id>, attempts: int) {
    forall id :: Uploads(trace, id) <= Uploads(before, id) + if id in free then 0 else Max(attempts, 0)
  }

  lemma BoundedStill(before: seq<Step>, trace: seq<Step>, steps: seq<Step>, next: seq<Step>, free: set<Id>, attempts: int,
                     id: Id, n: nat, uploaded: set<Id>)
    requires UploadsBounded(before, trace, free, attempts) && id in free && next == trace + steps
    requires PublishedBy(steps, id, attempts, n) && (|steps| > n + 1 ==> Waited(steps[n + 1..], id, uploaded))
    ensures UploadsBounded(before, next, free - {id}, attempts)
  {
    NoUploadLater(steps, id, n, uploaded);
    forall other: Id ensures Uploads(next, other) <= Uploads(before, other) + if other in free - {id} then 0 else Max(attempts, 0) {
      UploadsConcat(trace, steps, other);
      UploadsAmong(steps, other, if other == id then n else 0);
    }
  }

  /** What publishing one package leaves for the run. */
  lemma PackageShows(start: seq<Step>, trace: seq<Step>, steps: seq<Step>, next: seq<Step>, free: set<Id>, attempts: int,
                     id: Id, n: nat, uploaded: set<Id>, free': set<Id>)
    requires UploadsBounded(start, trace, free, attempts) && id in free && next == trace + steps && free' == free - {id}
    requires PublishedBy(steps, id, attempts, n) && (|steps| > n + 1 ==> Waited(steps[n + 1..], id, uploaded))
    ensures UploadsBounded(start, next, free', attempts) && UploadsBounded(start, next, {}, attempts)
    ensures PublishOutcome(steps, attempts, n) == Failed ==> FailureShown(next, attempts)
  {
    BoundedStill(start, trace, steps, next, free, attempts, id, n, uploaded);
    if PublishOutcome(steps, attempts, n) == Failed { FailureShows(trace, steps, next, id, attempts, n, uploaded); }
  }

  lemma BoundedForFewer(start: seq<Step>, trace: seq<Step>, free: set<Id>, fewer: set<Id>, attempts: int)
    requires UploadsBounded(start, trace, free, attempts) && fewer <= free
    ensures UploadsBounded(start, trace, fewer, attempts)
  {
  }

  lemma BoundedByLookup(before: seq<Step>, trace: seq<Step>, next: seq<Step>, free: set<Id>, attempts: int, s: Step)
    requires UploadsBounded(before, trace, free, attempts) && next == trace + [s] && s.Look?
    ensures UploadsBounded(before, next, free, attempts)
  {
    assert next[..|trace|] == trace;
  }

  ghost predicate Parted(all: set<Id>, a: set<Id>, b: set<Id>, c: set<Id>) {
    forall id :: && (id in all <==> id in a || id in b || id in c)
                 && !(id in a && id in b) && !(id in a && id in c) && !(id in b && id in c)
  }

  lemma OneFewer(all: set<Id>, a: set<Id>, b: set<Id>, c: set<Id>, id: Id)
    requires Parted(all, a, b, c) && id in c
    ensures Parted(all, a + {id}, b, c - {id}) && Parted(all, a, b + {id}, c - {id})
    ensures id in all
  {
  }

  lemma LookedUp(before: seq<Step>, trace: seq<Step>, next: seq<Step>, attempts: int, s: Step,
                 all: set<Id>, a: set<Id>, b: set<Id>, c: set<Id>, id: Id)
    requires UploadsBounded(before, trace, all, attempts) && next == trace + [s] && s.Look? && Parted(all, a, b, c) && id in c
    ensures UploadsBounded(before, next, all, attempts)
    ensures Parted(all, a + {id}, b, c - {id}) && Parted(all, a, b + {id}, c - {id}) && id in all
  {
    BoundedByLookup(before, trace, next, all, attempts, s);
    OneFewer(all, a, b, c, id);
  }

  /** The first pass of `main`: what cannot be seen in the registry is still to be published. */
  method LookUpAll(w: Workspace, registry: Registry, ghost attempts: int)
    returns (alive: bool, completed: set<Id>, pending: set<Id>)
    requires registry.Sound(w)
    modifies registry
    ensures registry.Went(w, |w.Keys|) && registry.uploaded == old(registry.uploaded)
    ensures completed !! pending && completed <= registry.uploaded && pending <= w.Keys
    ensures alive ==> completed + pending == w.Keys
    ensures alive && Cooperative(old(registry.script)) ==> pending !! registry.uploaded
    ensures !alive ==> registry.script == []
    ensures UploadsBounded(old(registry.trace), registry.trace, w.Keys, attempts)
  {
    completed, pending, alive := {}, {}, true;
    var rest := w.Keys;
    while rest != {}
      invariant Parted(w.Keys, completed, pending, rest) && completed <= registry.uploaded
      invariant registry.uploaded == old(registry.uploaded)
      invariant |rest| <= |w.Keys| && registry.Went(w, |w.Keys| - |rest|)
      invariant Cooperative(old(registry.script)) ==> pending !! registry.uploaded
      invariant UploadsBounded(old(registry.trace), registry.trace, w.Keys, attempts)
      decreases rest
    {
      if registry.script == [] { return false, completed, pending; }
      assert registry.script[0] in registry.script;
      var id :| id in rest;
      ghost var trace := registry.trace;
      var visible := registry.Lookup(w, id);
      LookedUp(old(registry.trace), trace, registry.trace, attempts, registry.trace[|trace|],
               w.Keys, completed, pending, rest, id);
      if visible { completed := completed + {id}; } else { pending := pending + {id}; }
      rest := rest - {id};
    }
  }

  /** Where a run stands: `order` was published of what was hidden, `pending` is left. */
  ghost predicate Progress(w: Workspace, hidden: set<Id>, order: seq<Id>, pending: set<Id>, completed: set<Id>) {
    && Distinct(order) && Topological(w, order, hidden)
    && pending !! completed && pending + completed == w.Keys
    && pending <= hidden
    && (forall id | id in order :: id in hidden && id in completed)
    && (forall id | id in hidden :: id in pending || id in order)
  }

  lemma OneMorePublished(w: Workspace, hidden: set<Id>, order: seq<Id>, pending: set<Id>, completed: set<Id>, id: Id)
    requires Closed(w) && Progress(w, hidden, order, pending, completed)
    requires id in pending && w[id].deps <= completed
    ensures Progress(w, hidden, order + [id], pending - {id}, completed + {id})
  {
    var next := order + [id];
    assert next[..|order|] == order;
    forall i | 0 <= i < |next|
      ensures next[i] in w && forall d | d in w[next[i]].deps && d in hidden :: d in next[..i]
    {
      if i < |order| { assert next[..i] == order[..i]; }
    }
  }

  lemma NoneReady(w: Workspace, hidden: set<Id>, order: seq<Id>, pending: set<Id>, completed: set<Id>,
                  ready: set<Id>)
    requires Closed(w) && Progress(w, hidden, order, pending, completed)
    requires ready == {} == set id | id in pending && w[id].deps <= completed
    requires pending != {}
    ensures HasCycle(w, hidden)
  {
    forall id {:trigger Waits(w, pending, id)} | id in pending ensures Waits(w, pending, id) {
      assert id !in ready;
    }
    var id :| id in pending;
    StuckHasCycle(w, pending, [id]);
  }

  lemma {:induction false} SubsetSize(s: set<Id>, t: set<Id>)
    requires s <= t
    ensures |s| <= |t|
    decreases s
  {
    if s != {} {
      var x :| x in s;
      SubsetSize(s - {x}, t - {x});
    }
  }

  /** In a wave, `rest` of what was ready is left. */
  ghost predicate InWave(w: Workspace, hidden: set<Id>, all: set<Id>, ready: set<Id>, rest: set<Id>, order: seq<Id>,
                         pending: set<Id>, completed: set<Id>, before: set<Id>, uploaded: set<Id>)
  {
    && Progress(w, hidden, order, pending, completed)
    && rest <= ready && rest <= pending && pending == all - (ready - rest)
    && (forall id | id in rest :: id in w && w[id].deps <= completed)
    && completed <= uploaded <= before + ready
  }

  lemma WaveGoesOn(w: Workspace, hidden: set<Id>, all: set<Id>, ready: set<Id>, rest: set<Id>, order: seq<Id>,
                   pending: set<Id>, completed: set<Id>, before: set<Id>, uploaded: set<Id>, id: Id, now: set<Id>)
    requires Closed(w) && ready <= all && InWave(w, hidden, all, ready, rest, order, pending, completed, before, uploaded)
    requires id in rest && id in now && uploaded <= now <= uploaded + {id}
    ensures InWave(w, hidden, all, ready, rest - {id}, order + [id], pending - {id}, completed + {id}, before, now)
  {
    OneMorePublished(w, hidden, order, pending, completed, id);
    assert all - (ready - (rest - {id})) == pending - {id};
  }

  /** Publishing one package as a part of the run that began at `start`, in which nothing of `free` was
      uploaded so far. */
  method PublishNext(w: Workspace, registry: Registry, id: Id, attempts: int, ghost start: seq<Step>, ghost free: set<Id>)
    returns (out: Outcome)
    requires registry.Sound(w) && id in w && w[id].deps <= registry.uploaded
    requires UploadsBounded(start, registry.trace, free, attempts) && id in free
    modifies registry
    ensures registry.Went(w, 3) && registry.uploaded <= old(registry.uploaded) + {id}
    ensures UploadsBounded(start, registry.trace, {}, attempts) && UploadsBounded(start, registry.trace, free - {id}, attempts)
    ensures out != CycleFound
    ensures out == Done ==> id in registry.uploaded
    ensures out == Killed ==> registry.script == []
    ensures out == Failed ==> FailureShown(registry.trace, attempts)
    ensures out == Failed ==> !Cooperative(old(registry.script)) || attempts < 1
  {
    ghost var trace, steps, n := registry.trace, [], 0;
    out, steps, n := PublishPackage(w, registry, id, attempts);
    PackageShows(start, trace, steps, registry.trace, free, attempts, id, n, registry.uploaded, free - {id});
  }

  /** One wave of `main`: publish everything that was ready when the wave began. */
  method PublishWave(w: Workspace, registry: Registry, attempts: int, ghost hidden: set<Id>, ghost start: seq<Step>, order: seq<Id>,
                     pending: set<Id>, completed: set<Id>, ready: set<Id>)
    returns (out: Outcome, order': seq<Id>, pending': set<Id>, completed': set<Id>)
    requires Closed(w) && registry.Sound(w) && completed <= registry.uploaded
    requires Progress(w, hidden, order, pending, completed)
    requires ready <= pending && forall id | id in ready :: w[id].deps <= completed
    requires UploadsBounded(start, registry.trace, pending, attempts)
    modifies registry
    ensures UploadsBounded(start, registry.trace, {}, attempts)
    ensures out == Done ==> UploadsBounded(start, registry.trace, pending', attempts)
    ensures registry.Went(w, 3 * |ready|)
    ensures Progress(w, hidden, order', pending', completed')
    ensures completed' <= registry.uploaded <= old(registry.uploaded) + ready
    ensures out != CycleFound
    ensures out == Done ==> pending' == pending - ready
    ensures out == Killed ==> registry.script == []
    ensures out == Failed ==> FailureShown(registry.trace, attempts)
    ensures out == Failed ==> !Cooperative(old(registry.script)) || attempts < 1
  {
    ghost var before := registry.uploaded;
    var rest := ready;
    out, order', pending', completed' := Done, order, pending, completed;
    while rest != {}
      invariant InWave(w, hidden, pending, ready, rest, order', pending', completed', before, registry.uploaded)
      invariant |rest| <= |ready| && registry.Went(w, 3 * (|ready| - |rest|))
      invariant out == Done && UploadsBounded(start, registry.trace, pending', attempts)
      decreases |rest|
    {
      var id :| id in rest;
      ghost var uploaded := registry.uploaded;
      out := PublishNext(w, registry, id, attempts, start, pending');
      if out != Done { return; }
      WaveGoesOn(w, hidden, pending, ready, rest, order', pending', completed', before, uploaded, id, registry.uploaded);
      rest, order' := rest - {id}, order' + [id];
      pending', completed' := pending' - {id}, completed' + {id};
    }
    BoundedForFewer(start, registry.trace, pending', {}, attempts);
  }

  /** The loop of `main`: wave after wave until nothing is pending. */
  method PublishPending(w: Workspace, registry: Registry, attempts: int, hidden: set<Id>, first: set<Id>, ghost start: seq<Step>)
    returns (out: Outcome, order: seq<Id>)
    requires Closed(w) && registry.Sound(w) && first <= registry.uploaded
    requires Progress(w, hidden, [], hidden, first) && UploadsBounded(start, registry.trace, hidden, attempts)
    modifies registry
    ensures UploadsBounded(start, registry.trace, {}, attempts)
    ensures out == Failed ==> FailureShown(registry.trace, attempts)
    ensures registry.Went(w, 3 * |hidden|) && registry.uploaded <= old(registry.uploaded) + hidden
    ensures Distinct(order) && Topological(w, order, hidden)
    ensures forall id | id in order :: id in hidden && id in registry.uploaded
    ensures out == Done ==> w.Keys <= registry.uploaded && forall id | id in hidden :: id in order
    ensures out == CycleFound ==> HasCycle(w, hidden)
    ensures out == Killed ==> registry.script == []
    ensures out == Failed ==> !Cooperative(old(registry.script)) || attempts < 1
  {
    order := [];
    BoundedForFewer(start, registry.trace, hidden, {}, attempts);
    var pending, completed := hidden, first;
    while pending != {}
      invariant Progress(w, hidden, order, pending, completed)
      invariant completed <= registry.uploaded <= old(registry.uploaded) + hidden
      invariant |pending| <= |hidden| && registry.Went(w, 3 * (|hidden| - |pending|))
      invariant UploadsBounded(start, registry.trace, pending, attempts)
      invariant UploadsBounded(start, registry.trace, {}, attempts)
      decreases |pending|
    {
      var ready := set id | id in pending && w[id].deps <= completed;
      if ready == {} {
        NoneReady(w, hidden, order, pending, completed, ready);
        return CycleFound, order;
      }
      assert |pending - ready| == |pending| - |ready|;
      SubsetSize(ready, pending);
      out, order, pending, completed := PublishWave(w, registry, attempts, hidden, start, order, pending, completed, ready);
      if out != Done { return; }
    }
    out := Done;
  }

  /** `main`: publish, wave after wave, what depends only on what is completed. Whatever the
      world does, at every moment the registry can be installed, and a run that ends
      by itself says truly whether what it could not see has a dependency cycle. A run that fails
      has been given a reason by its last step, and no crate is uploaded more often than allowed. */
  method Run(w: Workspace, registry: Registry, attempts: int)
    returns (out: Outcome, hidden: set<Id>, order: seq<Id>)
    requires Closed(w) && registry.Sound(w)
    modifies registry
    ensures registry.Went(w, 4 * |w.Keys|) && hidden <= w.Keys
    ensures UploadsBounded(old(registry.trace), registry.trace, {}, attempts)
    ensures out == Failed ==> FailureShown(registry.trace, attempts)
    ensures registry.uploaded <= old(registry.uploaded) + hidden
    ensures Distinct(order) && Topological(w, order, hidden)
    ensures forall id | id in order :: id in hidden && id in registry.uploaded
    ensures out == Done ==>
              && (forall id | id in hidden :: id in order)
              && w.Keys <= registry.uploaded
              && !HasCycle(w, hidden)
    ensures out == CycleFound ==> HasCycle(w, hidden)
    ensures out == Killed ==> registry.script == []
    ensures out == Failed ==> !Cooperative(old(registry.script)) || attempts < 1
    ensures Cooperative(old(registry.script)) && out != Killed ==> hidden == w.Keys - old(registry.uploaded)
  {
    var alive, completed, pending := LookUpAll(w, registry, attempts);
    hidden := pending;
    SubsetSize(pending, w.Keys);
    BoundedForFewer(old(registry.trace), registry.trace, w.Keys, {}, attempts);
    if !alive { return Killed, hidden, []; }
    BoundedForFewer(old(registry.trace), registry.trace, w.Keys, pending, attempts);
    out, order := PublishPending(w, registry, attempts, pending, completed, old(registry.trace));
    if out == Done { OrderedMeansAcyclic(w, order, hidden); }
  }

  /** Transient failures and crates that are already there do not keep a package from being published. */
  method PublishAfterRetries(w: Workspace, registry: Registry, id: Id, attempts: int, ghost k: nat) returns (out: Outcome)
    requires registry.Sound(w) && id in w && w[id].deps <= registry.uploaded
    requires Recovers(registry.script, id, attempts, k, registry.uploaded)
    modifies registry
    ensures out == Done && id in registry.uploaded
  {
    ghost var script, uploaded, from, steps, n := registry.script, registry.uploaded, |registry.trace|, [], 0;
    out, steps, n := PublishPackage(w, registry, id, attempts);
    forall i | 0 <= i < |steps| ensures steps[i].event == script[i] {
      assert registry.trace[from + i] == steps[i];
    }
    RecoveredIsDone(steps, script, id, attempts, k, n, out, uploaded, registry.uploaded);
  }

  /** Where the world cooperates and the run is not killed, `main` ends well if and only if
      what the registry did not hold has no dependency cycle, and otherwise with the
      cycle error. */
  method RunUndisturbed(w: Workspace, registry: Registry, attempts: int)
    returns (out: Outcome, hidden: set<Id>, order: seq<Id>)
    requires Closed(w) && registry.Sound(w)
    requires Cooperative(registry.script) && attempts >= 1 && |registry.script| > 4 * |w.Keys|
    modifies registry
    ensures out == if HasCycle(w, w.Keys - old(registry.uploaded)) then CycleFound else Done
    ensures hidden == w.Keys - old(registry.uploaded)
    ensures Distinct(order) && Topological(w, order, hidden)
    ensures out == Done ==> w.Keys <= registry.uploaded && forall id :: id in order <==> id in hidden
  {
    out, hidden, order := Run(w, registry, attempts);
  }

  /** Run after run, each of them killed at any moment: the registry can be installed
      at every moment of all of them. */
  method RunAgainAndAgain(w: Workspace, registry: Registry, attempts: int, scripts: seq<seq<Event>>)
    returns (finished: bool)
    requires Closed(w) && registry.Sound(w)
    modifies registry
    ensures registry.Sound(w) && old(registry.history) <= registry.history
    ensures forall h | h in registry.history :: Installable(w, h)
    ensures old(registry.uploaded) <= registry.uploaded <= old(registry.uploaded) + w.Keys
    ensures finished ==> w.Keys <= registry.uploaded
  {
    finished := false;
    for k := 0 to |scripts|
      invariant registry.Sound(w) && old(registry.history) <= registry.history
      invariant old(registry.uploaded) <= registry.uploaded <= old(registry.uploaded) + w.Keys
      invariant finished ==> w.Keys <= registry.uploaded
    {
      registry.Restart(w, scripts[k]);
      var out, hidden, order := Run(w, registry, attempts);
      finished := finished || out == Done;
    }
  }
}

/** Whole runs of the IamPolicy controller: reconciles with faults, user edits, role events and
    out-of-band changes upstream, in any order. */
module PolicyWorld {
  import opened Common
  import opened PolicyStore
  import opened PolicyClient
  import opened UpstreamPolicies
  import opened PolicyReconciler
  import opened PolicyPass
  import opened SortedNames
  import Runs

  /** The cluster (policy objects, and the policy references of each role), the client with the
      service behind it, and the work queue. */
  datatype World = World(objects: map<string, PolicyObject>, roles: map<string, seq<string>>, cs: ClientState,
                         queue: set<string>)

  datatype WorldStep =
    | Reconcile(n: string, f: Faults)
    | CreateObject(n: string, spec: Spec, description: string, otherFinalizers: bool)
    | EditSpec(n: string, spec: Spec, description: string)
    | DeleteObject(n: string)
    | DropOtherFinalizers(n: string)
    | SetRole(role: string, refs: seq<string>)
    | RemoveRole(role: string)
    | UpstreamDelete(arn: string)
    | ForeignCreate(name: string, path: Option<string>, doc: Bytes, description: string)
    | CacheEvict(names: set<string>)

  function Referencing(roles: map<string, seq<string>>, n: string): set<string> {
    set r | r in roles && n in roles[r]
  }

  function Refs(roles: map<string, seq<string>>, role: string): set<string> {
    if role in roles then set n | n in roles[role] else {}
  }

  function Put(w: World, n: string, obj: Option<PolicyObject>): World {
    w.(objects := if obj.Some? then w.objects[n := obj.value] else w.objects - {n})
  }

  /** An event of the object puts its name on the queue. */
  function Enqueue(w: World, n: string): World {
    w.(queue := w.queue + {n})
  }

  /** A pass takes its name off the queue; an error puts it back. */
  ghost function ReconcileStep(w: World, env: Env, n: string, f: Faults): World {
    if n !in w.objects then w.(queue := w.queue - {n})
    else if f.get then w.(queue := w.queue + {n})
    else
      var p := ReconcileObject(env, n, w.objects[n], w.cs, Referencing(w.roles, n), f);
      Put(w, n, p.obj).(cs := p.cs, queue := w.queue - {n} + if p.ok then {} else {n})
  }

  ghost function Next(w: World, env: Env, step: WorldStep): World {
    match step
    case Reconcile(n, f) => ReconcileStep(w, env, n, f)
    case CreateObject(n, spec, description, others) =>
      if n in w.objects then w
      else w.(objects := w.objects[n := PolicyObject(spec, description, false, others, false, "", None, [])],
        queue := w.queue + {n})
    case EditSpec(n, spec, description) =>
      if n !in w.objects then w
      else Enqueue(Put(w, n, Some(w.objects[n].(spec := spec, description := description))), n)
    case DeleteObject(n) =>
      if n !in w.objects then w
      else
        var kept := w.objects[n].finalizer || w.objects[n].otherFinalizers;
        Enqueue(Put(w, n, if kept then Some(w.objects[n].(deleting := true)) else None), n)
    case DropOtherFinalizers(n) =>
      if n !in w.objects then w
      else
        var gone := w.objects[n].deleting && !w.objects[n].finalizer;
        Enqueue(Put(w, n, if gone then None else Some(w.objects[n].(otherFinalizers := false))), n)
    case SetRole(role, refs) =>
      w.(roles := w.roles[role := refs], queue := w.queue + Refs(w.roles, role) + set n | n in refs)
    case RemoveRole(role) =>
      w.(roles := w.roles - {role}, queue := w.queue + Refs(w.roles, role))
    case UpstreamDelete(arn) => w.(cs := w.cs.(store := DeletePolicy(w.cs.store, arn).0))
    case ForeignCreate(name, path, doc, description) =>
      w.(cs := w.cs.(store := CreatePolicy(w.cs.store, name, path, doc, description).0))
    case CacheEvict(names) => w.(cs := w.cs.(cache := w.cs.cache - names))
  }

  ghost function RunWorld(w: World, env: Env, steps: seq<WorldStep>): World {
    Runs.Run((v: World, step: WorldStep) => Next(v, env, step), w, steps)
  }

  function Start(prefix: string): World {
    World(map[], map[], ClientState(Empty(prefix), map[]), {})
  }

  /** Object names are Kubernetes names; other users of the account stay off the controller's path. */
  predicate Allowed(env: Env, step: WorldStep) {
    && (step.CreateObject? ==> GoodName(step.n))
    && (step.ForeignCreate? ==> SlashFree(step.name) && step.path != Some(env.path))
  }

  // ----- no orphan policy -----

  function Object(w: World, n: string): Option<PolicyObject> {
    if n in w.objects then Some(w.objects[n]) else None
  }

  predicate NameOk(w: World, env: Env, n: string) {
    && (n in w.objects ==> GoodName(n) && ArnRecorded(w.cs.store.prefix, env.path, n, w.objects[n]))
    && Guarded(env, n, Object(w, n), w.cs)
  }

  /** Upstream policies of the controller have an object with the finalizer, recorded ARNs are right,
      and the client with the service behind it is sound. */
  ghost predicate NoOrphans(w: World, env: Env) {
    && IsClientPath(env.path) && Sound(w.cs, env.path)
    && forall n {:trigger Marked(n)} :: Marked(n) ==> NameOk(w, env, n)
  }

  lemma OtherNamesStay(w: World, w': World, env: Env, n: string)
    requires NoOrphans(w, env) && Sound(w'.cs, env.path) && SameBut(w.cs.store, w'.cs.store, n)
    requires forall m {:trigger Marked(m)} :: Marked(m) && m != n ==> Object(w', m) == Object(w, m)
    requires NameOk(w', env, n)
    ensures NoOrphans(w', env)
  {
    forall m | Marked(m) ensures NameOk(w', env, m) {
      if m != n { assert NameOk(w, env, m); }
    }
  }

  lemma PutOnly(w: World, n: string, obj: Option<PolicyObject>)
    ensures Object(Put(w, n, obj), n) == obj
    ensures forall m {:trigger Marked(m)} :: Marked(m) && m != n ==> Object(Put(w, n, obj), m) == Object(w, m)
  {
  }

  lemma ReconcileNoOrphans(w: World, env: Env, n: string, f: Faults)
    requires NoOrphans(w, env)
    ensures NoOrphans(ReconcileStep(w, env, n, f), env)
  {
    assert Marked(n) && NameOk(w, env, n);
    var w' := ReconcileStep(w, env, n, f);
    if n in w.objects && !f.get {
      var refs := Referencing(w.roles, n);
      PassKeepsGuarded(env, n, w.objects[n], w.cs, refs, f);
      PutOnly(w, n, ReconcileObject(env, n, w.objects[n], w.cs, refs, f).obj);
      OtherNamesStay(w, w', env, n);
    } else {
      assert forall m {:trigger Marked(m)} :: Marked(m) && NameOk(w, env, m) ==> NameOk(w', env, m);
    }
  }

  lemma UserNoOrphans(w: World, env: Env, step: WorldStep)
    requires NoOrphans(w, env) && Allowed(env, step)
    requires step.CreateObject? || step.EditSpec? || step.DeleteObject? || step.DropOtherFinalizers?
    ensures NoOrphans(Next(w, env, step), env)
  {
    var n, w' := step.n, Next(w, env, step);
    assert Marked(n) && NameOk(w, env, n);
    assert forall m {:trigger Marked(m)} :: Marked(m) && m != n ==> Object(w', m) == Object(w, m);
    OtherNamesStay(w, w', env, n);
  }

  lemma UpstreamDeleteNoOrphans(w: World, env: Env, arn: string)
    requires NoOrphans(w, env)
    ensures NoOrphans(Next(w, env, UpstreamDelete(arn)), env)
  {
    DeletePolicyKeeps(w.cs.store, arn);
    var w' := Next(w, env, UpstreamDelete(arn));
    forall m | Marked(m) ensures NameOk(w', env, m) { assert NameOk(w, env, m); }
  }

  lemma ForeignCreateNoOrphans(w: World, env: Env, name: string, path: Option<string>, doc: Bytes, description: string)
    requires NoOrphans(w, env) && SlashFree(name) && path != Some(env.path)
    ensures NoOrphans(Next(w, env, ForeignCreate(name, path, doc, description)), env)
  {
    CreatePolicyKeeps(w.cs.store, name, path, doc, description);
    var w' := Next(w, env, ForeignCreate(name, path, doc, description));
    forall m | Marked(m) ensures NameOk(w', env, m) { assert NameOk(w, env, m); }
  }

  lemma StepNoOrphans(w: World, env: Env, step: WorldStep)
    requires NoOrphans(w, env) && Allowed(env, step)
    ensures NoOrphans(Next(w, env, step), env)
  {
    match step
    case Reconcile(n, f) => ReconcileNoOrphans(w, env, n, f);
    case CreateObject(_, _, _, _) => UserNoOrphans(w, env, step);
    case EditSpec(_, _, _) => UserNoOrphans(w, env, step);
    case DeleteObject(_) => UserNoOrphans(w, env, step);
    case DropOtherFinalizers(_) => UserNoOrphans(w, env, step);
    case UpstreamDelete(arn) => UpstreamDeleteNoOrphans(w, env, arn);
    case ForeignCreate(name, path, doc, description) => ForeignCreateNoOrphans(w, env, name, path, doc, description);
    case _ =>
      var w' := Next(w, env, step);
      forall m | Marked(m) ensures NameOk(w', env, m) { assert NameOk(w, env, m); }
  }

  /** No orphan policy: in every run, with any call of any pass failing, a policy at the controller's
      path exists upstream only while its object exists and holds the finalizer. */
  lemma {:induction false} NoOrphanPolicy(prefix: string, env: Env, steps: seq<WorldStep>)
    requires IsClientPath(env.path) && forall step :: step in steps ==> Allowed(env, step)
    ensures NoOrphans(RunWorld(Start(prefix), env, steps), env)
  {
    if steps != [] {
      NoOrphanPolicy(prefix, env, steps[..|steps| - 1]);
      StepNoOrphans(RunWorld(Start(prefix), env, steps[..|steps| - 1]), env, steps[|steps| - 1]);
    }
  }

  // ----- the recorded status -----

  predicate StatusAt(w: World, env: Env, n: string) {
    n in w.objects ==> StatusWhole(w.cs.store.prefix, env.path, n, w.objects[n])
  }

  ghost predicate Whole(w: World, env: Env) {
    forall n {:trigger Marked(n)} :: Marked(n) ==> StatusAt(w, env, n)
  }

  lemma FinalizeKeepsRoles(env: Env, n: string, o: PolicyObject, cs: ClientState, f: Faults)
    ensures var p := FinalizePass(env, n, o, cs, f);
      p.obj.Some? ==>
        && p.obj.value.attachedRoles == o.attachedRoles && p.obj.value.deleting == o.deleting
        && p.obj.value.arn == o.arn && p.obj.value.md5 == o.md5
  {
  }

  lemma ReconcileWhole(w: World, env: Env, n: string, f: Faults)
    requires NoOrphans(w, env) && Whole(w, env)
    ensures Whole(ReconcileStep(w, env, n, f), env)
  {
    var w' := ReconcileStep(w, env, n, f);
    assert Marked(n) && NameOk(w, env, n) && StatusAt(w, env, n);
    if n in w.objects && !f.get {
      var o, refs := w.objects[n], Referencing(w.roles, n);
      PassKeepsGuarded(env, n, o, w.cs, refs, f);
      if o.deleting { FinalizeKeepsRoles(env, n, o, w.cs, f); } else { LivePassStatus(env, n, o, w.cs, refs, f); }
    }
    forall m | Marked(m) ensures StatusAt(w', env, m) { assert StatusAt(w, env, m); }
  }

  lemma StepWhole(w: World, env: Env, step: WorldStep)
    requires NoOrphans(w, env) && Whole(w, env)
    ensures Whole(Next(w, env, step), env)
  {
    if step.Reconcile? {
      ReconcileWhole(w, env, step.n, step.f);
    } else {
      var w' := Next(w, env, step);
      forall m | Marked(m) ensures StatusAt(w', env, m) { assert StatusAt(w, env, m); }
    }
  }

  /** In every run, with any call failing, an object records a digest exactly when it records an ARN, and
      then it is the one the service gives its name at the controller's path. */
  lemma {:induction false} StatusRecordsArn(prefix: string, env: Env, steps: seq<WorldStep>)
    requires IsClientPath(env.path) && forall step :: step in steps ==> Allowed(env, step)
    ensures Whole(RunWorld(Start(prefix), env, steps), env)
  {
    if steps != [] {
      StatusRecordsArn(prefix, env, steps[..|steps| - 1]);
      NoOrphanPolicy(prefix, env, steps[..|steps| - 1]);
      StepWhole(RunWorld(Start(prefix), env, steps[..|steps| - 1]), env, steps[|steps| - 1]);
    }
  }

  // ----- the md5 gate over runs -----

  predicate GateAt(w: World, env: Env, n: string) {
    n in w.objects ==> GateHolds(env, n, w.objects[n], w.cs)
  }

  ghost predicate Gated(w: World, env: Env) {
    forall n {:trigger Marked(n)} :: Marked(n) ==> GateAt(w, env, n)
  }

  /** The run condition, on the state and the faults of a reconcile: it does not lose the gate. */
  ghost predicate KeepsGate(w: World, env: Env, step: WorldStep) {
    step.Reconcile? && step.n in w.objects && !step.f.get && !w.objects[step.n].deleting
      && Starts(w.objects[step.n], step.f)
    ==> !LosesGate(env, step.n, w.objects[step.n], w.cs, step.f)
  }

  ghost predicate KeepingRun(w: World, env: Env, steps: seq<WorldStep>) {
    steps == [] ||
    (KeepingRun(w, env, steps[..|steps| - 1])
     && KeepsGate(RunWorld(w, env, steps[..|steps| - 1]), env, steps[|steps| - 1]))
  }

  ghost predicate GatedSoFar(w: World, env: Env, steps: seq<WorldStep>) {
    Gated(RunWorld(w, env, steps), env) && (steps != [] ==> GatedSoFar(w, env, steps[..|steps| - 1]))
  }

  lemma OtherGatesStay(w: World, w': World, env: Env, n: string)
    requires Gated(w, env) && SameBut(w.cs.store, w'.cs.store, n) && GateAt(w', env, n)
    requires forall m {:trigger Marked(m)} :: Marked(m) && m != n ==> Object(w', m) == Object(w, m)
    ensures Gated(w', env)
  {
    forall m | Marked(m) ensures GateAt(w', env, m) {
      if m != n { assert GateAt(w, env, m); }
    }
  }

  lemma FinalizeGate(env: Env, n: string, o: PolicyObject, cs: ClientState, f: Faults)
    requires Ready(env, n, o, cs) && GateHolds(env, n, o, cs)
    ensures var p := FinalizePass(env, n, o, cs, f); p.obj.Some? ==> GateHolds(env, n, p.obj.value, p.cs)
  {
    var ask := OptionsAsk(n, o, cs.store.prefix, env.path);
    GetSees(cs, env.path, ask, n, f.read);
    var r := Get(cs, env.path, ask, f.read).1;
    if r.Ok? {
      SeenHasArn(cs.store, env.path, n);
      ReadSees(cs.store, env.path, n);
      DeleteRemoves(cs.store, env.path, n, f.delete);
    }
  }

  lemma ReconcileGated(w: World, env: Env, n: string, f: Faults)
    requires NoOrphans(w, env) && Gated(w, env)
    ensures Gated(ReconcileStep(w, env, n, f), env) <==> KeepsGate(w, env, Reconcile(n, f))
  {
    assert Marked(n) && NameOk(w, env, n) && GateAt(w, env, n);
    var w' := ReconcileStep(w, env, n, f);
    if n in w.objects && !f.get {
      var o, refs := w.objects[n], Referencing(w.roles, n);
      PassKeepsGuarded(env, n, o, w.cs, refs, f);
      PutOnly(w, n, ReconcileObject(env, n, o, w.cs, refs, f).obj);
      if o.deleting { FinalizeGate(env, n, o, w.cs, f); } else { GateLostExactly(env, n, o, w.cs, refs, f); }
      if GateAt(w', env, n) { OtherGatesStay(w, w', env, n); }
    } else {
      forall m | Marked(m) ensures GateAt(w', env, m) { assert GateAt(w, env, m); }
    }
  }

  /** Steps other than a reconcile show no document upstream that was not shown before. */
  lemma OutsideStepShows(w: World, env: Env, step: WorldStep, m: string)
    requires NoOrphans(w, env) && Allowed(env, step) && !step.Reconcile?
    ensures
      var seen := Seen(Next(w, env, step).cs.store, env.path, m);
      seen.Ok? ==> seen == Seen(w.cs.store, env.path, m)
  {
  }

  lemma StepGated(w: World, env: Env, step: WorldStep)
    requires NoOrphans(w, env) && Gated(w, env) && Allowed(env, step)
    ensures Gated(Next(w, env, step), env) <==> KeepsGate(w, env, step)
  {
    if step.Reconcile? {
      ReconcileGated(w, env, step.n, step.f);
    } else {
      var w' := Next(w, env, step);
      forall m | Marked(m) ensures GateAt(w', env, m) {
        assert GateAt(w, env, m);
        OutsideStepShows(w, env, step, m);
        if m in w'.objects { ObjectDigestStays(w, env, step, m); }
      }
    }
  }

  lemma ObjectDigestStays(w: World, env: Env, step: WorldStep, m: string)
    requires !step.Reconcile? && m in Next(w, env, step).objects
    ensures
      var o' := Next(w, env, step).objects[m];
      o'.md5.None? || (m in w.objects && o'.md5 == w.objects[m].md5)
  {
  }

  /** Gate safety: throughout a run a recorded digest describes what upstream shows, exactly when no
      reconcile of it meets the condition under which a pass loses the gate. */
  lemma {:induction false} GateSafety(prefix: string, env: Env, steps: seq<WorldStep>)
    requires IsClientPath(env.path) && forall step :: step in steps ==> Allowed(env, step)
    ensures GatedSoFar(Start(prefix), env, steps) <==> KeepingRun(Start(prefix), env, steps)
  {
    if steps != [] {
      var init := steps[..|steps| - 1];
      GateSafety(prefix, env, init);
      NoOrphanPolicy(prefix, env, init);
      if Gated(RunWorld(Start(prefix), env, init), env) {
        StepGated(RunWorld(Start(prefix), env, init), env, steps[|steps| - 1]);
      }
    }
  }

  /** A pass over a live object stores no spec raw that then reads as another document. */
  predicate StoresFaithfully(w: World, env: Env, n: string, f: Faults)
    requires n in w.objects
  {
    Rotates(env, n, w.objects[n], w.cs, f) ==> Survives(env, Serialized(env, w.objects[n]))
  }

  /** Convergence: after any run that kept the gate, a pass over a live object that returns without error
      leaves upstream showing the serialized spec with its digest and the policy's ARN recorded, and the
      next faultless pass changes neither the object nor upstream. */
  lemma RunConverges(prefix: string, env: Env, steps: seq<WorldStep>, n: string, f: Faults)
    requires IsClientPath(env.path) && forall step :: step in steps ==> Allowed(env, step)
    requires KeepingRun(Start(prefix), env, steps)
    requires
      var w := RunWorld(Start(prefix), env, steps);
      && n in w.objects && !w.objects[n].deleting && StoresFaithfully(w, env, n, f) && !f.get && !f.list
      && LivePass(env, n, w.objects[n], w.cs, Referencing(w.roles, n), f).ok
    ensures
      var w := RunWorld(Start(prefix), env, steps);
      var w1 := Next(w, env, Reconcile(n, f));
      var w2 := Next(w1, env, Reconcile(n, NO_FAULTS));
      && n in w1.objects && n !in w1.queue && Converged(env, n, w1.objects[n], w1.cs)
      && w1.objects[n].arn == PolicyArn(w.cs.store.prefix, env.path, n)
      && w2.objects == w1.objects && w2.cs.store == w1.cs.store && w2.queue == w1.queue
  {
    var w := RunWorld(Start(prefix), env, steps);
    GateSafety(prefix, env, steps);
    NoOrphanPolicy(prefix, env, steps);
    StatusRecordsArn(prefix, env, steps);
    ConvergesFrom(w, env, n, f);
  }

  lemma ConvergesFrom(w: World, env: Env, n: string, f: Faults)
    requires NoOrphans(w, env) && Gated(w, env) && Whole(w, env) && n in w.objects && !w.objects[n].deleting
    requires StoresFaithfully(w, env, n, f) && !f.get && !f.list
    requires LivePass(env, n, w.objects[n], w.cs, Referencing(w.roles, n), f).ok
    ensures
      var w1 := ReconcileStep(w, env, n, f);
      var w2 := ReconcileStep(w1, env, n, NO_FAULTS);
      && n in w1.objects && n !in w1.queue && Converged(env, n, w1.objects[n], w1.cs)
      && w1.objects[n].arn == PolicyArn(w.cs.store.prefix, env.path, n)
      && w2.objects == w1.objects && w2.cs.store == w1.cs.store && w2.queue == w1.queue
  {
    var o, refs := w.objects[n], Referencing(w.roles, n);
    assert Marked(n) && NameOk(w, env, n) && GateAt(w, env, n) && StatusAt(w, env, n);
    ErrorFreePassConverges(env, n, o, w.cs, refs, f);
    LivePassStatus(env, n, o, w.cs, refs, f);
    PassSyncsRoles(env, n, o, w.cs, refs, f);
    LivePassKeeps(env, n, o, w.cs, refs, f);
    LivePassKeepsDeleting(env, n, o, w.cs, refs, f);
    var p := LivePass(env, n, o, w.cs, refs, f);
    ConvergedPassIsQuiet(env, n, p.obj.value, p.cs, refs);
    var w1 := ReconcileStep(w, env, n, f);
    assert w1.objects[n := p.obj.value] == w1.objects;
  }

  lemma LivePassKeepsDeleting(env: Env, n: string, o: PolicyObject, cs: ClientState, referenced: set<string>, f: Faults)
    ensures var p := LivePass(env, n, o, cs, referenced, f); p.obj.Some? && p.obj.value.deleting == o.deleting
  {
    UpstreamHalfKeepsFields(env, n, o.(finalizer := true), cs, f);
  }

  // ----- progress -----

  /** After any run, a reconcile of a live object with nothing failing in its role half leaves it off the
      queue exactly when its upstream half gets through, and then the ARN and the digest are recorded and
      the recorded roles are exactly those that reference it. */
  lemma RunProgresses(prefix: string, env: Env, steps: seq<WorldStep>, n: string, f: Faults)
    requires IsClientPath(env.path) && forall step :: step in steps ==> Allowed(env, step)
    requires
      var w := RunWorld(Start(prefix), env, steps);
      n in w.objects && !w.objects[n].deleting && !f.get && !f.list && !f.syncPatch
    ensures
      var w := RunWorld(Start(prefix), env, steps);
      var w1 := Next(w, env, Reconcile(n, f));
      && n in w1.objects
      && (n !in w1.queue <==> Starts(w.objects[n], f) && UpstreamSucceeds(env, n, w.objects[n], w.cs, f))
      && (n !in w1.queue ==>
            && w1.objects[n].arn == PolicyArn(prefix, env.path, n)
            && w1.objects[n].md5 == Some(Digest(Serialized(env, w.objects[n])))
            && (set r | r in w1.objects[n].attachedRoles) == (set r | r in w.roles && n in w.roles[r]))
  {
    var w := RunWorld(Start(prefix), env, steps);
    NoOrphanPolicy(prefix, env, steps);
    StatusRecordsArn(prefix, env, steps);
    PrefixStays(prefix, env, steps);
    assert Marked(n) && NameOk(w, env, n) && StatusAt(w, env, n);
    ProgressFrom(w, env, n, f);
  }

  lemma {:induction false} PrefixStays(prefix: string, env: Env, steps: seq<WorldStep>)
    requires IsClientPath(env.path) && forall step :: step in steps ==> Allowed(env, step)
    ensures RunWorld(Start(prefix), env, steps).cs.store.prefix == prefix
  {
    if steps != [] {
      var w, step := RunWorld(Start(prefix), env, steps[..|steps| - 1]), steps[|steps| - 1];
      PrefixStays(prefix, env, steps[..|steps| - 1]);
      NoOrphanPolicy(prefix, env, steps[..|steps| - 1]);
      if step.Reconcile? && step.n in w.objects && !step.f.get {
        assert Marked(step.n) && NameOk(w, env, step.n);
        PassKeepsGuarded(env, step.n, w.objects[step.n], w.cs, Referencing(w.roles, step.n), step.f);
      }
    }
  }

  lemma ProgressFrom(w: World, env: Env, n: string, f: Faults)
    requires IsClientPath(env.path) && Sound(w.cs, env.path) && NameOk(w, env, n) && StatusAt(w, env, n)
    requires n in w.objects && !w.objects[n].deleting && !f.get && !f.list && !f.syncPatch
    ensures
      var w1 := ReconcileStep(w, env, n, f);
      && n in w1.objects
      && (n !in w1.queue <==> Starts(w.objects[n], f) && UpstreamSucceeds(env, n, w.objects[n], w.cs, f))
      && (n !in w1.queue ==>
            && w1.objects[n].arn == PolicyArn(w.cs.store.prefix, env.path, n)
            && w1.objects[n].md5 == Some(Digest(Serialized(env, w.objects[n])))
            && (set r | r in w1.objects[n].attachedRoles) == Referencing(w.roles, n))
  {
    LivePassExactly(env, n, w.objects[n], w.cs, Referencing(w.roles, n), f);
    var l := LivePass(env, n, w.objects[n], w.cs, Referencing(w.roles, n), f).obj.value.attachedRoles;
    if ListOf(l, Referencing(w.roles, n)) { assert (set r | r in l) == Referencing(w.roles, n); }
  }

  /** After any run, one faultless reconcile of a deleting object that holds the finalizer takes it off the
      queue exactly when upstream holds nothing of the name or a policy that reads; then nothing of the
      name is left upstream, and the object is gone, or without the finalizer if others hold it. */
  lemma RunFinalizes(prefix: string, env: Env, steps: seq<WorldStep>, n: string)
    requires IsClientPath(env.path) && forall step :: step in steps ==> Allowed(env, step)
    requires
      var w := RunWorld(Start(prefix), env, steps);
      n in w.objects && w.objects[n].deleting && w.objects[n].finalizer
    ensures
      var w := RunWorld(Start(prefix), env, steps);
      var w1 := Next(w, env, Reconcile(n, NO_FAULTS));
      && SameBut(w.cs.store, w1.cs.store, n)
      && (n !in w1.queue <==> At(w.cs.store, env.path, n).None? || Seen(w.cs.store, env.path, n).Ok?)
      && (n !in w1.queue ==>
            && At(w1.cs.store, env.path, n).None?
            && w1.objects == if w.objects[n].otherFinalizers then w.objects[n := w.objects[n].(finalizer := false)]
                             else w.objects - {n})
      && (n in w1.queue ==> w1.objects == w.objects)
  {
    var w := RunWorld(Start(prefix), env, steps);
    NoOrphanPolicy(prefix, env, steps);
    assert Marked(n) && NameOk(w, env, n);
    FinalizePassExactly(env, n, w.objects[n], w.cs, NO_FAULTS);
    assert w.objects[n := w.objects[n]] == w.objects;
  }

  // ----- what is off the queue -----

  /** An object off the queue needs no pass: a live one records the status of its present spec, a deleting
      one has given up the finalizer. */
  predicate RestsAt(w: World, env: Env, n: string) {
    n in w.objects && n !in w.queue ==>
      var o := w.objects[n];
      if o.deleting then !o.finalizer
      else && o.finalizer && o.arn == PolicyArn(w.cs.store.prefix, env.path, n)
           && o.md5 == Some(Digest(Serialized(env, o)))
  }

  ghost predicate Resting(w: World, env: Env) {
    forall n {:trigger Marked(n)} :: Marked(n) ==> RestsAt(w, env, n)
  }

  lemma OkLivePassRests(env: Env, n: string, o: PolicyObject, cs: ClientState, referenced: set<string>, f: Faults)
    requires Ready(env, n, o, cs) && StatusWhole(cs.store.prefix, env.path, n, o)
    requires LivePass(env, n, o, cs, referenced, f).ok
    ensures
      var obj := LivePass(env, n, o, cs, referenced, f).obj;
      && obj.Some? && obj.value.finalizer && obj.value.arn == PolicyArn(cs.store.prefix, env.path, n)
      && obj.value.md5 == Some(Digest(Serialized(env, obj.value)))
  {
    LivePassExactly(env, n, o, cs, referenced, f);
  }

  lemma ReconcileRests(w: World, env: Env, n: string, f: Faults)
    requires NoOrphans(w, env) && Whole(w, env) && Resting(w, env)
    ensures Resting(ReconcileStep(w, env, n, f), env)
  {
    var w' := ReconcileStep(w, env, n, f);
    assert Marked(n) && NameOk(w, env, n) && StatusAt(w, env, n) && RestsAt(w, env, n);
    if n in w.objects && !f.get {
      var o, refs := w.objects[n], Referencing(w.roles, n);
      PassKeepsGuarded(env, n, o, w.cs, refs, f);
      if o.deleting {
        FinalizeKeepsRoles(env, n, o, w.cs, f);
        if o.finalizer { FinalizePassExactly(env, n, o, w.cs, f); }
      } else {
        LivePassKeepsDeleting(env, n, o, w.cs, refs, f);
        if LivePass(env, n, o, w.cs, refs, f).ok { OkLivePassRests(env, n, o, w.cs, refs, f); }
      }
    }
    forall m | Marked(m) ensures RestsAt(w', env, m) { assert RestsAt(w, env, m); }
  }

  lemma StepRests(w: World, env: Env, step: WorldStep)
    requires NoOrphans(w, env) && Whole(w, env) && Resting(w, env)
    ensures Resting(Next(w, env, step), env)
  {
    if step.Reconcile? {
      ReconcileRests(w, env, step.n, step.f);
    } else {
      var w' := Next(w, env, step);
      forall m | Marked(m) ensures RestsAt(w', env, m) { assert RestsAt(w, env, m); }
    }
  }

  lemma {:induction false} RunRests(prefix: string, env: Env, steps: seq<WorldStep>)
    requires IsClientPath(env.path) && forall step :: step in steps ==> Allowed(env, step)
    ensures Resting(RunWorld(Start(prefix), env, steps), env)
  {
    if steps != [] {
      RunRests(prefix, env, steps[..|steps| - 1]);
      NoOrphanPolicy(prefix, env, steps[..|steps| - 1]);
      StatusRecordsArn(prefix, env, steps[..|steps| - 1]);
      StepRests(RunWorld(Start(prefix), env, steps[..|steps| - 1]), env, steps[|steps| - 1]);
    }
  }

  /** Off the queue, cluster and upstream agree: after any run, with any call failing, a policy at the
      controller's path whose name is not queued has a live object, and after a run that kept the gate it
      shows that object's spec, with the digest recorded. */
  lemma UnqueuedIsSynced(prefix: string, env: Env, steps: seq<WorldStep>, n: string)
    requires IsClientPath(env.path) && forall step :: step in steps ==> Allowed(env, step)
    requires n !in RunWorld(Start(prefix), env, steps).queue
    ensures
      var w := RunWorld(Start(prefix), env, steps);
      && (At(w.cs.store, env.path, n).Some? ==> n in w.objects && !w.objects[n].deleting)
      && (Seen(w.cs.store, env.path, n).Ok? && KeepingRun(Start(prefix), env, steps) ==>
            n in w.objects && Converged(env, n, w.objects[n], w.cs))
  {
    var w := RunWorld(Start(prefix), env, steps);
    RunRests(prefix, env, steps);
    NoOrphanPolicy(prefix, env, steps);
    GateSafety(prefix, env, steps);
    assert Marked(n) && NameOk(w, env, n) && RestsAt(w, env, n);
    if KeepingRun(Start(prefix), env, steps) { assert GateAt(w, env, n); }
  }

  // ----- the inverse index -----

  predicate RolesListed(w: World, n: string) {
    n in w.objects ==>
      && Sorted(w.objects[n].attachedRoles)
      && (!w.objects[n].deleting && n !in w.queue ==>
            (set r | r in w.objects[n].attachedRoles) == Referencing(w.roles, n))
  }

  ghost predicate IndexInverse(w: World) {
    forall n {:trigger Marked(n)} :: Marked(n) ==> RolesListed(w, n)
  }

  predicate ListsSucceed(step: WorldStep) {
    step.Reconcile? ==> !step.f.list
  }

  lemma ReconcileIndexInverse(w: World, env: Env, n: string, f: Faults)
    requires IndexInverse(w) && !f.list
    ensures IndexInverse(ReconcileStep(w, env, n, f))
  {
    var w' := ReconcileStep(w, env, n, f);
    forall m | Marked(m) ensures RolesListed(w', m) {
      assert RolesListed(w, m) && RolesListed(w, n) by { assert Marked(n); }
      if n in w.objects && !f.get && m == n {
        var o, refs := w.objects[n], Referencing(w.roles, n);
        if o.deleting {
          FinalizeKeepsRoles(env, n, o, w.cs, f);
        } else {
          PassSyncsRoles(env, n, o, w.cs, refs, f);
          LivePassKeepsDeleting(env, n, o, w.cs, refs, f);
        }
      }
    }
  }

  /** A role event leaves the references of every policy it does not name. */
  lemma RoleEventReferences(roles: map<string, seq<string>>, role: string, refs: seq<string>, n: string)
    requires n !in Refs(roles, role)
    ensures n !in refs ==> Referencing(roles[role := refs], n) == Referencing(roles, n)
    ensures Referencing(roles - {role}, n) == Referencing(roles, n)
  {
  }

  lemma StepIndexInverse(w: World, env: Env, step: WorldStep)
    requires IndexInverse(w) && ListsSucceed(step)
    ensures IndexInverse(Next(w, env, step))
  {
    if step.Reconcile? {
      ReconcileIndexInverse(w, env, step.n, step.f);
    } else {
      var w' := Next(w, env, step);
      forall m | Marked(m) ensures RolesListed(w', m) {
        assert RolesListed(w, m);
        match step
        case SetRole(role, refs) => if m !in w'.queue { RoleEventReferences(w.roles, role, refs, m); }
        case RemoveRole(role) => if m !in w'.queue { RoleEventReferences(w.roles, role, [], m); }
        case _ =>
      }
    }
  }

  /** Inverse index: when list calls succeed, in every reachable state each live policy that is not
      queued records exactly the roles that reference it, sorted and without duplicates. */
  lemma {:induction false} AttachedRolesInverse(prefix: string, env: Env, steps: seq<WorldStep>)
    requires forall step :: step in steps ==> ListsSucceed(step)
    ensures IndexInverse(RunWorld(Start(prefix), env, steps))
  {
    if steps != [] {
      AttachedRolesInverse(prefix, env, steps[..|steps| - 1]);
      StepIndexInverse(RunWorld(Start(prefix), env, steps[..|steps| - 1]), env, steps[|steps| - 1]);
    }
  }
}

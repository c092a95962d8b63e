/** Whole runs of the IamRole controller: reconciles with faults, user edits and out-of-band changes
    upstream, in any order. */
module RoleWorld {
  import opened Common
  import opened Runs
  import opened RoleStore
  import opened TrustPolicy
  import opened BindManager
  import opened RoleAttachments
  import opened RoleReconciler
  import opened RolePass
  import RC = RoleClient

  /** The cluster's IamRole objects, the service's roles, and which of those the controller created. */
  datatype World = World(objects: map<string, RoleObject>, rs: RoleState, created: set<string>)

  /** A reconcile meets any policies and bindings whatever. */
  datatype WorldStep =
    | Reconcile(n: string, sur: Surroundings, f: RoleFaults)
    | CreateObject(n: string, refs: seq<string>, maxDuration: int, otherFinalizers: bool)
    | EditSpec(n: string, refs: seq<string>, maxDuration: int)
    | DeleteObject(n: string)
    | DropOtherFinalizers(n: string)
    | UpstreamDelete(n: string)
    | ForeignCreate(n: string, doc: Option<Bytes>, path: Option<string>)
    | ForeignAttach(n: string, index: map<string, string>, arn: string)
    | ForeignDetach(n: string, arn: string)

  function Put(w: World, n: string, obj: Option<RoleObject>): World {
    w.(objects := if obj.Some? then w.objects[n := obj.value] else w.objects - {n})
  }

  /** Roles that appear during a reconcile are the controller's; one that goes is nobody's. */
  function WithRoles(w: World, rs: RoleState, byController: bool): World {
    w.(rs := rs, created := (w.created + if byController then rs.roles.Keys - w.rs.roles.Keys else {}) * rs.roles.Keys)
  }

  ghost function ReconcileStep(w: World, env: RoleEnv, n: string, sur: Surroundings, f: RoleFaults): World {
    if n !in w.objects || f.get then w
    else
      var p := ReconcileRole(env, n, w.objects[n], w.rs, sur, f);
      WithRoles(Put(w, n, p.obj), p.rs, true)
  }

  ghost function Next(w: World, env: RoleEnv, step: WorldStep): World {
    match step
    case Reconcile(n, sur, f) => ReconcileStep(w, env, n, sur, f)
    case CreateObject(n, refs, maxDuration, others) =>
      if n in w.objects then w else Put(w, n, Some(RoleObject(refs, maxDuration, false, others, false, "", [])))
    case EditSpec(n, refs, maxDuration) =>
      if n !in w.objects then w else Put(w, n, Some(w.objects[n].(refs := refs, maxDuration := maxDuration)))
    case DeleteObject(n) =>
      if n !in w.objects then w
      else
        var kept := w.objects[n].finalizer || w.objects[n].otherFinalizers;
        Put(w, n, if kept then Some(w.objects[n].(deleting := true)) else None)
    case DropOtherFinalizers(n) =>
      if n !in w.objects then w
      else
        var gone := w.objects[n].deleting && !w.objects[n].finalizer;
        Put(w, n, if gone then None else Some(w.objects[n].(otherFinalizers := false)))
    case UpstreamDelete(n) => WithRoles(w, DeleteRole(w.rs, n).0, false)
    case ForeignCreate(n, doc, path) => WithRoles(w, CreateRole(w.rs, n, doc, path, None, None).0, false)
    case ForeignAttach(n, index, arn) => WithRoles(w, AttachRolePolicy(w.rs, index, n, arn).0, false)
    case ForeignDetach(n, arn) => WithRoles(w, DetachRolePolicy(w.rs, n, arn).0, false)
  }

  ghost function RunWorld(w: World, env: RoleEnv, steps: seq<WorldStep>): World {
    Run((v: World, step: WorldStep) => Next(v, env, step), w, steps)
  }

  function Start(prefix: string): World {
    World(map[], RoleState(prefix, map[], map[]), {})
  }

  // ----- no orphan role -----

  /** A role the controller created has its object, which holds the finalizer. */
  predicate Owned(w: World, n: string) {
    n in w.created ==> n in w.rs.roles && n in w.objects && w.objects[n].finalizer
  }

  ghost predicate NoOrphans(w: World) {
    forall n {:trigger Marked(n)} :: Marked(n) ==> Owned(w, n)
  }

  lemma OtherRoleStays(a: RoleState, b: RoleState, n: string, m: string)
    requires a.roles - {n} == b.roles - {n} && m != n
    ensures m in a.roles <==> m in b.roles
    ensures RC.ReadRole(a, m) == RC.ReadRole(b, m)
  {
    RC.OtherRolesRead(a, b, n, m);
    assert m in a.roles <==> m in a.roles - {n};
    assert m in b.roles <==> m in b.roles - {n};
  }

  lemma ReconcileOwned(w: World, env: RoleEnv, n: string, sur: Surroundings, f: RoleFaults, m: string)
    requires NoOrphans(w) && n in w.objects && !f.get
    ensures Owned(ReconcileStep(w, env, n, sur, f), m)
  {
    var o := w.objects[n];
    var p := ReconcileRole(env, n, o, w.rs, sur, f);
    assert Marked(m) && Owned(w, m);
    if o.deleting { FinalizePassKeeps(n, o, w.rs, f); } else { LivePassKeeps(env, n, o, w.rs, sur, f); }
    if m != n { OtherRoleStays(w.rs, p.rs, n, m); }
  }

  lemma StepNoOrphans(w: World, env: RoleEnv, step: WorldStep)
    requires NoOrphans(w)
    ensures NoOrphans(Next(w, env, step))
  {
    var w' := Next(w, env, step);
    forall m | Marked(m) ensures Owned(w', m) {
      assert Owned(w, m);
      if step.Reconcile? && step.n in w.objects && !step.f.get { ReconcileOwned(w, env, step.n, step.sur, step.f, m); }
    }
  }

  /** No orphan role: in every run, with any call of any pass failing and whatever the trust documents
      hold, a role the controller created exists only while its object exists and holds the finalizer. */
  lemma {:induction false} NoOrphanRole(prefix: string, env: RoleEnv, steps: seq<WorldStep>)
    ensures NoOrphans(RunWorld(Start(prefix), env, steps))
  {
    if steps != [] {
      NoOrphanRole(prefix, env, steps[..|steps| - 1]);
      StepNoOrphans(RunWorld(Start(prefix), env, steps[..|steps| - 1]), env, steps[|steps| - 1]);
    }
  }

  // ----- the trust documents over runs -----

  /** The step is a pass over the object `n` whose bind call lands. */
  predicate Binds(w: World, env: RoleEnv, step: WorldStep, n: string) {
    && step.Reconcile? && step.n == n && n in w.objects && !step.f.get && !w.objects[n].deleting
    && ReachesBind(env, n, w.objects[n], w.rs, step.f) && Lands(step.f.bind)
  }

  /** The subject lists of the passes whose bind call landed since the controller created the role. */
  ghost function Bound(prefix: string, env: RoleEnv, steps: seq<WorldStep>, n: string): seq<seq<Subject>> {
    if steps == [] || n !in RunWorld(Start(prefix), env, steps).created then []
    else
      var init, step := steps[..|steps| - 1], steps[|steps| - 1];
      var before := Bound(prefix, env, init, n);
      if Binds(RunWorld(Start(prefix), env, init), env, step, n) then before + [step.sur.subjects] else before
  }

  lemma ReconcileShows(w: World, env: RoleEnv, n: string, sur: Surroundings, f: RoleFaults, m: string, d: Document)
    requires RoundTrips(env.codec) && n in w.objects && !f.get && m in ReconcileStep(w, env, n, sur, f).created
    requires
      if m in w.created then ShowsDocument(w.rs, env.codec, m, d) else env.codec.parse(env.defaultPolicy) == Some(d)
    ensures
      var now := if Binds(w, env, Reconcile(n, sur, f), m) then Upstream(d, RoleSid(m), env.oidcArn, sur.subjects)
                 else d;
      ShowsDocument(ReconcileStep(w, env, n, sur, f).rs, env.codec, m, now)
  {
    var o := w.objects[n];
    var p := ReconcileRole(env, n, o, w.rs, sur, f);
    if o.deleting { FinalizePassKeeps(n, o, w.rs, f); } else { LivePassKeeps(env, n, o, w.rs, sur, f); }
    if m != n {
      OtherRoleStays(w.rs, p.rs, n, m);
    } else if !o.deleting {
      LivePassBinds(env, n, o, w.rs, sur, f, d);
    }
  }

  /** Steps of others leave a created role its document, or take the role away. */
  lemma OtherStepShows(w: World, env: RoleEnv, step: WorldStep, m: string)
    requires !step.Reconcile? && m in Next(w, env, step).created && m in w.rs.roles
    ensures m in w.created && RC.ReadRole(Next(w, env, step).rs, m) == RC.ReadRole(w.rs, m)
  {
  }

  /** Throughout a run, with any call failing, a role the controller created shows exactly the document
      that the bind calls that landed since its creation make of the default policy. */
  lemma {:induction false} TrustFollowsBinds(prefix: string, env: RoleEnv, d0: Document, steps: seq<WorldStep>,
                                             n: string)
    requires DefaultOk(env, d0)
    ensures
      var w := RunWorld(Start(prefix), env, steps);
      n in w.created ==>
        ShowsDocument(w.rs, env.codec, n, RunBinds(d0, RoleSid(n), env.oidcArn, Bound(prefix, env, steps, n)))
  {
    var w' := RunWorld(Start(prefix), env, steps);
    if steps != [] && n in w'.created {
      var init, step := steps[..|steps| - 1], steps[|steps| - 1];
      var w, calls := RunWorld(Start(prefix), env, init), Bound(prefix, env, init, n);
      TrustFollowsBinds(prefix, env, d0, init, n);
      NoOrphanRole(prefix, env, init);
      assert Marked(n) && Owned(w, n);
      var d := RunBinds(d0, RoleSid(n), env.oidcArn, calls);
      if step.Reconcile? {
        if step.n in w.objects && !step.f.get { ReconcileShows(w, env, step.n, step.sur, step.f, n, d); }
        if Binds(w, env, step, n) { assert (calls + [step.sur.subjects])[..|calls|] == calls; }
      } else {
        OtherStepShows(w, env, step, n);
      }
    }
  }

  /** So it grants, through the managed statement, exactly the accounts in force: those of the first such
      call since the last one without accounts. */
  lemma RoleGrantsAccountsInForce(prefix: string, env: RoleEnv, d0: Document, steps: seq<WorldStep>, n: string,
                                  context: map<string, string>)
    requires DefaultOk(env, d0) && Labelled(d0.statements, RoleSid(n)) == []
    requires n in RunWorld(Start(prefix), env, steps).created
    ensures
      var role := RC.ReadRole(RunWorld(Start(prefix), env, steps).rs, n);
      role.Ok? &&
      var u := env.codec.parse(role.value.trustPolicy);
      && u.Some? && Others(u.value.statements, RoleSid(n)) == Others(d0.statements, RoleSid(n))
      && (GrantsThrough(u.value, RoleSid(n), env.oidcArn, context)
          <==> SpeaksFor(env.oidcArn, InForce(Bound(prefix, env, steps, n)), context))
  {
    TrustFollowsBinds(prefix, env, d0, steps, n);
    UpstreamIsInForce(d0, RoleSid(n), env.oidcArn, Bound(prefix, env, steps, n));
    RunGrants(d0, RoleSid(n), env.oidcArn, Bound(prefix, env, steps, n), context);
  }

  /** In every run, with any call failing, the trust document of a role the controller created has the
      statements of the default policy, in order, and at most one managed statement. */
  lemma TrustKeepsItsShape(prefix: string, env: RoleEnv, d0: Document, steps: seq<WorldStep>, n: string)
    requires DefaultOk(env, d0) && |Labelled(d0.statements, RoleSid(n))| <= 1
    requires n in RunWorld(Start(prefix), env, steps).created
    ensures exists d :: ShowsDocument(RunWorld(Start(prefix), env, steps).rs, env.codec, n, d) && TrustShape(d, d0, n)
  {
    TrustFollowsBinds(prefix, env, d0, steps, n);
    BindsKeepShape(d0, n, env.oidcArn, Bound(prefix, env, steps, n));
  }

  /** In every run, a reconcile takes the finalizer off, or lets the object go, only when the upstream
      role is gone, and a reconcile of a deleting object creates no role. */
  lemma FinalizerGoesLast(w: World, env: RoleEnv, n: string, sur: Surroundings, f: RoleFaults)
    requires n in w.objects
    ensures
      var w' := Next(w, env, Reconcile(n, sur, f));
      && (w.objects[n].finalizer && (n !in w'.objects || !w'.objects[n].finalizer) ==> n !in w'.rs.roles)
      && (w.objects[n].deleting ==> w'.rs.roles.Keys <= w.rs.roles.Keys && w'.created <= w.created)
  {
    var o := w.objects[n];
    if !f.get {
      if o.deleting { FinalizePassKeeps(n, o, w.rs, f); } else { LivePassKeeps(env, n, o, w.rs, sur, f); }
    }
  }

  /** After any run, two faultless reconciles of a live object of the controller's role: the first
      succeeds, the second changes nothing at all. */
  lemma RunConverges(prefix: string, env: RoleEnv, d0: Document, steps: seq<WorldStep>, n: string, sur: Surroundings)
    requires DefaultOk(env, d0) && |Labelled(d0.statements, RoleSid(n))| <= 1 && StatusNames(sur.policies) && n != ""
    requires
      var w := RunWorld(Start(prefix), env, steps);
      n in w.objects && !w.objects[n].deleting && (n in w.rs.roles ==> n in w.created)
    ensures
      var w1 := Next(RunWorld(Start(prefix), env, steps), env, Reconcile(n, sur, NO_ROLE_FAULTS));
      && n in w1.objects && n in w1.created && Settled(env, n, w1.objects[n], w1.rs, sur)
      && Next(w1, env, Reconcile(n, sur, NO_ROLE_FAULTS)) == w1
  {
    var w := RunWorld(Start(prefix), env, steps);
    if n in w.rs.roles {
      TrustKeepsItsShape(prefix, env, d0, steps, n);
      var d :| ShowsDocument(w.rs, env.codec, n, d) && TrustShape(d, d0, n);
      ConvergesFrom(w, env, d, n, sur);
    } else {
      ConvergesFrom(w, env, d0, n, sur);
    }
  }

  lemma ConvergesFrom(w: World, env: RoleEnv, d: Document, n: string, sur: Surroundings)
    requires RoundTrips(env.codec) && StatusNames(sur.policies) && n != ""
    requires StartsWith(env, n, w.rs, d) && |Labelled(d.statements, RoleSid(n))| <= 1
    requires n in w.objects && !w.objects[n].deleting && (n in w.rs.roles ==> n in w.created)
    ensures
      var w1 := ReconcileStep(w, env, n, sur, NO_ROLE_FAULTS);
      && n in w1.objects && n in w1.created && Settled(env, n, w1.objects[n], w1.rs, sur)
      && ReconcileStep(w1, env, n, sur, NO_ROLE_FAULTS) == w1
  {
    var o := w.objects[n];
    SecondPassIsQuiet(env, n, o, w.rs, sur, d);
    LivePassKeeps(env, n, o, w.rs, sur, NO_ROLE_FAULTS);
    var p := LivePass(env, n, o, w.rs, sur, NO_ROLE_FAULTS);
    var w1 := WithRoles(Put(w, n, p.obj), p.rs, true);
    QuietStep(w1, env, n, sur);
  }

  lemma QuietStep(w: World, env: RoleEnv, n: string, sur: Surroundings)
    requires n in w.objects && !w.objects[n].deleting && w.created <= w.rs.roles.Keys
    requires LivePass(env, n, w.objects[n], w.rs, sur, NO_ROLE_FAULTS) == RolePass(Some(w.objects[n]), w.rs, true)
    ensures ReconcileStep(w, env, n, sur, NO_ROLE_FAULTS) == w
  {
    assert w.objects[n := w.objects[n]] == w.objects;
    assert w.created * w.rs.roles.Keys == w.created && w.rs.roles.Keys - w.rs.roles.Keys == {};
    assert w.created + {} == w.created;
  }
}

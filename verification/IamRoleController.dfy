/** `IamRoleReconciler` as an object: it patches the cluster's IamRole objects, empties the map of
    attached policies in place and drives the role client and the bind manager. Each method is tied to
    the pass functions of RoleReconciler. */
module IamRoleController {
  import opened Common
  import opened RoleStore
  import opened TrustPolicy
  import opened RoleAttachments
  import opened RoleReconciler
  import RC = RoleClient
  import IamRoleClient
  import BM = BindManager
  import RP = RolePass

  /** An IamRoleBinding, as far as the trust policy needs it. */
  datatype Binding = Binding(namespace: string, role: string, serviceAccount: string)

  /** The bindings the field index gives for a role, in list order, as subjects. */
  function SubjectsOf(bindings: seq<Binding>, role: string): seq<Subject> {
    if bindings == [] then []
    else
      var rest, b := SubjectsOf(bindings[..|bindings| - 1], role), bindings[|bindings| - 1];
      if b.role == role then rest + [Subject(b.namespace, b.serviceAccount)] else rest
  }

  /** The positions of the bindings that reference the role, in list order. */
  ghost predicate Selects(bindings: seq<Binding>, role: string, at: seq<int>) {
    && (forall j, k :: 0 <= j < k < |at| ==> at[j] < at[k])
    && (forall i :: i in at <==> 0 <= i < |bindings| && bindings[i].role == role)
  }

  /** One subject for each of those bindings, in order: its namespace and its service account. */
  ghost predicate Follows(bindings: seq<Binding>, role: string, at: seq<int>, subjects: seq<Subject>) {
    && Selects(bindings, role, at) && |subjects| == |at|
    && forall j :: 0 <= j < |at| ==>
         0 <= at[j] < |bindings| &&
         subjects[j].namespace == bindings[at[j]].namespace && subjects[j].name == bindings[at[j]].serviceAccount
  }

  lemma {:induction false} SubjectsFollow(bindings: seq<Binding>, role: string)
    ensures exists at :: Follows(bindings, role, at, SubjectsOf(bindings, role))
  {
    if bindings == [] {
      assert Follows(bindings, role, [], SubjectsOf(bindings, role));
    } else {
      var k := |bindings| - 1;
      var init := bindings[..k];
      SubjectsFollow(init, role);
      var at :| Follows(init, role, at, SubjectsOf(init, role));
      forall i | i in at ensures 0 <= i < k && bindings[i] == init[i] { }
      if bindings[k].role == role {
        FollowsOneMore(bindings, role, at, SubjectsOf(init, role));
        assert Follows(bindings, role, at + [k], SubjectsOf(bindings, role));
      } else {
        forall i ensures i in at <==> 0 <= i < |bindings| && bindings[i].role == role {
          if 0 <= i < k { assert init[i] == bindings[i]; }
        }
        assert Follows(bindings, role, at, SubjectsOf(bindings, role));
      }
    }
  }

  lemma FollowsOneMore(bindings: seq<Binding>, role: string, at: seq<int>, subjects: seq<Subject>)
    requires bindings != [] && bindings[|bindings| - 1].role == role
    requires Follows(bindings[..|bindings| - 1], role, at, subjects)
    ensures
      var last := bindings[|bindings| - 1];
      Follows(bindings, role, at + [|bindings| - 1], subjects + [Subject(last.namespace, last.serviceAccount)])
  {
    var k := |bindings| - 1;
    var init, more := bindings[..k], at + [k];
    forall j | 0 <= j < |at| ensures at[j] < k && init[at[j]] == bindings[at[j]] { assert at[j] in at; }
    forall i ensures i in more <==> 0 <= i < |bindings| && bindings[i].role == role {
      if 0 <= i < k { assert init[i] == bindings[i]; }
      assert i in more <==> i in at || i == k;
    }
  }

  /** A service account is among the subjects exactly when a binding of its namespace names it and
      references the role. */
  lemma SubjectIsBound(bindings: seq<Binding>, role: string, ns: string, account: string)
    ensures Subject(ns, account) in SubjectsOf(bindings, role) <==> Binding(ns, role, account) in bindings
  {
    SubjectsFollow(bindings, role);
    var subjects := SubjectsOf(bindings, role);
    var at :| Follows(bindings, role, at, subjects);
    if Subject(ns, account) in subjects {
      var j :| 0 <= j < |subjects| && subjects[j] == Subject(ns, account);
      assert at[j] in at && bindings[at[j]] == Binding(ns, role, account);
    }
    if Binding(ns, role, account) in bindings {
      var i :| 0 <= i < |bindings| && bindings[i] == Binding(ns, role, account);
      assert i in at;
      var j :| 0 <= j < |at| && at[j] == i;
      assert subjects[j] == Subject(ns, account);
    }
  }

  /** A role that a faultless reconcile creates admits the token of a service account exactly when some
      binding in its namespace names it and references the role. */
  lemma CreatedRoleAdmits(env: RoleEnv, n: string, o: RoleObject, rs: RoleState, ps: Policies, bindings: seq<Binding>,
                          d0: Document, ns: string, account: string)
    requires RP.DefaultOk(env, d0) && Labelled(d0.statements, RoleSid(n)) == []
    requires n != "" && n !in rs.roles && !o.deleting
    requires ColonFree(ns) && forall b :: b in bindings ==> ColonFree(b.namespace)
    ensures
      var p := ReconcileRole(env, n, o, rs, Surroundings(ps, SubjectsOf(bindings, n)), NO_ROLE_FAULTS);
      var role := RC.ReadRole(p.rs, n);
      p.ok && role.Ok? &&
      var d := env.codec.parse(role.value.trustPolicy);
      && d.Some?
      && (GrantsThrough(d.value, RoleSid(n), env.oidcArn,
                        map[Issuer(env.oidcArn) := "system:serviceaccount:" + ns + ":" + account])
          <==> Binding(ns, n, account) in bindings)
  {
    var refs := SubjectsOf(bindings, n);
    var sur := Surroundings(ps, refs);
    RP.FaultlessPassSucceeds(env, n, o, rs, sur, d0);
    RP.LivePassBinds(env, n, o, rs, sur, NO_ROLE_FAULTS, d0);
    LivePassKeeps(env, n, o, rs, sur, NO_ROLE_FAULTS);
    OkPassHasRole(env, n, o, rs, sur);
    FoundIffLabelled(d0.statements, RoleSid(n));
    forall r | r in refs ensures ColonFree(r.namespace) { SubjectIsBound(bindings, n, r.namespace, r.name); }
    BuiltAdmitsAccount(d0, RoleSid(n), env.oidcArn, refs, Subject(ns, account));
    SubjectIsBound(bindings, n, ns, account);
    assert refs == [] ==> Built(d0, RoleSid(n), env.oidcArn, refs) == d0;
  }

  lemma OkPassHasRole(env: RoleEnv, n: string, o: RoleObject, rs: RoleState, sur: Surroundings)
    requires LivePass(env, n, o, rs, sur, NO_ROLE_FAULTS).ok
    ensures n in LivePass(env, n, o, rs, sur, NO_ROLE_FAULTS).rs.roles
  {
    RP.OkPassRecordsArn(env, n, o.(finalizer := true), rs, sur, NO_ROLE_FAULTS);
  }

  class IamRoleReconciler {
    const roleService: IamRoleClient.Client
    const defaultPolicy: Bytes
    const manager: BM.BindManager
    var objects: map<string, RoleObject>
    var policies: map<string, string>
    var bindings: seq<Binding>

    ghost predicate Valid() {
      manager.Valid() && manager.roles == roleService
    }

    ghost function Settings(): RoleEnv {
      RoleEnv(roleService.path, defaultPolicy, manager.oidcArn, manager.codec)
    }

    ghost function Surrounding(n: string): Surroundings
      reads this, roleService.service
    {
      Surroundings(Policies(policies, roleService.service.policyArnMapping), SubjectsOf(bindings, n))
    }

    constructor (roleService: IamRoleClient.Client, defaultPolicy: Bytes, manager: BM.BindManager)
      requires manager.Valid() && manager.roles == roleService
      ensures Valid() && objects == map[]
      ensures this.roleService == roleService && this.defaultPolicy == defaultPolicy && this.manager == manager
    {
      this.roleService, this.defaultPolicy, this.manager := roleService, defaultPolicy, manager;
      objects, policies, bindings := map[], map[], [];
    }

    method GetOrCreate(n: string, o: RoleObject, f: RoleFaults) returns (r: Result<RC.IamRole>)
      modifies roleService.service`roles
      ensures (roleService.State(), r) == GetOrCreateRole(Settings(), n, o, old(roleService.State()), f)
    {
      r := roleService.Get(n, f.read);
      if r.Err? && r.error == NotFound {
        r := roleService.Create(n, defaultPolicy, "", Int32(o.maxDuration), f.create);
      }
    }

    /** One reference: met in the map, it is crossed out there; otherwise it is attached. */
    method AttachReference(n: string, attachments: IamRoleClient.PolicyMap, ref: string, readFails: bool,
                           attachFails: bool)
      modifies attachments, roleService.service`attachments
      ensures
        var ps := Policies(policies, roleService.service.policyArnMapping);
        Diff(roleService.State(), attachments.items)
          == AttachOne(Diff(old(roleService.State()), old(attachments.items)), ps, n, ref, readFails, attachFails)
    {
      if attachments.Contains(ref) {
        var _ := attachments.Delete(ref);
      } else if !readFails && ref in policies {
        var arn := policies[ref];
        if |arn| != 0 {
          var _ := roleService.AttachPolicy(n, arn, attachFails);
        }
      }
    }

    method AttachReferences(n: string, attachments: IamRoleClient.PolicyMap, refs: seq<string>, f: AttachFaults)
      modifies attachments, roleService.service`attachments
      ensures
        var ps := Policies(policies, roleService.service.policyArnMapping);
        Diff(roleService.State(), attachments.items)
          == AttachRefs(Diff(old(roleService.State()), old(attachments.items)), ps, n, refs, f)
    {
      ghost var ps := Policies(policies, roleService.service.policyArnMapping);
      ghost var d0 := Diff(roleService.State(), attachments.items);
      for i := 0 to |refs|
        invariant Diff(roleService.State(), attachments.items) == AttachRefs(d0, ps, n, refs[..i], f)
      {
        assert refs[..i + 1][..i] == refs[..i];
        AttachReference(n, attachments, refs[i], i in f.read, i in f.attach);
      }
      assert refs[..|refs|] == refs;
    }

    /** The loop over what is left in the map; failures are logged. */
    method DetachRest(n: string, attachments: IamRoleClient.PolicyMap, fails: set<string>)
      modifies roleService.service`attachments
      ensures roleService.State() == DetachAll(old(roleService.State()), n, attachments.items.Values - fails)
    {
      var rest := attachments.items.Keys;
      ghost var rs := roleService.State();
      ghost var gone: set<string> := {};
      DetachNothing(rs, n);
      while rest != {}
        invariant rest <= attachments.items.Keys
        invariant roleService.State() == DetachAll(rs, n, gone)
        invariant gone == set p | p in attachments.items && p !in rest && attachments.items[p] !in fails ::
          attachments.items[p]
      {
        var p :| p in rest;
        rest := rest - {p};
        var arn := attachments.items[p];
        DetachOneMore(rs, n, gone, arn);
        var _ := roleService.DetachPolicy(n, arn, arn in fails);
        if arn !in fails { gone := gone + {arn}; }
      }
      assert gone == attachments.items.Values - fails;
    }

    method SyncAttachments(n: string, refs: seq<string>, list: IamRoleClient.AttachedPolicies, f: AttachFaults)
      modifies roleService.service`attachments
      ensures
        var ps := Policies(policies, roleService.service.policyArnMapping);
        roleService.State() == RoleAttachments.SyncAttachments(old(roleService.State()), ps, n, refs, list.list, f)
    {
      var attachments := list.ToMap();
      AttachReferences(n, attachments, refs, f);
      DetachRest(n, attachments, f.detach);
    }

    /** The list of bindings through the field index, then the slice of subjects. */
    method ListSubjects(n: string) returns (subjects: seq<Subject>)
      ensures subjects == SubjectsOf(bindings, n)
      ensures exists at :: Follows(bindings, n, at, subjects)
    {
      SubjectsFollow(bindings, n);
      subjects := [];
      for i := 0 to |bindings|
        invariant subjects == SubjectsOf(bindings[..i], n)
      {
        assert bindings[..i + 1][..i] == bindings[..i];
        if bindings[i].role == n {
          subjects := subjects + [Subject(bindings[i].namespace, bindings[i].serviceAccount)];
        }
      }
      assert bindings[..|bindings|] == bindings;
    }

    method UpdateTrustPolicy(n: string, f: RoleFaults) returns (ok: bool)
      requires Valid() && n in objects
      modifies this`objects, roleService.service`roles
      ensures
        var p := UpdateTrust(Settings(), n, old(objects[n]), old(roleService.State()), SubjectsOf(bindings, n), f);
        ok == p.ok && p.obj.Some? && objects == old(objects)[n := p.obj.value] && roleService.State() == p.rs
    {
      assert objects == objects[n := objects[n]];
      if f.bindings { return false; }
      var subjects := ListSubjects(n);
      var r := manager.Bind(n, "", subjects, f.bind);
      if r.Err? { return false; }
      if objects[n].bound != subjects && !f.boundPatch {
        objects := objects[n := objects[n].(bound := subjects)];
      }
      ok := true;
    }

    method UpdateRoleStatus(n: string, arn: string, f: RoleFaults) returns (ok: bool)
      requires Valid() && n in objects
      modifies this`objects, roleService.service`roles
      ensures
        var p := UpdateStatus(Settings(), n, old(objects[n]), old(roleService.State()), arn, SubjectsOf(bindings, n),
            f);
        ok == p.ok && p.obj.Some? && objects == old(objects)[n := p.obj.value] && roleService.State() == p.rs
    {
      assert objects == objects[n := objects[n]];
      if objects[n].arn != arn {
        if f.arnPatch { return false; }
        objects := objects[n := objects[n].(arn := arn)];
      }
      ok := UpdateTrustPolicy(n, f);
    }

    method SyncRole(n: string, f: RoleFaults) returns (ok: bool)
      requires Valid() && n in objects
      modifies this`objects, roleService.service`roles, roleService.service`attachments
      ensures
        var p := RoleReconciler.SyncRole(Settings(), n, old(objects[n]), old(roleService.State()), old(Surrounding(n)),
            f);
        ok == p.ok && p.obj.Some? && objects == old(objects)[n := p.obj.value] && roleService.State() == p.rs
    {
      assert objects == objects[n := objects[n]];
      var upstream := GetOrCreate(n, objects[n], f);
      if upstream.Err? { return false; }
      var listed := roleService.ListAttachedPolicies(n, f.list);
      if listed.Err? { return false; }
      SyncAttachments(n, objects[n].refs, listed.value, f.attach);
      ok := UpdateRoleStatus(n, upstream.value.arn, f);
    }

    method Finalize(n: string, f: RoleFaults) returns (ok: bool)
      requires n in objects
      modifies this`objects, roleService.service`roles
      ensures
        var p := FinalizePass(n, old(objects[n]), old(roleService.State()), f);
        ok == p.ok && roleService.State() == p.rs
        && objects == if p.obj.Some? then old(objects)[n := p.obj.value] else old(objects) - {n}
    {
      assert objects == objects[n := objects[n]];
      var role := roleService.Get(n, f.read);
      if role.Err? && role.error != NotFound { return false; }
      if role.Ok? {
        var deleted := roleService.Delete(n, f.delete);
        if deleted.Err? { return false; }
      }
      if objects[n].finalizer {
        if f.removeFinalizer { return false; }
        RemoveFinalizer(n);
      }
      ok := true;
    }

    /** Taking the last finalizer off a deleted object removes it. */
    method RemoveFinalizer(n: string)
      requires n in objects
      modifies this`objects
      ensures
        var r := Released(old(objects[n]));
        objects == if r.Some? then old(objects)[n := r.value] else old(objects) - {n}
    {
      if objects[n].otherFinalizers {
        objects := objects[n := objects[n].(finalizer := false)];
      } else {
        objects := objects - {n};
      }
    }

    /** One reconcile of the object named `n`. */
    method Reconcile(n: string, f: RoleFaults) returns (ok: bool)
      requires Valid()
      modifies this`objects, roleService.service`roles, roleService.service`attachments
      ensures n !in old(objects) || f.get ==>
        objects == old(objects) && roleService.State() == old(roleService.State()) && (ok <==> !f.get || n !in objects)
      ensures n in old(objects) && !f.get ==>
        var p := ReconcileRole(Settings(), n, old(objects[n]), old(roleService.State()), old(Surrounding(n)), f);
        ok == p.ok && roleService.State() == p.rs
        && objects == if p.obj.Some? then old(objects)[n := p.obj.value] else old(objects) - {n}
    {
      if n !in objects { return true; }
      if f.get { return false; }
      assert objects == objects[n := objects[n]];
      if objects[n].deleting {
        ok := Finalize(n, f);
        return;
      }
      if !objects[n].finalizer {
        if f.addFinalizer { return false; }
        objects := objects[n := objects[n].(finalizer := true)];
      }
      ok := SyncRole(n, f);
    }
  }

  lemma DetachNothing(rs: RoleState, n: string)
    ensures DetachAll(rs, n, {}) == rs
  {
    if n in rs.attachments {
      assert rs.attachments[n] - {} == rs.attachments[n];
      assert rs.attachments[n := rs.attachments[n]] == rs.attachments;
    }
  }

  lemma DetachOneMore(rs: RoleState, n: string, gone: set<string>, arn: string)
    ensures DetachRolePolicy(DetachAll(rs, n, gone), n, arn).0 == DetachAll(rs, n, gone + {arn})
  {
    if n in rs.attachments {
      var held := rs.attachments[n] - gone;
      assert rs.attachments[n] - (gone + {arn}) == held - {arn};
      assert rs.attachments[n := held][n := held - {arn}] == rs.attachments[n := held - {arn}];
      if arn !in held { assert held - {arn} == held; }
    }
  }
}

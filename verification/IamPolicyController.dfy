/** `IamPolicyReconciler` as an object: it patches the cluster's IamPolicy objects and drives the
    client step by step. Each method is tied to the pass functions of PolicyReconciler. */
module IamPolicyController {
  import opened Common
  import PC = PolicyClient
  import opened IamPolicyClient
  import opened PolicyReconciler
  import opened SortedNames
  import Doc = PolicyDocument
  import W = PolicyWorld

  class IamPolicyReconciler {
    const aws: Client
    const marshal: Doc.Document -> Bytes
    var objects: map<string, PolicyObject>
    var roles: map<string, seq<string>>

    ghost function Settings(): Env {
      Env(aws.path, aws.parse, marshal)
    }

    ghost predicate Valid()
      reads aws.service, aws.nameCache
    {
      aws.Valid()
    }

    constructor (aws: Client, marshal: Doc.Document -> Bytes)
      requires aws.Valid()
      ensures Valid() && this.aws == aws && this.marshal == marshal && objects == map[] && roles == map[]
    {
      this.aws, this.marshal, objects, roles := aws, marshal, map[], map[];
    }

    /** `serializeDocument`. */
    method SerializeDocument(o: PolicyObject) returns (document: Bytes)
      ensures document == Serialized(Settings(), o)
      ensures exists v :: Doc.IsSerialized(o.spec, v) && document == marshal(v)
    {
      var d := Doc.SerializeDocument(o.spec);
      assert Doc.IsSerialized(o.spec, d.Value());
      document := d.Marshal(marshal);
    }

    method GetOrCreate(n: string, o: PolicyObject, document: Bytes, f: Faults)
      returns (arn: Option<string>, ghost evicted: set<string>)
      requires Valid() && n in objects && objects[n] == o && document == Serialized(Settings(), o)
      modifies this`objects, aws.nameCache, aws.service`managedPolicies, aws.service`policyArnMapping, aws.service`now
      ensures Valid()
      ensures
        var found := FindOrCreate(Settings(), n, o, old(aws.State()), f);
        arn == found.arn && objects == old(objects)[n := found.obj] && aws.State() == Client.Forget(found.cs, evicted)
    {
      assert objects == objects[n := o];
      var options := PC.GetOptions("", n);
      if o.arn != "" { options := PC.GetOptions(o.arn, ""); }
      var policy;
      policy, evicted := aws.Get(options, f.read);
      if policy.Ok? { return Some(policy.value.arn), evicted; }
      if policy.error != NotFound { return None, evicted; }
      policy := aws.Create(n, document, o.description, f.create);
      if policy.Err? { return None, evicted; }
      if !f.createPatch { PatchStatus(n, policy.value.arn, document); }
      arn := Some(policy.value.arn);
    }

    /** The server-side apply of `status.arn` and `status.md5`. */
    method PatchStatus(n: string, arn: string, document: Bytes)
      requires n in objects
      modifies this`objects
      ensures objects == old(objects)[n := Acknowledge(old(objects[n]), arn, document)]
    {
      objects := objects[n := objects[n].(arn := arn, md5 := Some(Digest(document)))];
    }

    /** The md5 gate compares with the digest read when the pass began. */
    method UpdateUpstream(n: string, o: PolicyObject, document: Bytes, arn: string, f: Faults, ghost found: Found)
      returns (ok: bool)
      requires Valid() && n in objects && document == Serialized(Settings(), o)
      requires found.obj == objects[n] && found.arn == Some(arn) && found.cs.store == aws.service.Policies()
      modifies this`objects, aws.service`managedPolicies, aws.service`now
      ensures Valid() && aws.nameCache.items == old(aws.nameCache.items)
      ensures
        var p := UpdateIfChanged(Settings(), o, found, f);
        ok == p.ok && p.obj.Some? && objects == old(objects)[n := p.obj.value]
        && p.cs == found.cs.(store := aws.service.Policies())
    {
      assert objects == objects[n := objects[n]];
      if o.md5 == Some(Digest(document)) { return true; }
      var policy := aws.Update(arn, document, f.update);
      if policy.Err? || f.updatePatch { return false; }
      PatchStatus(n, policy.value.arn, document);
      ok := true;
    }

    /** `List` with the field index on `spec.policyRefs`. */
    method ListMatchingRoles(n: string) returns (names: set<string>)
      ensures names == W.Referencing(roles, n)
    {
      names := {};
      var rest := roles.Keys;
      while rest != {}
        invariant rest <= roles.Keys
        invariant names == set r | r in roles && r !in rest && n in roles[r]
      {
        var r :| r in rest;
        rest := rest - {r};
        if n in roles[r] { names := names + {r}; }
      }
    }

    /** The comparison as two set differences, then the sorted list of the referencing roles. */
    method SyncAttachedRoles(n: string, listFails: bool, patchFails: bool) returns (ok: bool)
      requires n in objects
      modifies this`objects
      ensures
        var r := SyncRoles(old(objects[n]), if listFails then {} else W.Referencing(roles, n), patchFails);
        ok == r.1 && objects == old(objects)[n := r.0]
    {
      assert objects == objects[n := objects[n]];
      var referenced := {};
      if !listFails { referenced := ListMatchingRoles(n); }
      var existing: set<string> := {};
      var recorded := objects[n].attachedRoles;
      for i := 0 to |recorded|
        invariant existing == set j | 0 <= j < i :: recorded[j]
      {
        existing := existing + {recorded[i]};
      }
      assert existing == set r | r in recorded;
      if |referenced - existing| > 0 || |existing - referenced| > 0 {
        if patchFails { return false; }
        var refs := List(referenced);
        objects := objects[n := objects[n].(attachedRoles := refs)];
      } else {
        assert referenced - existing == {} && existing - referenced == {};
      }
      ok := true;
    }

    method SyncPolicy(n: string, f: Faults) returns (ok: bool, ghost evicted: set<string>)
      requires Valid() && n in objects
      modifies this`objects, aws.nameCache, aws.service`managedPolicies, aws.service`policyArnMapping, aws.service`now
      ensures Valid()
      ensures
        var p := SyncUpstream(Settings(), n, old(objects[n]), old(aws.State()), f);
        ok == p.ok && p.obj.Some? && objects == old(objects)[n := p.obj.value]
          && aws.State() == Client.Forget(p.cs, evicted)
    {
      var o := objects[n];
      var document := SerializeDocument(o);
      ghost var found := FindOrCreate(Settings(), n, o, aws.State(), f);
      var arn;
      arn, evicted := GetOrCreate(n, o, document, f);
      if arn.None? { return false, evicted; }
      ok := UpdateUpstream(n, o, document, arn.value, f, found);
    }

    method AddFinalizer(n: string)
      requires n in objects
      modifies this`objects
      ensures objects == old(objects)[n := old(objects[n]).(finalizer := true)]
    {
      objects := objects[n := objects[n].(finalizer := true)];
    }

    method ThenSyncRoles(n: string, succeeded: bool, f: Faults, ghost u: Pass) returns (ok: bool)
      requires n in objects && u.obj == Some(objects[n]) && u.ok == succeeded
      modifies this`objects
      ensures
        var p := PolicyReconciler.ThenSyncRoles(u, W.Referencing(roles, n), f);
        ok == p.ok && p.obj.Some? && objects == old(objects)[n := p.obj.value] && p.cs == u.cs
    {
      assert objects == objects[n := objects[n]];
      if !succeeded { return false; }
      ok := SyncAttachedRoles(n, f.list, f.syncPatch);
    }

    method SyncBoth(n: string, f: Faults) returns (ok: bool, ghost evicted: set<string>)
      requires Valid() && n in objects
      modifies this`objects, aws.nameCache, aws.service`managedPolicies, aws.service`policyArnMapping, aws.service`now
      ensures Valid()
      ensures
        var p := PolicyReconciler.SyncBoth(Settings(), n, old(objects[n]), old(aws.State()), W.Referencing(roles, n),
            f);
        ok == p.ok && p.obj.Some? && objects == old(objects)[n := p.obj.value]
          && aws.State() == Client.Forget(p.cs, evicted)
    {
      ghost var u := SyncUpstream(Settings(), n, objects[n], aws.State(), f);
      ok, evicted := SyncPolicy(n, f);
      ok := ThenSyncRoles(n, ok, f, u);
    }

    method ReconcileLive(n: string, f: Faults) returns (ok: bool, ghost evicted: set<string>)
      requires Valid() && n in objects
      modifies this`objects, aws.nameCache, aws.service`managedPolicies, aws.service`policyArnMapping, aws.service`now
      ensures Valid()
      ensures
        var p := LivePass(Settings(), n, old(objects[n]), old(aws.State()), W.Referencing(roles, n), f);
        ok == p.ok && p.obj.Some? && objects == old(objects)[n := p.obj.value]
          && aws.State() == Client.Forget(p.cs, evicted)
    {
      assert objects == objects[n := objects[n]] && aws.nameCache.items - {} == aws.nameCache.items;
      if !objects[n].finalizer {
        if f.addFinalizer { return false, {}; }
        AddFinalizer(n);
      }
      ok, evicted := SyncBoth(n, f);
    }

    method Finalize(n: string, f: Faults) returns (ok: bool, ghost evicted: set<string>)
      requires Valid() && n in objects
      modifies this`objects, aws.nameCache, aws.service`managedPolicies, aws.service`policyArnMapping
      ensures Valid()
      ensures
        var p := FinalizePass(Settings(), n, old(objects[n]), old(aws.State()), f);
        ok == p.ok && aws.State() == Client.Forget(p.cs, evicted)
        && objects == if p.obj.Some? then old(objects)[n := p.obj.value] else old(objects) - {n}
    {
      evicted := {};
      var o := objects[n];
      assert objects == objects[n := o];
      assert aws.nameCache.items - {} == aws.nameCache.items;
      if !o.finalizer { return true, {}; }
      var options := PC.GetOptions(o.arn, "");
      if o.arn == "" { options := PC.GetOptions("", n); }
      var policy;
      policy, evicted := aws.Get(options, f.read);
      if policy.Err? && policy.error != NotFound { return false, evicted; }
      if policy.Ok? {
        var deleted := aws.Delete(policy.value.arn, f.delete);
        if deleted.Err? { return false, evicted; }
      }
      if f.removeFinalizer { return false, evicted; }
      RemoveFinalizer(n);
      ok := true;
    }

    /** Taking the last finalizer off a deleted object removes it. */
    method RemoveFinalizer(n: string)
      requires n in objects
      modifies this`objects
      ensures
        var r := Released(old(objects[n]));
        objects == if r.Some? then old(objects)[n := r.value] else old(objects) - {n}
    {
      if objects[n].otherFinalizers {
        objects := objects[n := objects[n].(finalizer := false)];
      } else {
        objects := objects - {n};
      }
    }

    /** One reconcile of the object named `n`: the object, its policy upstream and the outcome are
        those of the step function the run theorems are about. */
    method Reconcile(n: string, f: Faults) returns (ok: bool, ghost evicted: set<string>)
      requires Valid()
      modifies this`objects, aws.nameCache, aws.service`managedPolicies, aws.service`policyArnMapping, aws.service`now
      ensures Valid()
      ensures
        var w := W.World(old(objects), roles, old(aws.State()), {n});
        var w' := W.ReconcileStep(w, Settings(), n, f);
        objects == w'.objects && aws.State() == Client.Forget(w'.cs, evicted) && (ok <==> n !in w'.queue)
    {
      evicted := {};
      assert aws.nameCache.items - {} == aws.nameCache.items;
      if n !in objects { return true, {}; }
      if f.get { return false, {}; }
      if objects[n].deleting {
        ok, evicted := Finalize(n, f);
      } else {
        ok, evicted := ReconcileLive(n, f);
      }
    }
  }
}

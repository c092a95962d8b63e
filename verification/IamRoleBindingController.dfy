/** `IamRoleBindingReconciler` as an object: it patches service accounts and bindings step by step.
    Each method is tied to the pass functions of BindingReconciler. */
module IamRoleBindingController {
  import opened Common
  import opened BindingReconciler
  import W = BindingWorld

  predicate IsSet(s: string) { |s| > 0 }

  class IamRoleBindingReconciler {
    var bindings: map<Key, Binding>
    var serviceAccounts: map<Key, Option<string>>
    var roleArns: map<string, string>

    function State(): Cluster
      reads this
    {
      Cluster(serviceAccounts, roleArns)
    }

    constructor ()
      ensures bindings == map[] && State() == Cluster(map[], map[])
    {
      bindings, serviceAccounts, roleArns := map[], map[], map[];
    }

    method Finalize(k: Key, f: Faults) returns (r: Result<()>)
      requires k in bindings
      modifies this`serviceAccounts
      ensures (State(), r) == Release(old(State()), k, bindings[k], f)
    {
      var instance := bindings[k];
      if instance.boundAccount == "" { return Ok(()); }
      if f.readBound { return Err(ServiceFault); }
      var bound := BoundKey(k, instance);
      if bound !in serviceAccounts { return Ok(()); }
      var annotation := serviceAccounts[bound];
      if annotation.Some? {
        if annotation.value == instance.boundArn {
          if f.release { return Err(ServiceFault); }
          serviceAccounts := serviceAccounts[bound := None];
        }
      }
      r := Ok(());
    }

    method BindServiceAccount(k: Key, arn: string, f: Faults) returns (r: Result<()>)
      requires k in bindings
      modifies this`serviceAccounts
      ensures (State(), r) == BindingReconciler.BindServiceAccount(old(State()), k, bindings[k], arn, f)
    {
      var account := ReferencedKey(k, bindings[k]);
      if f.readAccount { return Err(ServiceFault); }
      if account !in serviceAccounts { return Err(NotFound); }
      var existing := serviceAccounts[account];
      if existing.Some? && existing.value != arn { return Err(Conflict); }
      if existing.None? {
        if f.annotate { return Err(ServiceFault); }
        serviceAccounts := serviceAccounts[account := Some(arn)];
      }
      r := Ok(());
    }

    /** The part of a pass after the handover: role, annotation, status. */
    method BindRole(k: Key, f: Faults) returns (r: Result<()>)
      requires k in bindings
      modifies this`bindings, this`serviceAccounts
      ensures
        var p := BindingReconciler.BindRole(old(State()), k, old(bindings[k]), f);
        r == p.result && State() == p.cluster && p.binding.Some? && bindings == old(bindings)[k := p.binding.value]
    {
      var instance := bindings[k];
      assert bindings == bindings[k := instance];
      if f.readRole { return Err(ServiceFault); }
      if instance.role !in roleArns { return Err(NotFound); }
      var arn := roleArns[instance.role];
      if |arn| == 0 { return Err(InvalidRoleStatus); }
      r := BindServiceAccount(k, arn, f);
      if r.Err? { return; }
      if instance.boundAccount != instance.account || instance.boundArn != arn {
        if f.status { return Err(ServiceFault); }
        bindings := bindings[k := instance.(boundAccount := instance.account, boundArn := arn)];
      }
    }

    method ReconcileLive(k: Key, f: Faults) returns (r: Result<()>)
      requires k in bindings
      modifies this`bindings, this`serviceAccounts
      ensures
        var p := LivePass(old(State()), k, old(bindings[k]), f);
        r == p.result && State() == p.cluster && p.binding.Some? && bindings == old(bindings)[k := p.binding.value]
    {
      assert bindings == bindings[k := bindings[k]];
      if !bindings[k].finalizer {
        if f.addFinalizer { return Err(ServiceFault); }
        bindings := bindings[k := bindings[k].(finalizer := true)];
      }
      var boundName, refName := BoundKey(k, bindings[k]).name, ReferencedKey(k, bindings[k]).name;
      if IsSet(boundName) && boundName != refName {
        r := Finalize(k, f);
        if r.Err? { return; }
      }
      r := BindRole(k, f);
    }

    /** Taking the last finalizer off a deleted binding removes it. */
    method ReconcileDeleting(k: Key, f: Faults) returns (r: Result<()>)
      requires k in bindings
      modifies this`bindings, this`serviceAccounts
      ensures
        var p := FinalizePass(old(State()), k, old(bindings[k]), f);
        r == p.result && State() == p.cluster
        && bindings == if p.binding.Some? then old(bindings)[k := p.binding.value] else old(bindings) - {k}
    {
      assert bindings == bindings[k := bindings[k]];
      if bindings[k].finalizer {
        r := Finalize(k, f);
        if r.Err? { return; }
        if f.removeFinalizer { return Err(ServiceFault); }
        if bindings[k].otherFinalizers {
          bindings := bindings[k := bindings[k].(finalizer := false)];
        } else {
          bindings := bindings - {k};
        }
      }
      r := Ok(());
    }

    /** One reconcile: the bindings and annotations change as in the step the run theorems are about. */
    method Reconcile(k: Key, f: Faults) returns (r: Result<()>)
      modifies this`bindings, this`serviceAccounts
      ensures
        var w' := W.ReconcileStep(W.World(old(bindings), old(State()), {}), k, f);
        bindings == w'.bindings && State() == w'.cluster
      ensures f.get || k !in old(bindings) ==> r.Err?
      ensures !f.get && k in old(bindings) ==> r == ReconcileBinding(old(State()), k, old(bindings[k]), f).result
    {
      if f.get { return Err(ServiceFault); }
      if k !in bindings { return Err(NotFound); }
      if bindings[k].deleting {
        r := ReconcileDeleting(k, f);
      } else {
        r := ReconcileLive(k, f);
      }
    }
  }
}

/** What the role reconciler relies on: in every reachable state of the IamPolicy controller, the ARN
    an object records is that of the policy of its name. */
module PolicyStatus {
  import opened Common
  import opened PolicyStore
  import opened PolicyClient
  import opened PolicyReconciler
  import opened PolicyPass
  import W = PolicyWorld
  import RA = RoleAttachments

  /** The policies as the role reconciler meets them. */
  function Seen(w: W.World): RA.Policies {
    RA.Policies(map n | n in w.objects :: w.objects[n].arn, w.cs.store.arns)
  }

  lemma BijectionIsInjective(s: Store)
    requires Bijection(s)
    ensures RA.Injective(s.arns)
  {
    forall a, b | a in s.arns && b in s.arns && s.arns[a] == s.arns[b] ensures a == b {
      ArnAt(s, a);
      ArnAt(s, b);
    }
  }

  lemma RecordedArnNames(s: Store, path: string, n: string, o: PolicyObject)
    requires Bijection(s) && Addressed(s) && ValidPath(path) && SlashFree(n)
    requires ArnRecorded(s.prefix, path, n, o) && o.arn in s.arns && o.arn != ""
    ensures s.arns[o.arn] == n
  {
    SlashFreeArnIsUnused(s, n, path);
    var m := s.arns[o.arn];
    ArnAt(s, o.arn);
    IndexAt(s, m);
    ArnInjective(s.prefix, path, n, PathOr(s.policies[m].policy.path), m);
  }

  lemma EmptyArnIsUnused(s: Store)
    requires Bijection(s) && Addressed(s)
    ensures "" !in s.arns
  {
    if "" in s.arns {
      ArnAt(s, "");
      IndexAt(s, s.arns[""]);
    }
  }

  /** After any run of the IamPolicy controller the hypothesis of attachment convergence holds. */
  lemma ReachableStatusNames(prefix: string, env: Env, steps: seq<W.WorldStep>)
    requires IsClientPath(env.path) && forall step :: step in steps ==> W.Allowed(env, step)
    ensures RA.StatusNames(Seen(W.RunWorld(W.Start(prefix), env, steps)))
  {
    var w := W.RunWorld(W.Start(prefix), env, steps);
    W.NoOrphanPolicy(prefix, env, steps);
    var s := w.cs.store;
    BijectionIsInjective(s);
    EmptyArnIsUnused(s);
    forall n | n in w.objects && w.objects[n].arn in s.arns ensures s.arns[w.objects[n].arn] == n {
      assert Marked(n) && W.NameOk(w, env, n);
      RecordedArnNames(s, env.path, n, w.objects[n]);
    }
  }

  lemma ConvergedIsIndexed(env: Env, n: string, o: PolicyObject, cs: ClientState)
    requires Ready(env, n, o, cs) && Converged(env, n, o, cs)
    ensures PolicyArn(cs.store.prefix, env.path, n) in cs.store.arns && PolicyArn(cs.store.prefix, env.path, n) != ""
  {
    IndexAt(cs.store, n);
    assert |PolicyArn(cs.store.prefix, env.path, n)| >= |env.path|;
  }

  /** After a pass that converges, the role reconciler can resolve the policy: its object records an ARN
      that the service knows. */
  lemma ConvergedIsResolvable(prefix: string, env: Env, steps: seq<W.WorldStep>, n: string, f: Faults)
    requires IsClientPath(env.path) && forall step :: step in steps ==> W.Allowed(env, step)
    requires W.KeepingRun(W.Start(prefix), env, steps)
    requires
      var w := W.RunWorld(W.Start(prefix), env, steps);
      && n in w.objects && !w.objects[n].deleting && W.StoresFaithfully(w, env, n, f) && !f.get && !f.list
      && LivePass(env, n, w.objects[n], w.cs, W.Referencing(w.roles, n), f).ok
    ensures
      RA.Resolvable(Seen(W.Next(W.RunWorld(W.Start(prefix), env, steps), env, W.Reconcile(n, f))), n)
  {
    var w := W.RunWorld(W.Start(prefix), env, steps);
    W.RunConverges(prefix, env, steps, n, f);
    W.NoOrphanPolicy(prefix, env, steps);
    W.StepNoOrphans(w, env, W.Reconcile(n, f));
    var w1 := W.Next(w, env, W.Reconcile(n, f));
    assert Marked(n) && W.NameOk(w, env, n) && W.NameOk(w1, env, n);
    PassKeepsGuarded(env, n, w.objects[n], w.cs, W.Referencing(w.roles, n), f);
    ConvergedIsIndexed(env, n, w1.objects[n], w1.cs);
  }
}

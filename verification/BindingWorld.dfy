/** Whole runs of the IamRoleBinding controller over any number of bindings: reconciles with faults,
    user edits of bindings, roles and service accounts, in any order. */
module BindingWorld {
  import opened Common
  import opened Runs
  import opened BindingReconciler

  /** `placed`: the accounts whose present annotation the controller put there. */
  datatype World = World(bindings: map<Key, Binding>, cluster: Cluster, placed: set<Key>)

  datatype WorldStep =
    | Reconcile(k: Key, f: Faults)
    | CreateBinding(k: Key, role: string, account: string, otherFinalizers: bool)
    | EditBinding(k: Key, role: string, account: string)
    | DeleteBinding(k: Key)
    | DropOtherFinalizers(k: Key)
    | SetRoleArn(role: string, arn: string)
    | RemoveRole(role: string)
    | SetAccount(target: Key, annotation: Option<string>)
    | DeleteAccount(target: Key)

  function Put(w: World, k: Key, binding: Option<Binding>): World {
    w.(bindings := if binding.Some? then w.bindings[k := binding.value] else w.bindings - {k})
  }

  /** Accounts annotated by the pass join the placed ones; those it freed leave them. */
  function Placed(placed: set<Key>, before: map<Key, Option<string>>, after: map<Key, Option<string>>): set<Key> {
    set a | a in after && after[a].Some? && (a in placed || (a in before && before[a].None?))
  }

  function ReconcileStep(w: World, k: Key, f: Faults): World {
    if k !in w.bindings || f.get then w
    else
      var p := ReconcileBinding(w.cluster, k, w.bindings[k], f);
      Put(w, k, p.binding).(cluster := p.cluster, placed := Placed(w.placed, w.cluster.accounts, p.cluster.accounts))
  }

  function Next(w: World, step: WorldStep): World {
    match step
    case Reconcile(k, f) => ReconcileStep(w, k, f)
    case CreateBinding(k, role, account, others) =>
      if k in w.bindings then w else Put(w, k, Some(Binding(role, account, false, others, false, "", "")))
    case EditBinding(k, role, account) =>
      if k !in w.bindings then w else Put(w, k, Some(w.bindings[k].(role := role, account := account)))
    case DeleteBinding(k) =>
      if k !in w.bindings then w
      else
        var kept := w.bindings[k].finalizer || w.bindings[k].otherFinalizers;
        Put(w, k, if kept then Some(w.bindings[k].(deleting := true)) else None)
    case DropOtherFinalizers(k) =>
      if k !in w.bindings then w
      else
        var gone := w.bindings[k].deleting && !w.bindings[k].finalizer;
        Put(w, k, if gone then None else Some(w.bindings[k].(otherFinalizers := false)))
    case SetRoleArn(role, arn) => w.(cluster := w.cluster.(roles := w.cluster.roles[role := arn]))
    case RemoveRole(role) => w.(cluster := w.cluster.(roles := w.cluster.roles - {role}))
    case SetAccount(a, annotation) => w.(cluster := Annotate(w.cluster, a, annotation), placed := w.placed - {a})
    case DeleteAccount(a) => w.(cluster := w.cluster.(accounts := w.cluster.accounts - {a}), placed := w.placed - {a})
  }

  ghost function RunWorld(w: World, steps: seq<WorldStep>): World {
    Run(Next, w, steps)
  }

  const START := World(map[], Cluster(map[], map[]), {})

  /** Kubernetes accepts no empty name. */
  predicate Allowed(step: WorldStep) {
    step.SetAccount? ==> step.target.name != ""
  }

  /** Another binding of the namespace, with the finalizer, already records the account with the ARN the
      binding at `k` would place. */
  predicate AlreadyRecords(w: World, k: Key, other: Key)
    requires k in w.bindings && w.bindings[k].role in w.cluster.roles
  {
    && other != k && other in w.bindings && w.bindings[other].finalizer
    && BoundKey(other, w.bindings[other]) == ReferencedKey(k, w.bindings[k])
    && w.bindings[other].boundArn == w.cluster.roles[w.bindings[k].role]
  }

  /** The step reaches the annotate call, which succeeds, and then loses the status patch. */
  predicate PlacesUnrecorded(w: World, k: Key, f: Faults) {
    k in w.bindings && !f.get && WillAnnotate(w.cluster, k, w.bindings[k], f)
      && LosesStatus(w.cluster, w.bindings[k], f)
  }

  /** The run condition: no status patch is lost right after the annotation, unless the annotation is
      recorded already. */
  ghost predicate Records(w: World, k: Key, f: Faults) {
    PlacesUnrecorded(w, k, f) ==> exists other :: AlreadyRecords(w, k, other)
  }

  ghost predicate RecordsStep(w: World, step: WorldStep) {
    step.Reconcile? ==> Records(w, step.k, step.f)
  }

  ghost predicate RecordingRun(steps: seq<WorldStep>) {
    steps == [] ||
    (RecordingRun(steps[..|steps| - 1])
     && RecordsStep(RunWorld(START, steps[..|steps| - 1]), steps[|steps| - 1]))
  }

  // ----- no annotation leak -----

  /** The binding at `k` will release the account's annotation before it goes. */
  predicate Holds(w: World, k: Key, a: Key) {
    && k in w.bindings && a in w.cluster.accounts && BoundKey(k, w.bindings[k]) == a
    && w.bindings[k].finalizer && w.cluster.accounts[a] == Some(w.bindings[k].boundArn)
  }

  ghost predicate Held(w: World, a: Key) {
    && (a in w.cluster.accounts ==> a.name != "")
    && (a in w.placed ==> exists k :: Holds(w, k, a))
  }

  ghost predicate NoLeak(w: World) {
    forall a {:trigger Marked(a)} :: Marked(a) ==> Held(w, a)
  }

  /** A pass over a binding that holds an account leaves it held by that binding, or freed. */
  lemma HolderKeepsOrFrees(w: World, k: Key, f: Faults, a: Key)
    requires Holds(w, k, a) && a.name != "" && !f.get
    ensures
      var w' := ReconcileStep(w, k, f);
      Holds(w', k, a) || (a in w'.cluster.accounts && w'.cluster.accounts[a].None?)
  {
    var b := w.bindings[k];
    if !b.deleting && !HandsOver(b) {
      assert ReferencedKey(k, b) == a;
    }
  }

  lemma OtherHolderStays(w: World, k: Key, f: Faults, holder: Key, a: Key)
    requires Holds(w, holder, a) && holder != k && k in w.bindings && !f.get
    ensures
      var w' := ReconcileStep(w, k, f);
      Holds(w', holder, a) || (a in w'.cluster.accounts && w'.cluster.accounts[a].None?)
  {
    PassOwnsItsChanges(w.cluster, k, w.bindings[k], f);
  }

  lemma NewAnnotationHeld(w: World, k: Key, f: Faults, a: Key)
    requires k in w.bindings && !f.get && Records(w, k, f)
    requires a in w.cluster.accounts && w.cluster.accounts[a].None? && a in ReconcileStep(w, k, f).placed
    ensures exists holder :: Holds(ReconcileStep(w, k, f), holder, a)
  {
    var b, w' := w.bindings[k], ReconcileStep(w, k, f);
    PassOwnsItsChanges(w.cluster, k, b, f);
    AnnotatesExactly(w.cluster, k, b, f);
    if LosesStatus(w.cluster, b, f) {
      var other :| AlreadyRecords(w, k, other);
      assert Holds(w', other, a);
    } else {
      assert Holds(w', k, a);
    }
  }

  lemma ReconcileNoLeak(w: World, k: Key, f: Faults)
    requires NoLeak(w) && Records(w, k, f)
    ensures NoLeak(ReconcileStep(w, k, f))
  {
    var w' := ReconcileStep(w, k, f);
    if k in w.bindings && !f.get {
      PassOwnsItsChanges(w.cluster, k, w.bindings[k], f);
      forall a | Marked(a) ensures Held(w', a) {
        assert Held(w, a);
        if a in w'.placed {
          if w.cluster.accounts[a].None? {
            NewAnnotationHeld(w, k, f, a);
          } else {
            var holder :| Holds(w, holder, a);
            if holder == k { HolderKeepsOrFrees(w, k, f, a); } else { OtherHolderStays(w, k, f, holder, a); }
          }
        }
      }
    }
  }

  /** An annotation placed without a record, by this binding or another, is a leak. */
  lemma UnrecordedLeaks(w: World, k: Key, f: Faults)
    requires !Records(w, k, f)
    ensures !NoLeak(ReconcileStep(w, k, f))
  {
    var b, w' := w.bindings[k], ReconcileStep(w, k, f);
    var a := ReferencedKey(k, b);
    AnnotatesExactly(w.cluster, k, b, f);
    assert a in w'.placed;
    if NoLeak(w') {
      assert Marked(a) && Held(w', a);
      var holder :| Holds(w', holder, a);
      assert AlreadyRecords(w, k, holder);
    }
  }

  lemma UserStepNoLeak(w: World, step: WorldStep)
    requires NoLeak(w) && Allowed(step) && !step.Reconcile?
    ensures NoLeak(Next(w, step))
  {
    var w' := Next(w, step);
    forall a | Marked(a) ensures Held(w', a) {
      assert Held(w, a);
      if a in w'.placed {
        var holder :| Holds(w, holder, a);
        assert Holds(w', holder, a);
      }
    }
  }

  ghost predicate NoLeakSoFar(steps: seq<WorldStep>) {
    NoLeak(RunWorld(START, steps)) && (steps != [] ==> NoLeakSoFar(steps[..|steps| - 1]))
  }

  /** No annotation leak: throughout a run, every annotation the controller placed and that still stands
      is recorded, as this account with this ARN, in the status of a binding of the namespace that
      holds the finalizer, exactly when no pass lost the status patch of an annotation that no other
      binding recorded. */
  lemma {:induction false} NoAnnotationLeakExactly(steps: seq<WorldStep>)
    requires forall step :: step in steps ==> Allowed(step)
    ensures NoLeakSoFar(steps) <==> RecordingRun(steps)
  {
    if steps != [] {
      var init, last := steps[..|steps| - 1], steps[|steps| - 1];
      NoAnnotationLeakExactly(init);
      var w := RunWorld(START, init);
      if NoLeak(w) {
        if last.Reconcile? {
          if Records(w, last.k, last.f) {
            ReconcileNoLeak(w, last.k, last.f);
          } else {
            UnrecordedLeaks(w, last.k, last.f);
          }
        } else {
          UserStepNoLeak(w, last);
        }
      }
    }
  }

  /** So once the last binding of a namespace is gone, no annotation placed by the controller is left
      on its accounts. */
  lemma NothingLeftBehind(steps: seq<WorldStep>, namespace: string)
    requires RecordingRun(steps) && forall step :: step in steps ==> Allowed(step)
    requires forall k :: k in RunWorld(START, steps).bindings ==> k.namespace != namespace
    ensures forall a :: a in RunWorld(START, steps).placed ==> a.namespace != namespace
  {
    var w := RunWorld(START, steps);
    NoAnnotationLeakExactly(steps);
    forall a | a in w.placed ensures a.namespace != namespace {
      assert Marked(a) && Held(w, a);
      var k :| Holds(w, k, a);
    }
  }

  // ----- what goes wrong, from the start -----

  /** A role with an ARN, an account without annotation, and a binding of the two. */
  function Setting(ns: string, role: string, arn: string, a: string, name: string): seq<WorldStep> {
    [SetRoleArn(role, arn), SetAccount(Key(ns, a), None), CreateBinding(Key(ns, name), role, a, false)]
  }

  lemma AfterSetting(ns: string, role: string, arn: string, a: string, name: string)
    ensures RunWorld(START, Setting(ns, role, arn, a, name)) ==
      World(map[Key(ns, name) := Binding(role, a, false, false, false, "", "")],
            Cluster(map[Key(ns, a) := None], map[role := arn]), {})
  {
    var s0, s1, s2 := SetRoleArn(role, arn), SetAccount(Key(ns, a), None), CreateBinding(Key(ns, name), role, a, false);
    RunThree(Next, START, s0, s1, s2);
  }

  /** Without the run condition it fails: the status patch is lost, the spec moves to another account,
      and the deleted binding leaves the first account annotated. */
  lemma LostStatusLeaks(ns: string, role: string, arn: string, a: string, b: string, name: string)
    requires arn != "" && a != "" && a != b && b != ""
    ensures
      var k, first := Key(ns, name), Key(ns, a);
      var steps := [Reconcile(k, NO_FAULTS.(status := true)), EditBinding(k, role, b), DeleteBinding(k),
                    Reconcile(k, NO_FAULTS)];
      var w := RunWorld(START, Setting(ns, role, arn, a, name) + steps);
      w.bindings == map[] && first in w.placed && w.cluster.accounts == map[first := Some(arn)]
  {
    var k, first := Key(ns, name), Key(ns, a);
    var s0, s1, s2 := Reconcile(k, NO_FAULTS.(status := true)), EditBinding(k, role, b), DeleteBinding(k);
    var s3 := Reconcile(k, NO_FAULTS);
    AfterSetting(ns, role, arn, a, name);
    RunConcat(Next, START, Setting(ns, role, arn, a, name), [s0, s1, s2, s3]);
    var w := RunWorld(START, Setting(ns, role, arn, a, name));
    RunFour(Next, w, s0, s1, s2, s3);
    var w1 := Next(w, s0);
    assert w1.bindings == map[k := Binding(role, a, true, false, false, "", "")];
    assert w1.cluster.accounts == map[first := Some(arn)] && first in w1.placed;
    var w3 := Next(Next(w1, s1), s2);
    assert w3.bindings == map[k := Binding(role, b, true, false, true, "", "")];
  }

  // ----- bindings that share an account -----

  /** The pass of the binding `b` gets as far as taking its recorded ARN off its recorded account. */
  predicate Frees(b: Binding, f: Faults) {
    && b.boundAccount != "" && !f.get && !f.readBound && !f.release
    && (if b.deleting then b.finalizer else HandsOver(b) && (b.finalizer || !f.addFinalizer))
  }

  /** A binding that is bound stays as it is under a pass of another one, and stays bound unless the
      other pass frees the same account of the same ARN. */
  lemma BoundUntilFreed(w: World, kx: Key, ky: Key, f: Faults)
    requires kx != ky && kx in w.bindings && ky in w.bindings && IsBound(w.cluster, ky, w.bindings[ky])
    ensures
      var w', theirs, mine := ReconcileStep(w, kx, f), w.bindings[kx], w.bindings[ky];
      && ky in w'.bindings && w'.bindings[ky] == mine
      && (!IsBound(w'.cluster, ky, mine) <==>
            BoundKey(kx, theirs) == BoundKey(ky, mine) && theirs.boundArn == mine.boundArn && Frees(theirs, f))
  {
    PassOwnsItsChanges(w.cluster, kx, w.bindings[kx], f);
  }

  /** The binding freed this way is bound again by its next faultless pass. */
  lemma FreedIsBoundAgain(w: World, kx: Key, ky: Key, f: Faults)
    requires kx != ky && kx in w.bindings && ky in w.bindings && !w.bindings[ky].deleting
    requires IsBound(w.cluster, ky, w.bindings[ky])
    ensures
      var w' := ReconcileStep(ReconcileStep(w, kx, f), ky, NO_FAULTS);
      && ky in w'.bindings && w'.bindings[ky] == w.bindings[ky] && IsBound(w'.cluster, ky, w'.bindings[ky])
  {
    var w1, mine := ReconcileStep(w, kx, f), w.bindings[ky];
    BoundUntilFreed(w, kx, ky, f);
    PassOwnsItsChanges(w.cluster, kx, w.bindings[kx], f);
    assert Bindable(w1.cluster, ky, mine);
    LivePassSucceedsExactly(w1.cluster, ky, mine);
  }

  /** The steps that bring two bindings of one account and one role to be bound, and delete the first. */
  function Sharing(ns: string, role: string, a: string, x: string, y: string): seq<WorldStep> {
    [CreateBinding(Key(ns, y), role, a, false), Reconcile(Key(ns, x), NO_FAULTS), Reconcile(Key(ns, y), NO_FAULTS),
     DeleteBinding(Key(ns, x))]
  }

  /** A new binding that can take its account is bound by its first faultless reconcile. */
  lemma FirstReconcileBinds(w: World, k: Key, role: string, a: string, arn: string)
    requires k in w.bindings && w.bindings[k] == Binding(role, a, false, false, false, "", "")
    requires Bindable(w.cluster, k, w.bindings[k]) && w.cluster.roles[role] == arn
    ensures
      var w' := Next(w, Reconcile(k, NO_FAULTS));
      && w'.bindings == w.bindings[k := Binding(role, a, true, false, false, a, arn)]
      && w'.cluster == Annotate(w.cluster, Key(k.namespace, a), Some(arn))
  {
    var account := Key(k.namespace, a);
    if w.cluster.accounts[account].Some? { assert w.cluster.accounts[account := Some(arn)] == w.cluster.accounts; }
  }

  lemma BothBound(w: World, kx: Key, ky: Key, role: string, a: string, arn: string)
    requires arn != "" && kx != ky && kx.namespace == ky.namespace
    requires w.bindings == map[kx := Binding(role, a, false, false, false, "", "")]
    requires w.cluster == Cluster(map[Key(kx.namespace, a) := None], map[role := arn])
    ensures
      var w' := Next(Next(Next(w, CreateBinding(ky, role, a, false)), Reconcile(kx, NO_FAULTS)),
          Reconcile(ky, NO_FAULTS));
      var bound := Binding(role, a, true, false, false, a, arn);
      && w'.bindings == map[kx := bound, ky := bound]
      && w'.cluster == Cluster(map[Key(kx.namespace, a) := Some(arn)], map[role := arn])
  {
    var w1 := Next(w, CreateBinding(ky, role, a, false));
    FirstReconcileBinds(w1, kx, role, a, arn);
    var w2 := Next(w1, Reconcile(kx, NO_FAULTS));
    FirstReconcileBinds(w2, ky, role, a, arn);
  }

  lemma AfterSharing(ns: string, role: string, arn: string, a: string, x: string, y: string)
    requires arn != "" && a != "" && x != y
    ensures
      var w := RunWorld(START, Setting(ns, role, arn, a, x) + Sharing(ns, role, a, x, y));
      && w.bindings == map[Key(ns, x) := Binding(role, a, true, false, true, a, arn),
                           Key(ns, y) := Binding(role, a, true, false, false, a, arn)]
      && w.cluster == Cluster(map[Key(ns, a) := Some(arn)], map[role := arn])
  {
    var kx, ky := Key(ns, x), Key(ns, y);
    var s0, s1, s2 := CreateBinding(ky, role, a, false), Reconcile(kx, NO_FAULTS), Reconcile(ky, NO_FAULTS);
    var s3 := DeleteBinding(kx);
    AfterSetting(ns, role, arn, a, x);
    RunConcat(Next, START, Setting(ns, role, arn, a, x), [s0, s1, s2, s3]);
    var w := RunWorld(START, Setting(ns, role, arn, a, x));
    RunFour(Next, w, s0, s1, s2, s3);
    BothBound(w, kx, ky, role, a, arn);
  }

  /** Two bindings may share an account and a role. A run from the start, with nothing failing, in which
      the reconcile of the deleted one frees the account under the other. */
  lemma SharedAccountIsFreed(ns: string, role: string, arn: string, a: string, x: string, y: string)
    requires arn != "" && a != "" && x != y
    ensures
      var kx, ky, steps := Key(ns, x), Key(ns, y), Setting(ns, role, arn, a, x) + Sharing(ns, role, a, x, y);
      var w, w' := RunWorld(START, steps), RunWorld(START, steps + [Reconcile(kx, NO_FAULTS)]);
      && ky in w.bindings && IsBound(w.cluster, ky, w.bindings[ky])
      && w'.bindings == map[ky := w.bindings[ky]] && w'.cluster.accounts == map[Key(ns, a) := None]
      && !IsBound(w'.cluster, ky, w'.bindings[ky])
  {
    var steps := Setting(ns, role, arn, a, x) + Sharing(ns, role, a, x, y);
    AfterSharing(ns, role, arn, a, x, y);
    RunLast(Next, START, steps, Reconcile(Key(ns, x), NO_FAULTS));
  }
}

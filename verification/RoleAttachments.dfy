/** The attachment diff of a role reconcile: policies the role references are attached, the rest of
    what was listed is detached. */
module RoleAttachments {
  import opened RoleStore
  import opened SortedNames
  import RC = RoleClient

  /** What the pass sees of the cluster and the account: the status ARN of each IamPolicy, and the
      service's index from ARN to policy name. */
  datatype Policies = Policies(status: map<string, string>, index: map<string, string>)

  /** Reads of a referenced policy and attach calls fail by position, detach calls by ARN. */
  datatype AttachFaults = AttachFaults(read: set<nat>, attach: set<nat>, detach: set<string>)

  /** The role store, and the listed attachments not yet met among the references. */
  datatype Diff = Diff(rs: RoleState, leftover: map<string, string>)

  /** A referenced policy that is listed is left alone; one that is not is attached when its object can
      be read and has an ARN. Failures are logged. */
  function AttachOne(d: Diff, ps: Policies, role: string, ref: string, readFails: bool, attachFails: bool): Diff {
    if ref in d.leftover then d.(leftover := d.leftover - {ref})
    else if readFails || ref !in ps.status || ps.status[ref] == "" then d
    else d.(rs := RC.AttachPolicy(d.rs, ps.index, role, ps.status[ref], attachFails).0)
  }

  function AttachRefs(d: Diff, ps: Policies, role: string, refs: seq<string>, f: AttachFaults): Diff {
    if refs == [] then d
    else
      var k := |refs| - 1;
      AttachOne(AttachRefs(d, ps, role, refs[..k], f), ps, role, refs[k], k in f.read, k in f.attach)
  }

  /** The detach calls, in whatever order: each removes its ARN if it is there. */
  function DetachAll(rs: RoleState, role: string, arns: set<string>): RoleState {
    if role in rs.attachments then SetAttached(rs, role, rs.attachments[role] - arns) else rs
  }

  function Detached(d: Diff, f: AttachFaults): set<string> {
    d.leftover.Values - f.detach
  }

  ghost function SyncAttachments(rs: RoleState, ps: Policies, role: string, refs: seq<string>,
                                 listed: seq<AttachedPolicy>, f: AttachFaults): RoleState
  {
    var d := AttachRefs(Diff(rs, RC.ToMap(listed)), ps, role, refs, f);
    DetachAll(d.rs, role, Detached(d, f))
  }

  // ----- what is attached, by name -----

  function Names(rs: RoleState, index: map<string, string>, role: string): set<string> {
    set a | a in Attached(rs, role) && a in index :: index[a]
  }

  /** The service's index names each policy once. */
  predicate Injective(index: map<string, string>) {
    forall a, b {:trigger index[a], index[b]} :: a in index && b in index && index[a] == index[b] ==> a == b
  }

  /** An IamPolicy's recorded ARN, where the service knows it, is that of the policy of its name. */
  predicate StatusNames(ps: Policies) {
    Injective(ps.index) && forall p :: p in ps.status && ps.status[p] in ps.index ==> ps.index[ps.status[p]] == p
  }

  predicate Resolvable(ps: Policies, p: string) {
    p in ps.status && ps.status[p] != "" && ps.status[p] in ps.index
  }

  /** The reference at `k` leads to an attach call that finds its policy. */
  predicate Reaches(ps: Policies, refs: seq<string>, f: AttachFaults, k: nat)
    requires k < |refs|
  {
    Resolvable(ps, refs[k]) && k !in f.read && k !in f.attach
  }

  /** The list, as a map, is the attached ARNs by name. */
  ghost predicate Listing(m: map<string, string>, rs: RoleState, index: map<string, string>, role: string) {
    && m.Keys == Names(rs, index, role)
    && forall p :: p in m ==> m[p] in Attached(rs, role) && m[p] in index && index[m[p]] == p
  }

  lemma ListingOfShown(rs: RoleState, index: map<string, string>, role: string)
    requires Injective(index)
    ensures Listing(RC.ToMap(ShownAttachments(rs, index, role)), rs, index, role)
  {
    var l := ShownAttachments(rs, index, role);
    ShownMembers(index, SortedList(Attached(rs, role)));
    assert RC.NamesDistinct(l) by {
      forall i, j | 0 <= i < |l| && 0 <= j < |l| && l[i].name == l[j].name ensures l[i].arn == l[j].arn {
        assert l[i] in l && l[j] in l;
      }
    }
    RC.ToMapHoldsList(l);
    var m := RC.ToMap(l);
    forall p | p in m
      ensures p in Names(rs, index, role) && m[p] in Attached(rs, role) && m[p] in index && index[m[p]] == p
    {
      var i :| 0 <= i < |l| && l[i].name == p;
      assert l[i] in l;
    }
    forall a | a in Attached(rs, role) && a in index ensures index[a] in m {
      assert AttachedPolicy(index[a], a) in l;
    }
  }

  // ----- the loop over the references -----

  /** The ARNs the first `k` references get attached. */
  function Added(ps: Policies, refs: seq<string>, f: AttachFaults): set<string> {
    set k | 0 <= k < |refs| && Reaches(ps, refs, f, k) :: ps.status[refs[k]]
  }

  ghost predicate AfterRefs(d: Diff, d0: Diff, ps: Policies, role: string, refs: seq<string>, f: AttachFaults) {
    && d.leftover == d0.leftover - (set r | r in refs)
    && Attached(d.rs, role) <= Attached(d0.rs, role) + Added(ps, refs, f)
    && Attached(d0.rs, role) <= Attached(d.rs, role)
    && (forall k :: 0 <= k < |refs| && Reaches(ps, refs, f, k) ==>
          ps.status[refs[k]] in Attached(d.rs, role) || refs[k] in d0.leftover)
    && d.rs.roles == d0.rs.roles && d.rs.prefix == d0.rs.prefix
         && d.rs.attachments - {role} == d0.rs.attachments - {role}
    && (role in d0.rs.attachments ==> role in d.rs.attachments)
  }

  lemma {:induction false} AttachRefsDoes(d0: Diff, ps: Policies, role: string, refs: seq<string>, f: AttachFaults)
    ensures AfterRefs(AttachRefs(d0, ps, role, refs, f), d0, ps, role, refs, f)
  {
    if refs == [] {
      assert d0.leftover - (set r | r in refs) == d0.leftover;
    } else {
      AttachRefsDoes(d0, ps, role, refs[..|refs| - 1], f);
      AttachOneDoes(AttachRefs(d0, ps, role, refs[..|refs| - 1], f), d0, ps, role, refs, f);
    }
  }

  /** One more reference adds its ARN, if it reaches one. */
  lemma AddedStep(ps: Policies, refs: seq<string>, f: AttachFaults)
    requires refs != []
    ensures
      var k := |refs| - 1;
      && Added(ps, refs[..k], f) <= Added(ps, refs, f)
      && (Reaches(ps, refs, f, k) ==> ps.status[refs[k]] in Added(ps, refs, f))
      && forall j :: 0 <= j < k ==> (Reaches(ps, refs[..k], f, j) <==> Reaches(ps, refs, f, j))
  {
    var k := |refs| - 1;
    var init := refs[..k];
    forall j | 0 <= j < k ensures Reaches(ps, init, f, j) <==> Reaches(ps, refs, f, j) { assert init[j] == refs[j]; }
    forall a | a in Added(ps, init, f) ensures a in Added(ps, refs, f) {
      var j :| 0 <= j < |init| && Reaches(ps, init, f, j) && ps.status[init[j]] == a;
      assert Reaches(ps, refs, f, j) && ps.status[refs[j]] == a;
    }
  }

  lemma AttachOneDoes(d: Diff, d0: Diff, ps: Policies, role: string, refs: seq<string>, f: AttachFaults)
    requires refs != [] && AfterRefs(d, d0, ps, role, refs[..|refs| - 1], f)
    ensures
      var k := |refs| - 1;
      AfterRefs(AttachOne(d, ps, role, refs[k], k in f.read, k in f.attach), d0, ps, role, refs, f)
  {
    var k := |refs| - 1;
    var init, r := refs[..k], refs[k];
    var d' := AttachOne(d, ps, role, r, k in f.read, k in f.attach);
    AttachOneStep(d, ps, role, r, k in f.read, k in f.attach);
    AddedStep(ps, refs, f);
    assert refs == init + [r];
    assert (set x | x in refs) == (set x | x in init) + {r};
    forall j | 0 <= j < |refs| && Reaches(ps, refs, f, j)
      ensures ps.status[refs[j]] in Attached(d'.rs, role) || refs[j] in d0.leftover
    {
      if j < k { assert Reaches(ps, init, f, j) && init[j] == refs[j]; }
    }
  }

  lemma AttachOneStep(d: Diff, ps: Policies, role: string, ref: string, readFails: bool, attachFails: bool)
    ensures
      var d' := AttachOne(d, ps, role, ref, readFails, attachFails);
      && d'.leftover == d.leftover - {ref}
      && Attached(d'.rs, role) == Attached(d.rs, role)
           + (if ref !in d.leftover && Resolvable(ps, ref) && !readFails && !attachFails then {ps.status[ref]} else {})
      && d'.rs.roles == d.rs.roles && d'.rs.prefix == d.rs.prefix
           && d'.rs.attachments - {role} == d.rs.attachments - {role}
      && (role in d.rs.attachments ==> role in d'.rs.attachments)
  {
    var d' := AttachOne(d, ps, role, ref, readFails, attachFails);
    assert d'.leftover == d.leftover - {ref};
    assert d'.rs.attachments - {role} == d.rs.attachments - {role};
  }

  // ----- convergence -----

  /** The names attached afterwards, from those attached before. */
  ghost predicate ExpectedName(before: set<string>, m: map<string, string>, ps: Policies, refs: seq<string>,
                               f: AttachFaults, p: string)
    requires before <= m.Keys
  {
    if p in refs then p in before || exists k :: 0 <= k < |refs| && refs[k] == p && Reaches(ps, refs, f, k)
    else p in before && m[p] in f.detach
  }

  lemma SyncKeepsRest(rs: RoleState, ps: Policies, role: string, refs: seq<string>, f: AttachFaults,
                      listed: seq<AttachedPolicy>)
    ensures
      var rs' := SyncAttachments(rs, ps, role, refs, listed, f);
      rs'.roles == rs.roles && rs'.prefix == rs.prefix && rs'.attachments - {role} == rs.attachments - {role}
      && (role in rs.attachments ==> role in rs'.attachments)
  {
    var d0 := Diff(rs, RC.ToMap(listed));
    AttachRefsDoes(d0, ps, role, refs, f);
    var d := AttachRefs(d0, ps, role, refs, f);
    assert DetachAll(d.rs, role, Detached(d, f)).attachments - {role} == d.rs.attachments - {role};
  }

  /** The diff at the level of ARNs. */
  lemma SyncedArns(rs: RoleState, ps: Policies, role: string, refs: seq<string>, f: AttachFaults, a: string)
    requires StatusNames(ps) && role in rs.attachments && a in ps.index
    ensures
      var m := RC.ToMap(ShownAttachments(rs, ps.index, role));
      var rs' := SyncAttachments(rs, ps, role, refs, ShownAttachments(rs, ps.index, role), f);
      Listing(m, rs, ps.index, role) &&
      (a in Attached(rs', role) <==> ExpectedName(Names(rs, ps.index, role), m, ps, refs, f, ps.index[a])
                                     && (a in Attached(rs, role) || a in Added(ps, refs, f)))
  {
    var listed := ShownAttachments(rs, ps.index, role);
    var m := RC.ToMap(listed);
    ListingOfShown(rs, ps.index, role);
    AttachRefsDoes(Diff(rs, m), ps, role, refs, f);
    var d := AttachRefs(Diff(rs, m), ps, role, refs, f);
    var p := ps.index[a];
    LeftoverValues(d.leftover, m, rs, ps.index, role, refs, a);
    if a in Added(ps, refs, f) {
      var k :| 0 <= k < |refs| && Reaches(ps, refs, f, k) && ps.status[refs[k]] == a;
      assert refs[k] == p && p in refs;
    }
  }

  lemma LeftoverValues(l: map<string, string>, m: map<string, string>, rs: RoleState, index: map<string, string>,
                       role: string, refs: seq<string>, a: string)
    requires Injective(index) && Listing(m, rs, index, role) && l == m - (set r | r in refs) && a in index
    ensures a in l.Values <==> a in Attached(rs, role) && index[a] !in refs
    ensures a in Attached(rs, role) ==> index[a] in m && m[index[a]] == a
  {
    if a in l.Values {
      var p :| p in l && l[p] == a;
      assert p in m && m[p] == a;
    }
    if a in Attached(rs, role) {
      assert index[a] in Names(rs, index, role);
      assert m[index[a]] == a;
      if index[a] !in refs { assert index[a] in l && l[index[a]] == a; }
    }
  }

  /** Attachment convergence: whatever is attached before, and whichever reads, attach and detach calls
      fail, the names attached afterwards are the referenced ones attached before or reached by an
      attach call, and the others whose detach call failed. */
  lemma AttachmentsConverge(rs: RoleState, ps: Policies, role: string, refs: seq<string>, f: AttachFaults, p: string)
    requires StatusNames(ps) && role in rs.attachments
    ensures
      var m := RC.ToMap(ShownAttachments(rs, ps.index, role));
      var rs' := SyncAttachments(rs, ps, role, refs, ShownAttachments(rs, ps.index, role), f);
      Listing(m, rs, ps.index, role) &&
      (p in Names(rs', ps.index, role) <==> ExpectedName(Names(rs, ps.index, role), m, ps, refs, f, p))
  {
    var m := RC.ToMap(ShownAttachments(rs, ps.index, role));
    var rs' := SyncAttachments(rs, ps, role, refs, ShownAttachments(rs, ps.index, role), f);
    ListingOfShown(rs, ps.index, role);
    if p in Names(rs', ps.index, role) {
      var a :| a in Attached(rs', role) && a in ps.index && ps.index[a] == p;
      SyncedArns(rs, ps, role, refs, f, a);
    }
    if ExpectedName(Names(rs, ps.index, role), m, ps, refs, f, p) {
      if p in m {
        SyncedArns(rs, ps, role, refs, f, m[p]);
      } else {
        var k :| 0 <= k < |refs| && refs[k] == p && Reaches(ps, refs, f, k);
        assert ps.status[p] in Added(ps, refs, f);
        SyncedArns(rs, ps, role, refs, f, ps.status[p]);
      }
    }
  }

  const NO_ATTACH_FAULTS := AttachFaults({}, {}, {})

  /** With nothing failing: exactly the referenced names that were attached before or can be resolved
      now. */
  lemma FaultlessAttachments(rs: RoleState, ps: Policies, role: string, refs: seq<string>)
    requires StatusNames(ps) && role in rs.attachments
    ensures
      var rs' := SyncAttachments(rs, ps, role, refs, ShownAttachments(rs, ps.index, role), NO_ATTACH_FAULTS);
      Names(rs', ps.index, role) == set p | p in refs && (p in Names(rs, ps.index, role) || Resolvable(ps, p))
  {
    forall p ensures
      var m := RC.ToMap(ShownAttachments(rs, ps.index, role));
      var rs' := SyncAttachments(rs, ps, role, refs, ShownAttachments(rs, ps.index, role), NO_ATTACH_FAULTS);
      p in Names(rs', ps.index, role) <==> p in refs && (p in Names(rs, ps.index, role) || Resolvable(ps, p))
    {
      AttachmentsConverge(rs, ps, role, refs, NO_ATTACH_FAULTS, p);
      if p in refs && Resolvable(ps, p) {
        var k :| 0 <= k < |refs| && refs[k] == p;
        assert Reaches(ps, refs, NO_ATTACH_FAULTS, k);
      }
    }
  }

  /** ARNs the service's index does not know are never listed, and stay. */
  lemma HiddenArnsStay(rs: RoleState, ps: Policies, role: string, refs: seq<string>, f: AttachFaults, a: string)
    requires Injective(ps.index) && role in rs.attachments && a !in ps.index
    ensures
      var rs' := SyncAttachments(rs, ps, role, refs, ShownAttachments(rs, ps.index, role), f);
      a in Attached(rs', role) <==> a in Attached(rs, role)
  {
    var m := RC.ToMap(ShownAttachments(rs, ps.index, role));
    ListingOfShown(rs, ps.index, role);
    AttachRefsDoes(Diff(rs, m), ps, role, refs, f);
    var d := AttachRefs(Diff(rs, m), ps, role, refs, f);
    LeftoverIsKnown(d.leftover, m, rs, ps.index, role);
  }

  lemma LeftoverIsKnown(l: map<string, string>, m: map<string, string>, rs: RoleState, index: map<string, string>,
                        role: string)
    requires Listing(m, rs, index, role) && forall p :: p in l ==> p in m && l[p] == m[p]
    ensures forall a :: a in l.Values ==> a in index
  {
  }

  /** What the references would attach is attached already when their names are. */
  lemma AddedAreAttached(rs: RoleState, ps: Policies, role: string, refs: seq<string>, f: AttachFaults)
    requires StatusNames(ps) && forall p :: p in refs && Resolvable(ps, p) ==> p in Names(rs, ps.index, role)
    ensures Added(ps, refs, f) <= Attached(rs, role)
  {
    forall a | a in Added(ps, refs, f) ensures a in Attached(rs, role) {
      var k :| 0 <= k < |refs| && Reaches(ps, refs, f, k) && ps.status[refs[k]] == a;
      assert refs[k] in Names(rs, ps.index, role);
      var b :| b in Attached(rs, role) && b in ps.index && ps.index[b] == refs[k];
    }
  }

  ghost function FaultlessSync(rs: RoleState, ps: Policies, role: string, refs: seq<string>): RoleState {
    SyncAttachments(rs, ps, role, refs, ShownAttachments(rs, ps.index, role), NO_ATTACH_FAULTS)
  }

  lemma SecondSyncArn(rs: RoleState, ps: Policies, role: string, refs: seq<string>, a: string)
    requires StatusNames(ps) && role in rs.attachments
    requires Names(rs, ps.index, role) == set p | p in refs && (p in Names(rs, ps.index, role) || Resolvable(ps, p))
    ensures a in Attached(FaultlessSync(rs, ps, role, refs), role) <==> a in Attached(rs, role)
  {
    if a in ps.index {
      SyncedArns(rs, ps, role, refs, NO_ATTACH_FAULTS, a);
      AddedAreAttached(rs, ps, role, refs, NO_ATTACH_FAULTS);
      assert a in Attached(rs, role) ==> ps.index[a] in Names(rs, ps.index, role);
    } else {
      HiddenArnsStay(rs, ps, role, refs, NO_ATTACH_FAULTS, a);
    }
  }

  /** A second faultless diff changes nothing in the service. */
  lemma SecondSyncIsQuiet(rs: RoleState, ps: Policies, role: string, refs: seq<string>)
    requires StatusNames(ps) && role in rs.attachments
    ensures var rs' := FaultlessSync(rs, ps, role, refs); FaultlessSync(rs', ps, role, refs) == rs'
  {
    var rs' := FaultlessSync(rs, ps, role, refs);
    var rs'' := FaultlessSync(rs', ps, role, refs);
    FaultlessAttachments(rs, ps, role, refs);
    SyncKeepsRest(rs, ps, role, refs, NO_ATTACH_FAULTS, ShownAttachments(rs, ps.index, role));
    SyncKeepsRest(rs', ps, role, refs, NO_ATTACH_FAULTS, ShownAttachments(rs', ps.index, role));
    forall a ensures a in rs''.attachments[role] <==> a in rs'.attachments[role] {
      SecondSyncArn(rs', ps, role, refs, a);
    }
    SameAttachments(rs', rs'', role);
  }

  lemma SameAttachments(a: RoleState, b: RoleState, role: string)
    requires a.roles == b.roles && a.prefix == b.prefix && a.attachments - {role} == b.attachments - {role}
    requires role in a.attachments && role in b.attachments && a.attachments[role] == b.attachments[role]
    ensures a == b
  {
    assert a.attachments == (a.attachments - {role})[role := a.attachments[role]];
    assert b.attachments == (b.attachments - {role})[role := b.attachments[role]];
  }
}

/** Each client call seen from one policy name: what upstream holds for the name at the client's
    path, and what the call does to it and to no other name. */
module UpstreamPolicies {
  import opened Common
  import opened UrlEscape
  import opened PolicyStore
  import opened PolicyClient

  function At(s: Store, path: string, n: string): Option<ManagedPolicy> {
    if n in s.policies && s.policies[n].policy.path == Some(path) then Some(s.policies[n]) else None
  }

  /** The policy a read decodes. */
  function View(mp: ManagedPolicy): Result<IamPolicy> {
    var id := mp.policy.defaultVersionId;
    if id !in mp.versions then Err(NotFound)
    else
      var d := QueryUnescape(mp.versions[id].document);
      if d.None? then Err(BadEscape)
      else Ok(IamPolicy(mp.policy.arn, mp.policy.name, mp.policy.description, id, d.value, mp.policy.createDate))
  }

  function Seen(s: Store, path: string, n: string): Result<IamPolicy> {
    var mp := At(s, path, n);
    if mp.None? then Err(NotFound) else View(mp.value)
  }

  ghost predicate Sound(cs: ClientState, path: string) {
    Invariant(cs.store) && CacheSound(cs, path)
  }

  ghost predicate SameBut(s: Store, s': Store, n: string) {
    && s'.prefix == s.prefix
    && forall m {:trigger Marked(m)} :: Marked(m) && m != n ==>
         (m in s.policies <==> m in s'.policies) && (m in s.policies ==> s'.policies[m] == s.policies[m])
  }

  /** The two ways the reconciler asks for a policy: by the recorded ARN or by name. */
  predicate AsksFor(o: GetOptions, prefix: string, path: string, n: string) {
    o == GetOptions(PolicyArn(prefix, path, n), "") || (n != "" && o == GetOptions("", n))
  }

  lemma ReadSees(s: Store, path: string, n: string)
    requires Invariant(s) && IsClientPath(path) && SlashFree(n)
    ensures Read(s, PolicyArn(s.prefix, path, n)) == Seen(s, path, n)
    ensures At(s, path, n).Some? ==> Seen(s, path, n) != Err(NotFound)
    ensures Listed(s, path, n) == if At(s, path, n).Some? then PolicyArn(s.prefix, path, n) else ""
  {
    ReadByComputedArn(s, path, n);
    if At(s, path, n).Some? {
      IndexAt(s, n);
      PointerAt(s, n);
      assert PolicyArn(s.prefix, path, n) != "" by { assert |PolicyArn(s.prefix, path, n)| >= |path|; }
    }
  }

  lemma InsertFrame(s: Store, mp: ManagedPolicy)
    ensures SameBut(s, Insert(s, mp), mp.policy.name)
  {
  }

  lemma ReplaceFrame(s: Store, n: string, mp: ManagedPolicy, clock: nat)
    ensures SameBut(s, Replace(s, n, mp, clock), n)
  {
  }

  lemma FrameTrans(a: Store, b: Store, c: Store, n: string)
    requires SameBut(a, b, n) && SameBut(b, c, n)
    ensures SameBut(a, c, n)
  {
  }

  // ----- Get -----

  lemma GetByArn(cs: ClientState, path: string, n: string, f: GetFault)
    requires Sound(cs, path) && IsClientPath(path) && SlashFree(n)
    ensures Get(cs, path, GetOptions(PolicyArn(cs.store.prefix, path, n), ""), f)
         == (cs, if f == ReadFails then Unavailable() else Seen(cs.store, path, n))
  {
    ReadSees(cs.store, path, n);
  }

  lemma GetByName(cs: ClientState, path: string, n: string, f: GetFault)
    requires Sound(cs, path) && IsClientPath(path) && SlashFree(n) && n != ""
    ensures
      var (cs', r) := Get(cs, path, GetOptions("", n), f);
      cs'.store == cs.store && (r == Seen(cs.store, path, n) || (f != GetOk && r == Err(ServiceFault)))
  {
    ReadSees(cs.store, path, n);
    assert Marked(n);
  }

  lemma GetKeepsCache(cs: ClientState, path: string, o: GetOptions, f: GetFault)
    requires IndexOk(cs.store) && CacheSound(cs, path)
    ensures CacheSound(Get(cs, path, o, f).0, path)
  {
    if Listed(cs.store, path, o.name) != "" { ListedNameIsSlashFree(cs.store, path, o.name); }
  }

  /** Asking by ARN and asking by name reach the same upstream policy, and nothing is written. */
  lemma GetSees(cs: ClientState, path: string, o: GetOptions, n: string, f: GetFault)
    requires Sound(cs, path) && IsClientPath(path) && SlashFree(n) && AsksFor(o, cs.store.prefix, path, n)
    ensures
      var (cs', r) := Get(cs, path, o, f);
      && cs'.store == cs.store && Sound(cs', path)
      && (r == Seen(cs.store, path, n) || (f != GetOk && r == Err(ServiceFault)))
  {
    GetKeepsCache(cs, path, o, f);
    if o.name == "" { GetByArn(cs, path, n, f); } else { GetByName(cs, path, n, f); }
  }

  // ----- Create -----

  lemma NewIsSeen(s: Store, path: string, n: string, d: Bytes, description: string)
    ensures
      var mp := NewPolicy(s, n, Some(path), d, description);
      View(mp).Ok? && View(mp).value.document == d && View(mp).value.arn == PolicyArn(s.prefix, path, n)
      && At(Insert(s, mp), path, n) == Some(mp)
  {
    EscapeRoundTrip(d);
  }

  /** What a create of `n` does, whatever the fault. */
  ghost predicate Creates(cs: ClientState, path: string, n: string, d: Bytes, f: CreateFault, cs': ClientState,
                          r: Result<IamPolicy>)
  {
    && Sound(cs', path) && SameBut(cs.store, cs'.store, n)
    && (n in cs.store.policies || f == CreateFails ==> cs' == cs && r.Err?)
    && (n !in cs.store.policies && f != CreateFails ==>
          Seen(cs'.store, path, n).Ok? && Seen(cs'.store, path, n).value.document == d)
    && (r.Ok? <==> n !in cs.store.policies && f == CreateOk)
    && (r.Ok? ==> r == Seen(cs'.store, path, n) && r.value.arn == PolicyArn(cs.store.prefix, path, n))
  }

  lemma CreateMakes(cs: ClientState, path: string, n: string, d: Bytes, description: string, f: CreateFault)
    requires Sound(cs, path) && IsClientPath(path) && SlashFree(n)
    ensures Creates(cs, path, n, d, f, Create(cs, path, n, d, description, f).0,
      Create(cs, path, n, d, description, f).1)
  {
    if n !in cs.store.policies && f != CreateFails {
      var mp := NewPolicy(cs.store, n, Some(path), d, description);
      CreatePolicyKeeps(cs.store, n, Some(path), d, description);
      InsertFrame(cs.store, mp);
      NewIsSeen(cs.store, path, n, d, description);
      ReadSees(Insert(cs.store, mp), path, n);
    }
  }

  /** A create that takes effect changes the store, since the clock moves. */
  lemma CreateWrites(cs: ClientState, path: string, n: string, d: Bytes, description: string, f: CreateFault)
    ensures var cs' := Create(cs, path, n, d, description, f).0;
      cs'.store == cs.store <==> (n in cs.store.policies || f == CreateFails || !ValidPath(path))
  {
  }

  lemma SeenHasArn(s: Store, path: string, n: string)
    requires Invariant(s) && Seen(s, path, n).Ok?
    ensures Seen(s, path, n).value.arn == PolicyArn(s.prefix, path, n)
  {
    IndexAt(s, n);
  }

  // ----- Update -----

  lemma NewVersionIsDefault(mp: ManagedPolicy, version: PolicyVersion)
    requires version.isDefault && |mp.versions| < VERSION_LIMIT
    ensures
      var added := AddVersion(mp, version);
      && added.policy == mp.policy.(defaultVersionId := version.versionId)
      && version.versionId in added.versions && added.versions[version.versionId] == version
  {
  }

  /** The policy keeps its place; only its versions and its default pointer change. */
  ghost predicate Revised(s: Store, s': Store, n: string) {
    && SameBut(s, s', n) && n in s.policies && n in s'.policies
    && s'.policies[n].policy == s.policies[n].policy.(defaultVersionId := s'.policies[n].policy.defaultVersionId)
  }

  /** The default version of `n` exists and stores `d`. */
  predicate Stores(s: Store, n: string, d: Bytes) {
    && n in s.policies && s.policies[n].policy.defaultVersionId in s.policies[n].versions
    && s.policies[n].versions[s.policies[n].policy.defaultVersionId].document == d
  }

  lemma CreateVersionRevises(s: Store, n: string, arn: string, d: Bytes)
    requires Invariant(s) && n in s.policies && arn == s.policies[n].policy.arn
    requires CreatePolicyVersion(s, arn, d, true).1.Ok?
    ensures var s1 := CreatePolicyVersion(s, arn, d, true).0; Invariant(s1) && Revised(s, s1, n) && Stores(s1, n, d)
  {
    IndexAt(s, n);
    ValidAt(s, n);
    var r1 := CreatePolicyVersion(s, arn, d, true).1;
    CreatePolicyVersionPointer(s, arn, d, true);
    NewVersionIsDefault(s.policies[n], r1.value);
    ReplaceFrame(s, n, AddVersion(s.policies[n], r1.value), s.clock + 1);
  }

  lemma DeleteVersionRevises(s: Store, n: string, arn: string, id: string, d: Bytes)
    requires Invariant(s) && n in s.policies && arn == s.policies[n].policy.arn && Stores(s, n, d)
    ensures var s2 := DeletePolicyVersion(s, arn, id).0; Revised(s, s2, n) && Stores(s2, n, d)
  {
    IndexAt(s, n);
    PointerAt(s, n);
    ReplaceFrame(s, n, s.policies[n].(versions := s.policies[n].versions - {id}), s.clock);
  }

  lemma RevisedTrans(a: Store, b: Store, c: Store, n: string)
    requires Revised(a, b, n) && Revised(b, c, n)
    ensures Revised(a, c, n)
  {
    FrameTrans(a, b, c, n);
  }

  lemma ReadStored(s: Store, n: string, d: Bytes)
    requires Bijection(s) && Stores(s, n, d)
    ensures
      var r := Read(s, s.policies[n].policy.arn);
      r == View(s.policies[n]) && (r.Ok? ==> QueryUnescape(d) == Some(r.value.document))
  {
    IndexAt(s, n);
  }

  lemma RotateKeeps(s: Store, policy: IamPolicy, d: Bytes, f: UpdateFault)
    requires Invariant(s)
    ensures Invariant(Rotate(s, policy, d, f).0)
  {
    var (s1, r1) := CreatePolicyVersion(s, policy.arn, d, true);
    if r1.Ok? {
      CreatePolicyVersionPointer(s, policy.arn, d, true);
      DeletePolicyVersionKeeps(s1, policy.arn, policy.versionId);
    }
  }

  /** What a rotation that passed its first call did, by the two stores it goes through. */
  lemma RotateStages(s: Store, n: string, policy: IamPolicy, d: Bytes)
    requires Invariant(s) && n in s.policies && policy.arn == s.policies[n].policy.arn
    requires CreatePolicyVersion(s, policy.arn, d, true).1.Ok?
    ensures
      var s1 := CreatePolicyVersion(s, policy.arn, d, true).0;
      var s2 := DeletePolicyVersion(s1, policy.arn, policy.versionId).0;
      && Revised(s, s1, n) && Revised(s, s2, n) && s2.policies[n].policy.arn == policy.arn
      && Read(s2, policy.arn) == View(s2.policies[n])
      && (Read(s2, policy.arn).Ok? ==> QueryUnescape(d) == Some(Read(s2, policy.arn).value.document))
  {
    CreateVersionRevises(s, n, policy.arn, d);
    var s1 := CreatePolicyVersion(s, policy.arn, d, true).0;
    DeleteVersionRevises(s1, n, policy.arn, policy.versionId, d);
    DeletePolicyVersionKeepsIndex(s1, policy.arn, policy.versionId);
    var s2 := DeletePolicyVersion(s1, policy.arn, policy.versionId).0;
    RevisedTrans(s, s1, s2, n);
    ReadStored(s2, n, d);
  }

  /** The new version is stored raw; a read decodes it. */
  lemma RotateReads(s: Store, n: string, policy: IamPolicy, d: Bytes, f: UpdateFault)
    requires Invariant(s) && n in s.policies && policy.arn == s.policies[n].policy.arn
    ensures
      var (s', r) := Rotate(s, policy, d, f);
      && ((s' == s && r.Err?) || Revised(s, s', n))
      && (r.Ok? ==> n in s'.policies && r == View(s'.policies[n]) && QueryUnescape(d) == Some(r.value.document))
  {
    if CreatePolicyVersion(s, policy.arn, d, true).1.Ok? { RotateStages(s, n, policy, d); }
  }

  /** What an update of `n` to `d` does, whatever the fault. */
  ghost predicate Updates(s: Store, path: string, parse: Parser, n: string, d: Bytes, s': Store, r: Result<IamPolicy>) {
    && SameBut(s, s', n)
    && (At(s, path, n).Some? <==> At(s', path, n).Some?)
    && (At(s, path, n).None? ==> s' == s && r.Err?)
    && (Seen(s, path, n).Ok? && parse(Seen(s, path, n).value.document) == parse(d) ==> s' == s)
    && (r.Ok? ==> r == Seen(s', path, n) && r.value.arn == PolicyArn(s.prefix, path, n) && parse(d).Some?
                  && ((s' == s && parse(r.value.document) == parse(d)) || QueryUnescape(d) == Some(r.value.document)))
  }

  lemma UpdateKeeps(s: Store, parse: Parser, arn: string, d: Bytes, f: UpdateFault)
    requires Invariant(s)
    ensures Invariant(Update(s, parse, arn, d, f).0)
  {
    var policy := Read(s, arn);
    if policy.Ok? { RotateKeeps(s, policy.value, d, f); }
  }

  lemma RevisedIsSeen(s: Store, s': Store, path: string, n: string)
    requires Revised(s, s', n) && At(s, path, n).Some?
    ensures At(s', path, n).Some? && Seen(s', path, n) == View(s'.policies[n])
  {
  }

  lemma UpdateCases(s: Store, parse: Parser, arn: string, d: Bytes, f: UpdateFault)
    ensures
      var u, p := Update(s, parse, arn, d, f), Read(s, arn);
      || (u.0 == s && u.1.Err?)
      || (p.Ok? && parse(d).Some? && u == (s, p) && parse(p.value.document) == parse(d))
      || (p.Ok? && parse(d).Some? && parse(p.value.document) != parse(d) && u == Rotate(s, p.value, d, f))
  {
  }

  lemma UpdateChanges(s: Store, path: string, parse: Parser, n: string, d: Bytes, f: UpdateFault)
    requires Invariant(s) && IsClientPath(path) && SlashFree(n)
    ensures Updates(s, path, parse, n, d, Update(s, parse, PolicyArn(s.prefix, path, n), d, f).0,
                    Update(s, parse, PolicyArn(s.prefix, path, n), d, f).1)
  {
    ReadSees(s, path, n);
    UpdateCases(s, parse, PolicyArn(s.prefix, path, n), d, f);
    var u, p := Update(s, parse, PolicyArn(s.prefix, path, n), d, f), Seen(s, path, n);
    if u.0 == s {
    } else {
      IndexAt(s, n);
      RotateReads(s, n, p.value, d, f);
      RevisedIsSeen(s, u.0, path, n);
    }
  }

  // ----- Delete -----

  lemma DeleteRemoves(s: Store, path: string, n: string, fails: bool)
    requires Invariant(s) && IsClientPath(path) && SlashFree(n) && At(s, path, n).Some?
    ensures
      var (s', r) := Delete(s, PolicyArn(s.prefix, path, n), fails);
      && Invariant(s') && SameBut(s, s', n)
      && (fails ==> s' == s && r.Err?) && (!fails ==> r.Ok? && At(s', path, n).None?)
  {
    IndexAt(s, n);
    DeletePolicyKeeps(s, PolicyArn(s.prefix, path, n));
  }
}
